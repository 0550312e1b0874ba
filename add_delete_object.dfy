/** The `addObject` / `deleteObject` task of src/request/add_delete_object.rs. */
module AddDeleteObjectRequest {
  import opened Wrappers
  import opened Accessor

  datatype AddDeleteObject = AddDeleteObject(name: string, objectName: string)

  const AddName: string := "addObject"
  const DeleteName: string := "deleteObject"

  /** `AddDeleteObject::new`: the flag chooses the task name; the object name is copied. */
  function New(add: bool, objectName: string): (r: AddDeleteObject)
    ensures add ==> r.name == AddName
    ensures !add ==> r.name == DeleteName
    ensures r.objectName == objectName
  {
    AddDeleteObject(if add then AddName else DeleteName, objectName)
  }

  /** Which of the two tasks a record is, when it is one of them. */
  function IsAdd(r: AddDeleteObject): (add: Option<bool>)
    ensures add.Some? <==> r.name == AddName || r.name == DeleteName
  {
    if r.name == AddName then Some(true)
    else if r.name == DeleteName then Some(false)
    else None
  }

  /** The flag is recoverable from the name, which is always one of the two task names. */
  lemma NewNames(add: bool, objectName: string)
    ensures IsAdd(New(add, objectName)) == Some(add)
    ensures New(add, objectName).name in {AddName, DeleteName}
  {
  }

  /** Two records from `new` are equal exactly when both arguments are. */
  lemma NewInjective(a: bool, n: string, b: bool, m: string)
    ensures New(a, n) == New(b, m) <==> a == b && n == m
  {
    NewNames(a, n);
    NewNames(b, m);
  }

  /** Deserialisation with the `unset_str` default for each missing field. */
  function FromFields(name: Option<string>, objectName: Option<string>): (r: AddDeleteObject)
    ensures name.Some? ==> r.name == name.value
    ensures name.None? ==> r.name == UnsetStr
    ensures objectName.Some? ==> r.objectName == objectName.value
    ensures objectName.None? ==> r.objectName == UnsetStr
  {
    AddDeleteObject(
      match name case Some(n) => n case None => UnsetStr,
      match objectName case Some(o) => o case None => UnsetStr)
  }

  /** Every record reads back from its own fields, and one with both fields missing is neither task. */
  lemma FromFieldsRoundTrip(r: AddDeleteObject)
    ensures FromFields(Some(r.name), Some(r.objectName)) == r
    ensures IsAdd(FromFields(None, None)) == None
  {
  }
}
