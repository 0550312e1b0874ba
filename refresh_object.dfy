/** The `refreshObject` task of src/request/refresh_object.rs. */
module RefreshObjectRequest {
  import opened Wrappers
  import opened Accessor

  datatype RefreshObject = RefreshObject(name: string, objectName: string)

  /** `RefreshObject::new`: the task name and the object name, copied. */
  function New(objectName: string): (r: RefreshObject)
    ensures r.name == "refreshObject"
    ensures r.objectName == objectName
  {
    RefreshObject("refreshObject", objectName)
  }

  /** Different object names give different tasks. */
  lemma NewInjective(a: string, b: string)
    ensures New(a) == New(b) <==> a == b
  {
  }

  /** Deserialisation with the `unset_str` default for each missing field. */
  function FromFields(name: Option<string>, objectName: Option<string>): (r: RefreshObject)
    ensures name.Some? ==> r.name == name.value
    ensures name.None? ==> r.name == UnsetStr
    ensures objectName.Some? ==> r.objectName == objectName.value
    ensures objectName.None? ==> r.objectName == UnsetStr
  {
    RefreshObject(
      match name case Some(n) => n case None => UnsetStr,
      match objectName case Some(o) => o case None => UnsetStr)
  }

  /** Every record reads back from its own fields, and a payload with both missing is `("", "")`. */
  lemma FromFieldsRoundTrip(r: RefreshObject)
    ensures FromFields(Some(r.name), Some(r.objectName)) == r
    ensures FromFields(None, None) == RefreshObject("", "")
  {
  }
}
