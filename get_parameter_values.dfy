/** The parameter-query task of src/request/get_parameter_values.rs. */
module GetParameterValuesRequest {
  import opened Wrappers
  import opened Accessor

  datatype GetParameterValues = GetParameterValues(name: string, parameterNames: seq<string>)

  /** `GetParameterValues::new`: the task name is "getParameterNames"; the names are copied in order. */
  function New(parameterNames: seq<string>): (r: GetParameterValues)
    ensures r.name == "getParameterNames"
    ensures r.parameterNames == parameterNames
  {
    GetParameterValues("getParameterNames", parameterNames)
  }

  /** Different name lists give different tasks. */
  lemma NewInjective(a: seq<string>, b: seq<string>)
    ensures New(a) == New(b) <==> a == b
  {
  }

  /** Deserialisation with the `unset_str` and `unset_vec_str` defaults for missing fields. */
  function FromFields(name: Option<string>, parameterNames: Option<seq<string>>): (r: GetParameterValues)
    ensures name.Some? ==> r.name == name.value
    ensures name.None? ==> r.name == UnsetStr
    ensures parameterNames.Some? ==> r.parameterNames == parameterNames.value
    ensures parameterNames.None? ==> r.parameterNames == UnsetVecStr
  {
    GetParameterValues(
      match name case Some(n) => n case None => UnsetStr,
      match parameterNames case Some(p) => p case None => UnsetVecStr)
  }

  /** Every record reads back from its own fields, and a payload with both missing is `("", [])`. */
  lemma FromFieldsRoundTrip(r: GetParameterValues)
    ensures FromFields(Some(r.name), Some(r.parameterNames)) == r
    ensures FromFields(None, None) == GetParameterValues("", [])
  {
  }
}
