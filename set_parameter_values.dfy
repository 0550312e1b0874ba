/** The `setParameterValues` task of src/request/set_parameter_values.rs. */
module SetParameterValuesRequest {
  import opened Wrappers
  import opened Accessor
  import opened ParameterValues

  datatype SetParameterValues = SetParameterValues(name: string, parameterValues: seq<ParameterValue>)

  /** `SetParameterValues::new`: the task name and the list of triples, unchanged. */
  function New(parameterValues: seq<ParameterValue>): (r: SetParameterValues)
    ensures r.name == "setParameterValues"
    ensures r.parameterValues == parameterValues
  {
    SetParameterValues("setParameterValues", parameterValues)
  }

  /** Different lists give different tasks. */
  lemma NewInjective(a: seq<ParameterValue>, b: seq<ParameterValue>)
    ensures New(a) == New(b) <==> a == b
  {
  }

  /** Deserialisation with the `unset_str` and `unset_vec_parameter_value` defaults for missing fields. */
  function FromFields(name: Option<string>, parameterValues: Option<seq<ParameterValue>>): (r: SetParameterValues)
    ensures name.Some? ==> r.name == name.value
    ensures name.None? ==> r.name == UnsetStr
    ensures parameterValues.Some? ==> r.parameterValues == parameterValues.value
    ensures parameterValues.None? ==> r.parameterValues == UnsetVecParameterValue
  {
    SetParameterValues(
      match name case Some(n) => n case None => UnsetStr,
      match parameterValues case Some(p) => p case None => UnsetVecParameterValue)
  }

  /** Every record reads back from its own fields, and a payload with both missing is `("", [])`. */
  lemma FromFieldsRoundTrip(r: SetParameterValues)
    ensures FromFields(Some(r.name), Some(r.parameterValues)) == r
    ensures FromFields(None, None) == SetParameterValues("", [])
  {
  }
}
