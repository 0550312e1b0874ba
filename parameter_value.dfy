/** The (parameter, value, type) triple of src/parameter_value.rs. */
module ParameterValues {
  import opened Wrappers
  import opened Accessor

  datatype ParameterValue = ParameterValue(parameter: string, value: string, valueType: string)

  /** `ParameterValue::new`: the three arguments in the three fields, in order. */
  function New(parameter: string, value: string, valueType: string): (r: ParameterValue)
    ensures r.parameter == parameter && r.value == value && r.valueType == valueType
  {
    ParameterValue(parameter, value, valueType)
  }

  /** `to_value`: the record flattened to `[parameter, value, value_type]`. */
  function ToValue(pv: ParameterValue): (r: seq<string>)
    ensures |r| == 3
  {
    [pv.parameter, pv.value, pv.valueType]
  }

  /** The record a three-element list flattens back to; any other length has none. */
  function FromValue(s: seq<string>): (r: Option<ParameterValue>)
    ensures r.Some? <==> |s| == 3
  {
    if |s| == 3 then Some(ParameterValue(s[0], s[1], s[2])) else None
  }

  /** `to_value` loses nothing: the list reads back as the same record. */
  lemma ToValueRoundTrip(pv: ParameterValue)
    ensures FromValue(ToValue(pv)) == Some(pv)
  {
  }

  /** Every three-element list is the flattening of exactly the record it reads back as. */
  lemma FromValueRoundTrip(s: seq<string>)
    requires |s| == 3
    ensures ToValue(FromValue(s).value) == s
  {
  }

  /** Flattening what `new` builds gives its arguments back, in order. */
  lemma NewToValue(parameter: string, value: string, valueType: string)
    ensures ToValue(New(parameter, value, valueType)) == [parameter, value, valueType]
  {
  }

  /** Records with equal flattenings are equal. */
  lemma ToValueInjective(a: ParameterValue, b: ParameterValue)
    ensures ToValue(a) == ToValue(b) ==> a == b
  {
    ToValueRoundTrip(a);
    ToValueRoundTrip(b);
  }

  /** Deserialisation with the `unset_str` default for each missing field. */
  function FromFields(parameter: Option<string>, value: Option<string>, valueType: Option<string>): (r: ParameterValue)
    ensures parameter.Some? ==> r.parameter == parameter.value
    ensures parameter.None? ==> r.parameter == UnsetStr
    ensures value.Some? ==> r.value == value.value
    ensures value.None? ==> r.value == UnsetStr
    ensures valueType.Some? ==> r.valueType == valueType.value
    ensures valueType.None? ==> r.valueType == UnsetStr
  {
    ParameterValue(
      match parameter case Some(p) => p case None => UnsetStr,
      match value case Some(v) => v case None => UnsetStr,
      match valueType case Some(t) => t case None => UnsetStr)
  }

  /** `unset_parameter_value` of src/util/accessor.rs: `new("", "", "")`. */
  const UnsetParameterValue: ParameterValue := New("", "", "")

  /** `unset_vec_parameter_value` of src/util/accessor.rs: the empty list. */
  const UnsetVecParameterValue: seq<ParameterValue> := []

  /** The record with every field missing is the unset record, and it flattens to three empty strings. */
  lemma UnsetFlattensEmpty()
    ensures FromFields(None, None, None) == UnsetParameterValue
    ensures ToValue(UnsetParameterValue) == ["", "", ""]
  {
  }
}
