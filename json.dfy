/**
 * The parsed JSON value `serde_json::Value` that the response handling walks
 * (the value grammar of section 3 of RFC 8259), with serde_json's accessors
 * and the decimal text `Number::to_string` gives an integer.
 */
module Json {
  import opened Wrappers

  /**
   * The integers serde_json keeps as integers: those that fit an `i64` or a
   * `u64`. A literal outside this range decodes to a floating-point number.
   */
  type JsonInt = n: int | -0x8000_0000_0000_0000 <= n < 0x1_0000_0000_0000_0000

  /**
   * A JSON value. Numbers are integers; an object maps each member name to
   * its value, as serde_json's `Map` does (one value per name).
   */
  datatype Value =
    | Null
    | Bool(b: bool)
    | Number(n: JsonInt)
    | String(s: string)
    | Array(items: seq<Value>)
    | Object(members: map<string, Value>)

  /** `Value::as_object`. */
  function AsObject(v: Value): (r: Option<map<string, Value>>)
    ensures r.Some? <==> v.Object?
    ensures r.Some? ==> v == Object(r.value)
  {
    if v.Object? then Some(v.members) else None
  }

  /** `Value::as_str`. */
  function AsStr(v: Value): (r: Option<string>)
    ensures r.Some? <==> v.String?
    ensures r.Some? ==> v == String(r.value)
  {
    if v.String? then Some(v.s) else None
  }

  /** `Value::as_bool`. */
  function AsBool(v: Value): (r: Option<bool>)
    ensures r.Some? <==> v.Bool?
    ensures r.Some? ==> v == Bool(r.value)
  {
    if v.Bool? then Some(v.b) else None
  }

  function DigitChar(d: nat): char
    requires d < 10
  {
    "0123456789"[d]
  }

  predicate IsDigit(c: char)
  {
    '0' <= c <= '9'
  }

  /** The decimal digits of `n`, most significant first, without leading zeros. */
  function NatText(n: nat): string
    decreases n
  {
    if n < 10 then [DigitChar(n)] else NatText(n / 10) + [DigitChar(n % 10)]
  }

  /** `to_string` of an integer: an optional minus sign followed by `NatText`. */
  function IntText(n: int): string
  {
    if n < 0 then "-" + NatText(-n) else NatText(n)
  }

  /** The number a non-empty string of decimal digits denotes. */
  function DigitsValue(s: string): nat
    requires forall i :: 0 <= i < |s| ==> IsDigit(s[i])
  {
    if s == [] then 0
    else
      assert IsDigit(s[|s| - 1]);
      DigitsValue(s[..|s| - 1]) * 10 + (s[|s| - 1] as int - '0' as int)
  }

  /** Reads back an integer in the form `IntText` writes, or `None` for anything else. */
  function ReadInt(s: string): Option<int>
  {
    if |s| > 0 && s[0] == '-' then
      if |s| > 1 && (forall i :: 1 <= i < |s| ==> IsDigit(s[i])) then Some(-(DigitsValue(s[1..]) as int)) else None
    else if |s| > 0 && (forall i :: 0 <= i < |s| ==> IsDigit(s[i])) then Some(DigitsValue(s))
    else None
  }

  /** The digits of `n` are digits, at least one of them, with no leading zero, and they denote `n`. */
  lemma {:induction false} NatTextDenotes(n: nat)
    ensures |NatText(n)| > 0
    ensures forall i :: 0 <= i < |NatText(n)| ==> IsDigit(NatText(n)[i])
    ensures NatText(n)[0] == '0' ==> n == 0
    ensures DigitsValue(NatText(n)) == n
    decreases n
  {
    if n >= 10 {
      NatTextDenotes(n / 10);
      var s := NatText(n);
      assert s[..|s| - 1] == NatText(n / 10);
    }
  }

  /** Integer text reads back as the same integer: `IntText` loses nothing. */
  lemma IntTextRoundTrip(n: int)
    ensures ReadInt(IntText(n)) == Some(n)
  {
    NatTextDenotes(if n < 0 then -n else n);
    if n < 0 {
      assert IntText(n)[1..] == NatText(-n);
    }
  }

  /** Distinct integers have distinct texts. */
  lemma IntTextInjective(m: int, n: int)
    ensures IntText(m) == IntText(n) ==> m == n
  {
    IntTextRoundTrip(m);
    IntTextRoundTrip(n);
  }
}
