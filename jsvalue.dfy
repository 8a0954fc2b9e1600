/**
 * The JavaScript conversions the dashboard relies on: truthiness, `String(v)`
 * (which is also how a value becomes a property key) and `parseFloat` on the
 * text of a number input.
 */
module JsValue {
  import opened Wrappers
  import opened JsonDoc

  /** JavaScript truthiness: null, false, 0 and "" are falsy, everything else is truthy. */
  predicate Truthy(j: Json) {
    match j
    case JNull => false
    case JBool(b) => b
    case JNum(n) => n != 0
    case JStr(s) => s != ""
    case _ => true
  }

  function Join(parts: seq<string>, sep: string): string {
    if |parts| == 0 then ""
    else if |parts| == 1 then parts[0]
    else parts[0] + sep + Join(parts[1..], sep)
  }

  /**
   * `String(v)`, and so the key `obj[v]` uses: arrays join their elements with
   * commas (null elements print as nothing), objects print as
   * "[object Object]".
   */
  function JsString(j: Json): string
    decreases j
  {
    match j
    case JNull => "null"
    case JBool(b) => if b then "true" else "false"
    case JNum(n) => IntToDecimal(n)
    case JStr(s) => s
    case JArr(items) =>
      Join(seq(|items|, i requires 0 <= i < |items| =>
             if items[i].JNull? then "" else JsString(items[i])), ",")
    case JObj(_) => "[object Object]"
  }

  /** The characters `parseFloat` skips before the number. */
  predicate IsJsSpace(c: char) {
    c == ' ' || c == '\t' || c == '\n' || c == '\r' || c == '\U{000B}' || c == '\U{000C}'
    || c == '\U{00A0}' || c == '\U{FEFF}' || c == '\U{2028}' || c == '\U{2029}'
    || c == '\U{1680}' || ('\U{2000}' <= c <= '\U{200A}') || c == '\U{202F}' || c == '\U{205F}'
    || c == '\U{3000}'
  }

  function TrimStart(s: string): (r: string)
    ensures |r| <= |s| && r == s[|s| - |r|..]
    ensures |r| > 0 ==> !IsJsSpace(r[0])
  {
    if |s| > 0 && IsJsSpace(s[0]) then TrimStart(s[1..]) else s
  }

  /** The longest run of decimal digits at the start of `s`. */
  function DigitRun(s: string): (r: string)
    ensures |r| <= |s| && r == s[..|r|] && AllDigits(r)
    ensures |r| < |s| ==> !IsDigit(s[|r|])
  {
    if |s| > 0 && IsDigit(s[0]) then [s[0]] + DigitRun(s[1..]) else ""
  }

  /**
   * `parseFloat(text)` on integer text: leading white space, an optional sign
   * and the longest digit run; None stands for NaN (no digits at all).
   */
  function ParseFloatPrefix(text: string): Option<int> {
    var t := TrimStart(text);
    var signed := |t| > 0 && (t[0] == '-' || t[0] == '+');
    var body := if signed then t[1..] else t;
    var d := DigitRun(body);
    if |d| == 0 then None
    else if signed && t[0] == '-' then Some(0 - DigitsValue(d))
    else Some(DigitsValue(d))
  }

  /** `parseFloat` reads back every integer `String(n)` printed: an untouched number input submits the server's number. */
  lemma ParseFloatOfPrinted(n: int)
    ensures ParseFloatPrefix(IntToDecimal(n)) == Some(n)
  {
    var m: nat := if n < 0 then -n else n;
    var digits := NatToDecimal(m);
    DigitRunOfDigits(digits);
    DecimalRoundTrip(m);
    assert IsDigit(digits[0]);
    if n < 0 {
      ParseFloatOfSigned(digits);
    } else {
      ParseFloatOfUnsigned(digits);
    }
  }

  lemma ParseFloatOfUnsigned(d: string)
    requires 0 < |d| && AllDigits(d) && DigitRun(d) == d
    ensures ParseFloatPrefix(d) == Some(DigitsValue(d))
  {
    assert IsDigit(d[0]);
    assert !IsJsSpace(d[0]);
    var t := TrimStart(d);
    assert t == d;
    assert t[0] != '-' && t[0] != '+';
  }

  lemma ParseFloatOfSigned(d: string)
    requires 0 < |d| && AllDigits(d) && DigitRun(d) == d
    ensures ParseFloatPrefix("-" + d) == Some(0 - DigitsValue(d))
  {
    var s := "-" + d;
    assert TrimStart(s) == s;
    assert s[1..] == d;
  }

  lemma {:induction false} DigitRunOfDigits(s: string)
    requires AllDigits(s)
    ensures DigitRun(s) == s
  {
    if |s| > 0 {
      DigitRunOfDigits(s[1..]);
    }
  }

  // ---------------------------------------------------------------------------
  // Property access on parsed JSON
  // ---------------------------------------------------------------------------

  /** The array index a property key names: only the canonical decimal form of an index below `len`. */
  function IndexKey(key: string, len: nat): (r: Option<nat>)
    ensures r.Some? ==> r.value < len && NatToDecimal(r.value) == key
  {
    match ParseDecimalInt(key)
    case Some(n) => if 0 <= n < len && NatToDecimal(n) == key then Some(n) else None
    case None => None
  }

  /** `Object.keys(v)`: an object's keys, the indices of an array or of a string, nothing otherwise. */
  function OwnKeys(j: Json): set<string> {
    match j
    case JObj(m) => m.Keys
    case JArr(items) => set i | 0 <= i < |items| :: NatToDecimal(i)
    case JStr(s) => set i | 0 <= i < |s| :: NatToDecimal(i)
    case _ => {}
  }

  /** `v[key]` (and `v.key`): an absent property reads as `undefined`, which is `JNull` here. */
  function Prop(j: Json, key: string): Json {
    match j
    case JObj(m) => if key in m then m[key] else JNull
    case JArr(items) =>
      (match IndexKey(key, |items|)
       case Some(i) => items[i]
       case None => JNull)
    case JStr(s) =>
      (match IndexKey(key, |s|)
       case Some(i) => JStr([s[i]])
       case None => JNull)
    case _ => JNull
  }

  /** Every key `Object.keys` lists reads back the element it stands for. */
  lemma PropOfIndex(j: Json, i: nat)
    requires j.JArr? ==> i < |j.items|
    requires j.JStr? ==> i < |j.s|
    ensures j.JArr? ==> NatToDecimal(i) in OwnKeys(j) && Prop(j, NatToDecimal(i)) == j.items[i]
    ensures j.JStr? ==> NatToDecimal(i) in OwnKeys(j) && Prop(j, NatToDecimal(i)) == JStr([j.s[i]])
  {
    IntDecimalRoundTrip(i);
    assert IntToDecimal(i) == NatToDecimal(i);
  }
}
