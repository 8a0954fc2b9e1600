/**
 * JSON documents as both halves of the system see them: the values the
 * browser gets from `JSON.parse` and the `JsonVariant`s ArduinoJson hands to
 * the device code.  Numbers are integers (floating point is not modelled), and
 * a JavaScript `undefined` reads as `JNull`.
 */
module JsonDoc {
  import opened Wrappers
  import opened Machine

  datatype Json =
    | JNull
    | JBool(b: bool)
    | JNum(n: int)
    | JStr(s: string)
    | JArr(items: seq<Json>)
    | JObj(fields: map<string, Json>)

  /** `obj[key]`: a missing key, or a lookup on anything but an object, yields null. */
  function Get(j: Json, key: string): Json {
    if j.JObj? && key in j.fields then j.fields[key] else JNull
  }

  /** `in.containsKey(key)` / the JavaScript `key in obj` test on an object. */
  predicate Has(j: Json, key: string) {
    j.JObj? && key in j.fields
  }

  // ---------------------------------------------------------------------------
  // Decimal text
  // ---------------------------------------------------------------------------

  predicate IsDigit(c: char) {
    '0' <= c <= '9'
  }

  predicate AllDigits(s: string) {
    forall i :: 0 <= i < |s| ==> IsDigit(s[i])
  }

  function DigitValue(c: char): nat
    requires IsDigit(c)
  {
    c as int - '0' as int
  }

  function DigitChar(d: nat): (c: char)
    requires d < 10
    ensures IsDigit(c) && DigitValue(c) == d
  {
    ('0' as int + d) as char
  }

  /** Decimal digits of `n`, most significant first, without leading zeros. */
  function NatToDecimal(n: nat): (s: string)
    ensures 0 < |s| && AllDigits(s)
    ensures n == 0 <==> s == "0"
    ensures s[0] == '0' ==> n == 0
  {
    if n < 10 then [DigitChar(n)] else NatToDecimal(n / 10) + [DigitChar(n % 10)]
  }

  /** The number a run of decimal digits denotes. */
  function DigitsValue(s: string): nat
    requires AllDigits(s)
  {
    if |s| == 0 then 0 else DigitsValue(s[..|s| - 1]) * 10 + DigitValue(s[|s| - 1])
  }

  /** Printing a natural number in decimal and reading the digits back gives the number. */
  lemma {:induction false} DecimalRoundTrip(n: nat)
    ensures DigitsValue(NatToDecimal(n)) == n
  {
    if n >= 10 {
      var s := NatToDecimal(n);
      assert s[..|s| - 1] == NatToDecimal(n / 10);
      DecimalRoundTrip(n / 10);
    }
  }

  /** How both JavaScript `String(n)` and ArduinoJson print an integer. */
  function IntToDecimal(n: int): string {
    if n < 0 then "-" + NatToDecimal(-n) else NatToDecimal(n)
  }

  /**
   * The whole text read as a decimal integer with an optional sign, as
   * ArduinoJson's number parser accepts it; anything else is None.
   */
  function ParseDecimalInt(s: string): (r: Option<int>)
    ensures r.Some? ==> 0 < |s|
  {
    if |s| == 0 then None
    else if s[0] == '-' || s[0] == '+' then
      var digits := s[1..];
      if 0 < |digits| && AllDigits(digits) then
        Some(if s[0] == '-' then 0 - DigitsValue(digits) as int else DigitsValue(digits))
      else None
    else if AllDigits(s) then Some(DigitsValue(s))
    else None
  }

  /** Every integer printed in decimal parses back to itself. */
  lemma IntDecimalRoundTrip(n: int)
    ensures ParseDecimalInt(IntToDecimal(n)) == Some(n)
  {
    if n < 0 {
      var s := IntToDecimal(n);
      assert s[1..] == NatToDecimal(-n);
      DecimalRoundTrip(-n);
    } else {
      var s := NatToDecimal(n);
      assert s[0] != '-' && s[0] != '+' by { assert IsDigit(s[0]); }
      DecimalRoundTrip(n);
    }
  }

  // ---------------------------------------------------------------------------
  // ArduinoJson conversions (`as<T>()`, `is<T>()` and the `|` default operator)
  // ---------------------------------------------------------------------------

  /**
   * `v.as<int>()`: numbers as they are, booleans as 0/1, decimal text parsed,
   * everything else 0; a value outside the 32-bit `int` range also reads as 0.
   */
  function AsInt(j: Json): (r: int)
    ensures IsI32(r)
    ensures j.JNum? && IsI32(j.n) ==> r == j.n
  {
    var n := match j
      case JNum(n) => n
      case JBool(b) => if b then 1 else 0
      case JStr(s) => ParseDecimalInt(s).GetOr(0)
      case _ => 0;
    if IsI32(n) then n else 0
  }

  /** `v.as<bool>()`: null and false and zero are false, everything else is true. */
  function AsBool(j: Json): bool {
    match j
    case JNull => false
    case JBool(b) => b
    case JNum(n) => n != 0
    case _ => true
  }

  /** `v.as<const char*>()`: the text of a string, `nullptr` (None) for anything else. */
  function AsCStr(j: Json): Option<string> {
    if j.JStr? then Some(j.s) else None
  }

  /** `v | dflt` for an integer default: the number when `v` holds one, else the default. */
  function OrInt(j: Json, dflt: int): int {
    if j.JNum? then j.n else dflt
  }

  /** `v | dflt` for a string default. */
  function OrStr(j: Json, dflt: string): string {
    if j.JStr? then j.s else dflt
  }

  /** The text a C string holds: everything before the first NUL character. */
  function CStr(s: string): (r: string)
    ensures |r| <= |s| && r == s[..|r|]
    ensures forall i :: 0 <= i < |r| ==> r[i] != '\0'
    ensures |r| < |s| ==> s[|r|] == '\0'
  {
    if |s| == 0 || s[0] == '\0' then "" else [s[0]] + CStr(s[1..])
  }

  /** Text with no NUL character: what a C string can hold in full. */
  predicate PlainText(s: string) {
    forall i :: 0 <= i < |s| ==> s[i] != '\0'
  }

  /** A C string reads back as the whole text exactly when the text has no NUL in it. */
  lemma {:induction false} CStrOfPlain(s: string)
    requires PlainText(s)
    ensures CStr(s) == s
  {
    if |s| > 0 {
      CStrOfPlain(s[1..]);
      assert s == [s[0]] + s[1..];
    }
  }

  /** `strncpy(dst, s, n)` followed by a terminator: at most `n` characters of the C string. */
  function Truncate(s: string, n: nat): (r: string)
    ensures |r| == if |CStr(s)| <= n then |CStr(s)| else n
    ensures r == CStr(s)[..|r|]
  {
    var c := CStr(s);
    if |c| <= n then c else c[..n]
  }

  /** Copying text that already fits, and has no NUL, into an `n`-character buffer keeps it whole. */
  lemma TruncateKeepsFitting(s: string, n: nat)
    requires PlainText(s) && |s| <= n
    ensures Truncate(s, n) == s
  {
    CStrOfPlain(s);
  }

  /** Reading a C string from position `k` inside its text yields the rest of that text. */
  lemma {:induction false} CStrDrop(s: string, k: nat)
    requires k <= |CStr(s)|
    ensures CStr(s[k..]) == CStr(s)[k..]
    decreases k
  {
    if k > 0 {
      CStrDrop(s[1..], k - 1);
      assert s[1..][k - 1..] == s[k..];
    }
  }

  /** The first `k` characters of a C string's text read back as themselves. */
  lemma CStrTake(s: string, k: nat)
    requires k <= |CStr(s)|
    ensures CStr(s[..k]) == CStr(s)[..k]
  {
    var c := CStr(s);
    assert s[..k] == c[..k];
    CStrOfPlain(c[..k]);
  }
}
