/**
 * `StringBuffer<N>` and the `TypeAdapter`s of the scalar types: how a value
 * is wrapped as `{"value": ...}` for the WebSocket and the preferences, and
 * read back from such an object.
 *
 * A `StringBuffer<N>` is a `char[N]` holding a C string of at most `N - 1`
 * characters.  It is held by value (copied into lists and `Var`s), so it is a
 * datatype here and `set` yields the new buffer.
 */
module Primitives {
  import opened Wrappers
  import opened JsonDoc
  import opened Machine

  datatype StringBuffer = StringBuffer(size: nat, text: string) {
    /** What a `char[size]` can hold: a terminator and at most `size - 1` other characters. */
    predicate Valid() {
      0 < size && |text| < size && PlainText(text)
    }
  }

  /** `StringBuffer<N>()`: the empty string. */
  function EmptyBuffer(n: nat): (b: StringBuffer)
    requires 0 < n
    ensures b.Valid() && b.size == n && b.text == ""
  {
    StringBuffer(n, "")
  }

  /** `set(s)`: `nullptr` empties the buffer, anything else is cut to `N - 1` characters. */
  function SetText(b: StringBuffer, s: Option<string>): (r: StringBuffer)
    requires b.Valid()
    ensures r.Valid() && r.size == b.size
    ensures s.None? ==> r.text == ""
    ensures s.Some? ==> |r.text| == if |CStr(s.value)| < b.size then |CStr(s.value)| else b.size - 1
    ensures s.Some? ==> r.text == CStr(s.value)[..|r.text|]
  {
    match s
    case None => StringBuffer(b.size, "")
    case Some(t) => StringBuffer(b.size, Truncate(t, b.size - 1))
  }

  /** `StringBuffer<N>(s)`: a buffer built by `set`. */
  function BufferOf(n: nat, s: Option<string>): (b: StringBuffer)
    requires 0 < n
    ensures b == SetText(EmptyBuffer(n), s)
  {
    SetText(EmptyBuffer(n), s)
  }

  /** Text that fits, without a NUL, is stored whole. */
  lemma SetTextKeeps(b: StringBuffer, s: string)
    requires b.Valid() && |s| < b.size && PlainText(s)
    ensures SetText(b, Some(s)).text == s
  {
    TruncateKeepsFitting(s, b.size - 1);
  }

  /** `operator==(const char*)`: `strcmp` compares the buffer with the C string `s`. */
  function Equals(b: StringBuffer, s: string): (r: bool)
    ensures r <==> b.text == CStr(s)
  {
    b.text == CStr(s)
  }

  /** `operator!=`: the negation of `==`. */
  function NotEquals(b: StringBuffer, s: string): (r: bool)
    ensures r <==> !Equals(b, s)
  {
    !Equals(b, s)
  }

  /** After `set(s)` with text that fits, the buffer compares equal to `s` and to nothing else. */
  lemma SetThenEquals(b: StringBuffer, s: string, t: string)
    requires b.Valid() && |s| < b.size && PlainText(s) && PlainText(t)
    ensures Equals(SetText(b, Some(s)), t) <==> s == t
  {
    SetTextKeeps(b, s);
    CStrOfPlain(t);
  }

  // ---------------------------------------------------------------------------
  // TypeAdapter<int>, TypeAdapter<bool>
  // ---------------------------------------------------------------------------

  /** `write_ws` / `write_prefs` of an `int` or a `bool`: `{"value": v}`. */
  function ValueObject(v: Json): Json {
    JObj(map["value" := v])
  }

  /** `TypeAdapter<int>::read`: false and no change when `value` is null, otherwise `as<int>()`. */
  function ReadInt(val: int, input: Json): (r: Outcome<int>)
    ensures Get(input, "value").JNull? ==> r == Outcome(false, val)
    ensures !Get(input, "value").JNull? ==> r == Outcome(true, AsInt(Get(input, "value")))
  {
    var v := Get(input, "value");
    if v.JNull? then Outcome(false, val) else Outcome(true, AsInt(v))
  }

  /** `TypeAdapter<bool>::read`: false and no change when `value` is null, otherwise `as<bool>()`. */
  function ReadBool(val: bool, input: Json): (r: Outcome<bool>)
    ensures Get(input, "value").JNull? ==> r == Outcome(false, val)
    ensures !Get(input, "value").JNull? ==> r == Outcome(true, AsBool(Get(input, "value")))
  {
    var v := Get(input, "value");
    if v.JNull? then Outcome(false, val) else Outcome(true, AsBool(v))
  }

  /** An `int` written by its adapter reads back as itself. */
  lemma IntRoundTrip(val: int, other: int)
    requires IsI32(val)
    ensures ReadInt(other, ValueObject(JNum(val))) == Outcome(true, val)
  {
    assert Get(ValueObject(JNum(val)), "value") == JNum(val);
  }

  /** A `bool` written by its adapter reads back as itself. */
  lemma BoolRoundTrip(val: bool, other: bool)
    ensures ReadBool(other, ValueObject(JBool(val))) == Outcome(true, val)
  {
    assert Get(ValueObject(JBool(val)), "value") == JBool(val);
  }

  // ---------------------------------------------------------------------------
  // TypeAdapter<StringBuffer<N>> and the direct-field readOne/writeOne
  // ---------------------------------------------------------------------------

  /** `write_ws` / `write_prefs`: `{"value": text}`. */
  function WriteBuffer(b: StringBuffer): Json {
    ValueObject(JStr(b.text))
  }

  /**
   * `TypeAdapter<StringBuffer<N>>::read`: a missing or null `value` is
   * accepted with no change, a value that is not text is refused, and text is
   * stored by `set`.
   */
  function ReadBuffer(b: StringBuffer, input: Json): (r: Outcome<StringBuffer>)
    requires b.Valid()
    ensures r.value.Valid()
    ensures Get(input, "value").JNull? ==> r == Outcome(true, b)
    ensures !Get(input, "value").JNull? && !Get(input, "value").JStr? ==> r == Outcome(false, b)
    ensures Get(input, "value").JStr? ==> r == Outcome(true, SetText(b, Some(Get(input, "value").s)))
  {
    var v := Get(input, "value");
    if v.JNull? then Outcome(true, b)
    else match AsCStr(v)
      case None => Outcome(false, b)
      case Some(s) => Outcome(true, SetText(b, Some(s)))
  }

  /** A buffer written by its adapter reads back as itself, whatever the target held. */
  lemma BufferRoundTrip(b: StringBuffer, target: StringBuffer)
    requires b.Valid() && target.Valid() && target.size == b.size
    ensures ReadBuffer(target, WriteBuffer(b)) == Outcome(true, b)
  {
    assert Get(WriteBuffer(b), "value") == JStr(b.text);
    SetTextKeeps(target, b.text);
  }

  /** `writeOne` for a `StringBuffer` field: the bare text under the field's key. */
  function WriteBufferField(b: StringBuffer): Json {
    JStr(b.text)
  }

  /**
   * `readOne` for a `StringBuffer` field: unlike the adapter, a null value
   * is refused too; text is stored by `set`.
   */
  function ReadBufferField(b: StringBuffer, v: Json): (r: Outcome<StringBuffer>)
    requires b.Valid()
    ensures r.value.Valid()
    ensures !v.JStr? ==> r == Outcome(false, b)
    ensures v.JStr? ==> r == Outcome(true, SetText(b, Some(v.s)))
  {
    if v.JNull? then Outcome(false, b)
    else match AsCStr(v)
      case None => Outcome(false, b)
      case Some(s) => Outcome(true, SetText(b, Some(s)))
  }

  /** The field reader and the adapter reader disagree exactly on a null value. */
  lemma FieldAndAdapterOnNull(b: StringBuffer, input: Json)
    requires b.Valid()
    ensures (ReadBufferField(b, Get(input, "value")) == ReadBuffer(b, input)) <==> !Get(input, "value").JNull?
  {
  }

  /** A field written by `writeOne` reads back through `readOne` as itself. */
  lemma BufferFieldRoundTrip(b: StringBuffer, target: StringBuffer)
    requires b.Valid() && target.Valid() && target.size == b.size
    ensures ReadBufferField(target, WriteBufferField(b)) == Outcome(true, b)
  {
    SetTextKeeps(target, b.text);
  }
}
