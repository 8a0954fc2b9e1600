/**
 * `StaticString<N>`: a `char[N]` C string with an optional `on_change`
 * callback.  Unlike `StringBuffer`, it is updated in place and notifies its
 * listener; the callback is recorded as the number of calls it has received.
 */
module StaticStrings {
  import opened Wrappers
  import opened JsonDoc

  class StaticString {
    const size: nat
    var value: string
    /** Whether an `on_change` callback is installed. */
    var hasListener: bool
    /** How many times `on_change` has been called. */
    var fired: nat

    predicate Valid()
      reads this
    {
      0 < size && |value| < size && PlainText(value)
    }

    /** `StaticString<N>()`: empty, no listener. */
    constructor (n: nat)
      requires 0 < n
      ensures Valid() && size == n && value == "" && !hasListener && fired == 0
    {
      size := n;
      value := "";
      hasListener := false;
      fired := 0;
    }

    /** `setOnChange(cb)`; an empty `std::function` uninstalls the listener. */
    method SetOnChange(installed: bool)
      requires Valid()
      modifies this
      ensures Valid() && hasListener == installed && value == old(value) && fired == old(fired)
    {
      hasListener := installed;
    }

    /**
     * `set(s)` (and both `operator=`): `nullptr` empties the value without
     * notifying; text is cut to `N - 1` characters and the listener, if any,
     * is called once, whether or not the text changed.
     */
    method Set(s: Option<string>)
      requires Valid()
      modifies this
      ensures Valid() && hasListener == old(hasListener)
      ensures s.None? ==> value == "" && fired == old(fired)
      ensures s.Some? ==> value == Truncate(s.value, size - 1)
      ensures s.Some? ==> fired == old(fired) + (if hasListener then 1 else 0)
    {
      if s.None? {
        value := "";
        return;
      }
      value := Truncate(s.value, size - 1);
      if hasListener {
        fired := fired + 1;
      }
    }

    /** `operator==(const char*)`: `strcmp` against the C string `s`. */
    function Equals(s: string): (r: bool)
      reads this
      ensures r <==> value == CStr(s)
    {
      value == CStr(s)
    }

    /** `write_ws`, `write_prefs`: `{"value": text}`. */
    function WriteValue(): Json
      reads this
    {
      JObj(map["value" := JStr(value)])
    }

    /** `writeOne` for a direct field: the bare text. */
    function WriteField(): Json
      reads this
    {
      JStr(value)
    }

    /**
     * `TypeAdapter<StaticString<N>>::read`: a missing or null `value` is
     * accepted with no change, a value that is not text is refused, text is
     * stored by `set` (and so notifies).
     */
    method ReadValue(input: Json) returns (ok: bool)
      requires Valid()
      modifies this
      ensures Valid() && hasListener == old(hasListener)
      ensures Get(input, "value").JNull? ==> ok && value == old(value) && fired == old(fired)
      ensures !Get(input, "value").JNull? && !Get(input, "value").JStr? ==>
                !ok && value == old(value) && fired == old(fired)
      ensures Get(input, "value").JStr? ==>
                ok && value == Truncate(Get(input, "value").s, size - 1)
                && fired == old(fired) + (if hasListener then 1 else 0)
    {
      var v := Get(input, "value");
      if v.JNull? {
        return true;
      }
      var str := AsCStr(v);
      if str.None? {
        return false;
      }
      Set(str);
      ok := true;
    }

    /** `readOne` for a direct field: a null or non-text value is refused. */
    method ReadField(v: Json) returns (ok: bool)
      requires Valid()
      modifies this
      ensures Valid() && hasListener == old(hasListener)
      ensures ok <==> v.JStr?
      ensures !ok ==> value == old(value) && fired == old(fired)
      ensures ok ==> value == Truncate(v.s, size - 1) && fired == old(fired) + (if hasListener then 1 else 0)
    {
      if v.JNull? {
        return false;
      }
      var str := AsCStr(v);
      if str.None? {
        return false;
      }
      Set(str);
      ok := true;
    }
  }

  /** Text that fits the buffer survives `write_ws` followed by the adapter's `read`. */
  lemma ValueRoundTrip(text: string, size: nat)
    requires 0 < size && |text| < size && PlainText(text)
    ensures Get(JObj(map["value" := JStr(text)]), "value").JStr?
    ensures Truncate(Get(JObj(map["value" := JStr(text)]), "value").s, size - 1) == text
  {
    TruncateKeepsFitting(text, size - 1);
  }
}
