/**
 * The compile-time dispatch of the device serializer, made explicit.
 *
 * The C++ code chooses, per value type `T`, between code paths by detecting
 * members with SFINAE: a `TypeAdapter<T>::read` / `write_ws` /
 * `write_prefs`, `c_str()`, `set(const char*)`, `isInitialized()`, an
 * arithmetic type, Arduino's `String`.  Here each type is described by a
 * `TypeOps<T>` record: the flags those detections yield and the conversions
 * the chosen paths call.  The flags are inputs: which of them a C++ type has
 * is decided by the compiler and is not modelled.
 */
module VarDispatch {
  import opened Wrappers
  import opened JsonDoc

  /** The results of the SFINAE detections for one value type. */
  datatype Caps = Caps(
    adapterRead: bool,        // has_typeadapter_read<T>
    adapterWriteWs: bool,     // has_typeadapter_write_ws<T>
    adapterWritePrefs: bool,  // has_typeadapter_write_prefs<T>
    cStr: bool,               // has_c_str<T>
    setCStr: bool,            // has_set_cstr<T>
    hasIsInitialized: bool,   // has_isInitialized<T>
    scalar: bool,             // is_scalar<T>: arithmetic or bool
    arduinoString: bool)      // std::is_same<T, String>

  /**
   * What the dispatch calls on a value of type `T`.  Each conversion is used
   * only on the paths its flag enables.
   */
  datatype TypeOps<!T> = TypeOps(
    caps: Caps,
    adapterRead: (T, Json) -> Outcome<T>,  // TypeAdapter<T>::read(dst, obj, false)
    writeWs: T -> Json,                    // TypeAdapter<T>::write_ws into a nested object
    writePrefs: T -> Json,                 // TypeAdapter<T>::write_prefs into a nested object
    text: T -> string,                     // c_str()
    setText: (T, Option<string>) -> T,     // set(const char*)
    assignText: (T, Option<string>) -> T,  // dst = (const char*) s, for types without set()
    convert: Json -> T,                    // v.as<T>()
    isInitialized: T -> bool,              // isInitialized()
    plain: T -> Json)                      // out[key] = v

  /** `is_string_like<T>`: both `set(const char*)` and `c_str()`. */
  predicate IsStringLike(c: Caps) {
    c.setCStr && c.cStr
  }

  /**
   * `initialized_of(v)`: `isInitialized()` when the type has it, otherwise
   * "holds non-empty text" for text types, otherwise true.
   */
  function InitializedOf<T>(ops: TypeOps<T>, v: T): (r: bool)
    ensures ops.caps.hasIsInitialized ==> r == ops.isInitialized(v)
    ensures !ops.caps.hasIsInitialized && ops.caps.cStr ==> (r <==> ops.text(v) != "")
    ensures !ops.caps.hasIsInitialized && !ops.caps.cStr ==> r
  {
    if ops.caps.hasIsInitialized then ops.isInitialized(v)
    else if ops.caps.cStr then |ops.text(v)| > 0
    else true
  }

  /** `assign_from_cstr(dst, s)`: `dst.set(s)` when the type has `set`, `dst = s` otherwise. */
  function AssignFromCStr<T>(ops: TypeOps<T>, dst: T, s: Option<string>): (r: T)
    ensures ops.caps.setCStr ==> r == ops.setText(dst, s)
    ensures !ops.caps.setCStr ==> r == ops.assignText(dst, s)
  {
    if ops.caps.setCStr then ops.setText(dst, s) else ops.assignText(dst, s)
  }

  /**
   * `write_value(out, key, v)`: what the WebSocket output holds under the
   * key: the adapter's nested object, else the text, else the value itself.
   */
  function WriteValue<T>(ops: TypeOps<T>, v: T): (j: Json)
    ensures ops.caps.adapterWriteWs ==> j == ops.writeWs(v)
    ensures !ops.caps.adapterWriteWs && ops.caps.cStr ==> j == JStr(ops.text(v))
    ensures !ops.caps.adapterWriteWs && !ops.caps.cStr ==> j == ops.plain(v)
  {
    if ops.caps.adapterWriteWs then ops.writeWs(v)
    else if ops.caps.cStr then JStr(ops.text(v))
    else ops.plain(v)
  }

  /**
   * `write_prefs_value(out, key, v)`: what the preferences hold under the
   * key, chosen in the same order as `WriteValue` but with `write_prefs`.
   */
  function WritePrefsValue<T>(ops: TypeOps<T>, v: T): (j: Json)
    ensures ops.caps.adapterWritePrefs ==> j == ops.writePrefs(v)
    ensures !ops.caps.adapterWritePrefs && ops.caps.cStr ==> j == JStr(ops.text(v))
    ensures !ops.caps.adapterWritePrefs && !ops.caps.cStr ==> j == ops.plain(v)
  {
    if ops.caps.adapterWritePrefs then ops.writePrefs(v)
    else if ops.caps.cStr then JStr(ops.text(v))
    else ops.plain(v)
  }

  /** The WebSocket and the preferences shapes agree when the adapter has neither writer. */
  lemma ShapesAgreeWithoutAdapter<T>(ops: TypeOps<T>, v: T)
    requires !ops.caps.adapterWriteWs && !ops.caps.adapterWritePrefs
    ensures WriteValue(ops, v) == WritePrefsValue(ops, v)
  {
  }

  /**
   * `read_value_from_variant` for a type with an adapter: null is refused,
   * an object goes to `TypeAdapter<T>::read`, text is accepted only by
   * string-like types (through `set`), anything else is refused.
   */
  function ReadVariantAdapter<T>(ops: TypeOps<T>, dst: T, v: Json): (r: Outcome<T>)
    ensures v.JNull? ==> r == Outcome(false, dst)
    ensures v.JObj? ==> r == ops.adapterRead(dst, v)
    ensures v.JStr? && IsStringLike(ops.caps) ==> r == Outcome(true, ops.setText(dst, Some(v.s)))
    ensures !v.JNull? && !v.JObj? && !(v.JStr? && IsStringLike(ops.caps)) ==> r == Outcome(false, dst)
  {
    if v.JNull? then Outcome(false, dst)
    else if v.JObj? then ops.adapterRead(dst, v)
    else if IsStringLike(ops.caps) && v.JStr? then Outcome(true, ops.setText(dst, Some(v.s)))
    else Outcome(false, dst)
  }

  /** A list-like adapter type (not string-like) refuses bare text and leaves the value alone. */
  lemma ListRefusesText<T>(ops: TypeOps<T>, dst: T, s: string)
    requires !IsStringLike(ops.caps)
    ensures ReadVariantAdapter(ops, dst, JStr(s)) == Outcome(false, dst)
  {
  }

  /** `as<T>()` on a scalar, or on `String` when `T` is `String`; other types have no direct conversion. */
  function ConvertDirect<T>(ops: TypeOps<T>, dst: T, v: Json): (r: Outcome<T>)
    ensures (ops.caps.scalar || ops.caps.arduinoString) ==> r == Outcome(true, ops.convert(v))
    ensures !(ops.caps.scalar || ops.caps.arduinoString) ==> r == Outcome(false, dst)
  {
    if ops.caps.scalar || ops.caps.arduinoString then Outcome(true, ops.convert(v))
    else Outcome(false, dst)
  }

  /**
   * `read_value_from_variant` for a type without an adapter: null is
   * refused; an object is read through its `value` member (text through
   * `assign_from_cstr`, otherwise a direct conversion), and an object
   * without `value` is refused; anything else is converted directly.
   */
  function ReadVariantPlain<T>(ops: TypeOps<T>, dst: T, v: Json): (r: Outcome<T>)
    ensures v.JNull? ==> r == Outcome(false, dst)
    ensures v.JObj? && Get(v, "value").JNull? ==> r == Outcome(false, dst)
    ensures v.JObj? && Get(v, "value").JStr? ==> r == Outcome(true, AssignFromCStr(ops, dst, Some(Get(v, "value").s)))
    ensures v.JObj? && !Get(v, "value").JNull? && !Get(v, "value").JStr? ==> r == ConvertDirect(ops, dst, Get(v, "value"))
    ensures !v.JNull? && !v.JObj? ==> r == ConvertDirect(ops, dst, v)
  {
    if v.JNull? then Outcome(false, dst)
    else if v.JObj? then
      var vv := Get(v, "value");
      if vv.JNull? then Outcome(false, dst)
      else if vv.JStr? then Outcome(true, AssignFromCStr(ops, dst, Some(vv.s)))
      else ConvertDirect(ops, dst, vv)
    else ConvertDirect(ops, dst, v)
  }

  /** Without an adapter, a type that is neither scalar nor `String` only ever takes text from `{"value": ...}`. */
  lemma PlainNeedsText<T>(ops: TypeOps<T>, dst: T, v: Json)
    requires !ops.caps.scalar && !ops.caps.arduinoString
    ensures ReadVariantPlain(ops, dst, v).ok <==> v.JObj? && Get(v, "value").JStr?
  {
  }
}
