/**
 * How a `Var<T, WsMode, PrefsMode, WriteMode>` field is written to and read
 * from JSON: the policy-aware `writeOne` / `writeOnePrefs` / `readOne` of
 * `VarFieldIo.h`, and `read_var_value`, the older route through which the
 * generic serializer reads a `Var` field, in both copies the repository
 * keeps (`serializer/ReadDispatch.h` and the inline one in
 * `ModelSerializer.h`).
 *
 * Readers return the `bool` result, the new value, and whether the value was
 * assigned through the `Var`'s own `operator=` (which calls `set` and so
 * notifies the listener) rather than through `get()` (which does not).
 */
module VarIo {
  import opened Wrappers
  import opened JsonDoc
  import opened VarDispatch

  datatype WsMode = WsValue | WsMeta | WsNone
  datatype PrefsMode = PrefsOn | PrefsOff
  datatype WriteMode = WriteOn | WriteOff

  /** The three policy parameters of a `Var`. */
  datatype Policy = Policy(ws: WsMode, prefs: PrefsMode, write: WriteMode)

  /** A reader's outcome: its result, the value afterwards, and whether it went through `Var::operator=`. */
  datatype VarRead<T> = VarRead(ok: bool, value: T, viaSet: bool)

  /** What `WsMode::Meta` sends instead of the value. */
  function SecretJson(initialized: bool): Json {
    JObj(map["type" := JStr("secret"), "initialized" := JBool(initialized)])
  }

  /**
   * `writeOne` for a `Var` field: what the WebSocket output holds under the
   * field's key (None: the key is not written).
   */
  function WriteOne<T>(ops: TypeOps<T>, pol: Policy, v: T): (r: Option<Json>)
    ensures pol.ws == WsNone <==> r.None?
    ensures pol.ws == WsMeta ==> r == Some(SecretJson(InitializedOf(ops, v)))
    ensures pol.ws == WsValue ==> r == Some(WriteValue(ops, v))
  {
    match pol.ws
    case WsNone => None
    case WsMeta => Some(SecretJson(InitializedOf(ops, v)))
    case WsValue => Some(WriteValue(ops, v))
  }

  /**
   * A `Meta` field never leaks its value: two values that are equally
   * initialised produce the same output.
   */
  lemma MetaHidesValue<T>(ops: TypeOps<T>, pol: Policy, v1: T, v2: T)
    requires pol.ws == WsMeta && InitializedOf(ops, v1) == InitializedOf(ops, v2)
    ensures WriteOne(ops, pol, v1) == WriteOne(ops, pol, v2)
  {
  }

  /**
   * `writeOnePrefs` for a `Var` field: nothing when `PrefsMode::Off`,
   * otherwise the real value, whatever the `WsMode`.
   */
  function WriteOnePrefs<T>(ops: TypeOps<T>, pol: Policy, v: T): (r: Option<Json>)
    ensures pol.prefs == PrefsOff <==> r.None?
    ensures pol.prefs == PrefsOn ==> r == Some(WritePrefsValue(ops, v))
  {
    if pol.prefs == PrefsOff then None else Some(WritePrefsValue(ops, v))
  }

  /** The preferences output does not depend on the WebSocket mode: a secret is persisted in full. */
  lemma PrefsIgnoresWsMode<T>(ops: TypeOps<T>, pol: Policy, ws: WsMode, v: T)
    ensures WriteOnePrefs(ops, pol, v) == WriteOnePrefs(ops, pol.(ws := ws), v)
  {
  }

  /**
   * `readOne` for a `Var` whose type has a `TypeAdapter::read`: a read-only
   * field only reports whether the key is absent; a writable one refuses
   * null, reads `{"value": x}` from `x` and anything else as it is, through
   * `read_value_from_variant` on `get()`.
   */
  function ReadOneAdapter<T>(ops: TypeOps<T>, pol: Policy, dst: T, v: Json): (r: VarRead<T>)
    ensures !r.viaSet
    ensures pol.write == WriteOff ==> r == VarRead(v.JNull?, dst, false)
    ensures pol.write == WriteOn && v.JNull? ==> r == VarRead(false, dst, false)
    ensures pol.write == WriteOn && v.JObj? && !Get(v, "value").JNull? ==>
              r.ok == ReadVariantAdapter(ops, dst, Get(v, "value")).ok
              && r.value == ReadVariantAdapter(ops, dst, Get(v, "value")).value
    ensures pol.write == WriteOn && !v.JNull? && !(v.JObj? && !Get(v, "value").JNull?) ==>
              r.ok == ReadVariantAdapter(ops, dst, v).ok && r.value == ReadVariantAdapter(ops, dst, v).value
  {
    if pol.write == WriteOff then VarRead(v.JNull?, dst, false)
    else if v.JNull? then VarRead(false, dst, false)
    else
      var x := if v.JObj? && !Get(v, "value").JNull? then Get(v, "value") else v;
      var o := ReadVariantAdapter(ops, dst, x);
      VarRead(o.ok, o.value, false)
  }

  /**
   * `readOne` for a `Var` whose type has no adapter: a read-only field only
   * reports whether the key is absent; a writable one refuses null, ignores
   * (and accepts) an object without `value`, assigns text through the
   * `Var`'s `operator=`, and converts anything else on `get()`.
   */
  function ReadOnePlain<T>(ops: TypeOps<T>, pol: Policy, dst: T, v: Json): (r: VarRead<T>)
    ensures pol.write == WriteOff ==> r == VarRead(v.JNull?, dst, false)
    ensures pol.write == WriteOn && v.JNull? ==> r == VarRead(false, dst, false)
    ensures pol.write == WriteOn && v.JObj? && Get(v, "value").JNull? ==> r == VarRead(true, dst, false)
    ensures pol.write == WriteOn && v.JObj? && Get(v, "value").JStr? ==>
              r == VarRead(true, AssignFromCStr(ops, dst, Some(Get(v, "value").s)), true)
    ensures pol.write == WriteOn && v.JStr? ==> r == VarRead(true, AssignFromCStr(ops, dst, Some(v.s)), true)
    ensures pol.write == WriteOn && !v.JNull? && !v.JStr? && !v.JObj? ==>
              r.ok == ReadVariantPlain(ops, dst, v).ok && r.value == ReadVariantPlain(ops, dst, v).value && !r.viaSet
  {
    if pol.write == WriteOff then VarRead(v.JNull?, dst, false)
    else if v.JNull? then VarRead(false, dst, false)
    else if v.JObj? then
      var val := Get(v, "value");
      if val.JNull? then VarRead(true, dst, false)
      else if val.JStr? then VarRead(true, AssignFromCStr(ops, dst, Some(val.s)), true)
      else
        var o := ReadVariantPlain(ops, dst, val);
        VarRead(o.ok, o.value, false)
    else if v.JStr? then VarRead(true, AssignFromCStr(ops, dst, Some(v.s)), true)
    else
      var o := ReadVariantPlain(ops, dst, v);
      VarRead(o.ok, o.value, false)
  }

  /** The `readOne` overload a `Var` field gets: by whether its type has a `TypeAdapter::read`. */
  function ReadOne<T>(ops: TypeOps<T>, pol: Policy, dst: T, v: Json): VarRead<T> {
    if ops.caps.adapterRead then ReadOneAdapter(ops, pol, dst, v) else ReadOnePlain(ops, pol, dst, v)
  }

  /**
   * A read-only `Var` never changes, is never notified, and reports success
   * exactly when its key is absent or null.
   */
  lemma ReadOnlyNeverChanges<T>(ops: TypeOps<T>, pol: Policy, dst: T, v: Json)
    requires pol.write == WriteOff
    ensures ReadOne(ops, pol, dst, v).value == dst && !ReadOne(ops, pol, dst, v).viaSet
    ensures ReadOne(ops, pol, dst, v).ok <==> v.JNull?
  {
  }

  /** A writable `Var` refuses a missing or null key and keeps its value. */
  lemma WritableRefusesNull<T>(ops: TypeOps<T>, pol: Policy, dst: T)
    requires pol.write == WriteOn
    ensures ReadOne(ops, pol, dst, JNull) == VarRead(false, dst, false)
  {
  }

  // ---------------------------------------------------------------------------
  // read_var_value
  // ---------------------------------------------------------------------------

  /** Whether `var = s` is the text route for the type: it has `set(const char*)` or `c_str()`. */
  predicate TextCapable(c: Caps) {
    c.setCStr || c.cStr
  }

  /**
   * `read_var_value` for a type with a `TypeAdapter::read` (the same in both
   * copies): null is refused; an object whose `value` is text is assigned
   * through the `Var` for text-capable types, any other object goes to the
   * adapter; bare text is assigned the same way; a bare array is read as
   * `{"items": array}`; anything else is converted and assigned.
   */
  function ReadVarValueAdapter<T>(ops: TypeOps<T>, dst: T, v: Json): (r: VarRead<T>)
    ensures v.JNull? ==> r == VarRead(false, dst, false)
    ensures v.JArr? && !TextCapable(ops.caps) ==>
              r.ok == ops.adapterRead(dst, JObj(map["items" := v])).ok
              && r.value == ops.adapterRead(dst, JObj(map["items" := v])).value && !r.viaSet
    ensures v.JStr? && TextCapable(ops.caps) ==> r == VarRead(true, AssignFromCStr(ops, dst, Some(v.s)), true)
  {
    if v.JNull? then VarRead(false, dst, false)
    else if v.JObj? then
      var val := Get(v, "value");
      if !val.JNull? && val.JStr? && TextCapable(ops.caps) then
        VarRead(true, AssignFromCStr(ops, dst, Some(val.s)), true)
      else
        var o := ops.adapterRead(dst, v);
        VarRead(o.ok, o.value, false)
    else if v.JStr? && TextCapable(ops.caps) then VarRead(true, AssignFromCStr(ops, dst, Some(v.s)), true)
    else if v.JArr? then
      var o := ops.adapterRead(dst, JObj(map["items" := v]));
      VarRead(o.ok, o.value, false)
    else VarRead(true, ops.convert(v), true)
  }

  /**
   * `read_var_value` without an adapter, `serializer/ReadDispatch.h`: null
   * is refused, text is assigned for text-capable types, anything else is
   * converted and assigned.
   */
  function ReadVarValuePlain<T>(ops: TypeOps<T>, dst: T, v: Json): (r: VarRead<T>)
    ensures v.JNull? ==> r == VarRead(false, dst, false)
    ensures !v.JNull? ==> r.ok && r.viaSet
    ensures v.JStr? && TextCapable(ops.caps) ==> r.value == AssignFromCStr(ops, dst, Some(v.s))
    ensures !v.JNull? && !(v.JStr? && TextCapable(ops.caps)) ==> r.value == ops.convert(v)
  {
    if v.JNull? then VarRead(false, dst, false)
    else if v.JStr? && TextCapable(ops.caps) then VarRead(true, AssignFromCStr(ops, dst, Some(v.s)), true)
    else VarRead(true, ops.convert(v), true)
  }

  /**
   * `read_var_value` without an adapter, the older copy in
   * `ModelSerializer.h`: a type with `c_str()` takes only text and refuses
   * anything else; every other type converts whatever it gets, null included.
   */
  function ReadVarValuePlainOlder<T>(ops: TypeOps<T>, dst: T, v: Json): (r: VarRead<T>)
    ensures ops.caps.cStr && !v.JStr? ==> r == VarRead(false, dst, false)
    ensures ops.caps.cStr && v.JStr? ==> r == VarRead(true, AssignFromCStr(ops, dst, Some(v.s)), true)
    ensures !ops.caps.cStr ==> r == VarRead(true, ops.convert(v), true)
  {
    var s := AsCStr(v);
    if ops.caps.cStr then
      if s.None? then VarRead(false, dst, false) else VarRead(true, AssignFromCStr(ops, dst, s), true)
    else VarRead(true, ops.convert(v), true)
  }

  /**
   * The two copies of the non-adapter path agree on every non-null value
   * of a type that has both or neither of `set` and `c_str`, except that the
   * older copy refuses a non-text value for a text type, which the newer
   * one converts.
   */
  lemma PlainCopiesAgree<T>(ops: TypeOps<T>, dst: T, v: Json)
    requires !v.JNull? && ops.caps.cStr == ops.caps.setCStr
    ensures (ReadVarValuePlain(ops, dst, v) == ReadVarValuePlainOlder(ops, dst, v))
              <==> !(ops.caps.cStr && !v.JStr?)
  {
    if ops.caps.cStr && !v.JStr? {
      assert ReadVarValuePlain(ops, dst, v).ok;
    }
  }

  /** `read_var_value`, chosen by whether the type has a `TypeAdapter::read`. */
  function ReadVarValue<T>(ops: TypeOps<T>, dst: T, v: Json): VarRead<T> {
    if ops.caps.adapterRead then ReadVarValueAdapter(ops, dst, v) else ReadVarValuePlain(ops, dst, v)
  }

  /**
   * `read_var_value` takes no policy: through this route a `Var` accepts a
   * value whatever its `WriteMode`, whereas `VarFieldIo`'s `readOne` keeps a
   * read-only `Var` unchanged.
   */
  lemma RouteIgnoresWriteMode<T>(ops: TypeOps<T>, pol: Policy, dst: T, s: string)
    requires pol.write == WriteOff && !ops.caps.adapterRead && ops.convert(JStr(s)) != dst
    requires !TextCapable(ops.caps)
    ensures ReadVarValue(ops, dst, JStr(s)).value != dst
    ensures ReadOne(ops, pol, dst, JStr(s)).value == dst
  {
  }
}
