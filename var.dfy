/**
 * `Var<T, WsMode, PrefsMode, WriteMode>`: a value with an optional change
 * listener.  Every assignment through the `Var` (`set`, `operator=`,
 * `+=`, `-=`, `touch`) calls the listener if one is installed; changes
 * made through the reference `get()` returns do not.  The listener itself
 * is not modelled: `notified` counts its calls.
 */
module Vars {
  import opened Wrappers
  import opened JsonDoc
  import opened VarDispatch
  import opened VarIo

  class Var<T> {
    const ops: TypeOps<T>
    const policy: Policy
    var value: T
    var hasListener: bool
    var notified: nat

    /** `Var(v)`: holds `v`, no listener.  (`Var()` is `Var(T())`.) */
    constructor(ops: TypeOps<T>, policy: Policy, v: T)
      ensures this.ops == ops && this.policy == policy
      ensures value == v && !hasListener && notified == 0
    {
      this.ops := ops;
      this.policy := policy;
      value := v;
      hasListener := false;
      notified := 0;
    }

    /** `get()` / the implicit conversion to `const T&`. */
    function Get(): (r: T)
      reads this
      ensures r == value
    {
      value
    }

    /** `notify_()`: calls the listener if there is one. */
    method Notify()
      modifies this
      ensures value == old(value) && hasListener == old(hasListener)
      ensures notified == old(notified) + (if hasListener then 1 else 0)
    {
      if hasListener {
        notified := notified + 1;
      }
    }

    /** `setOnChange(cb)`: installs (replaces) the listener. */
    method SetOnChange()
      modifies this
      ensures hasListener && value == old(value) && notified == old(notified)
    {
      hasListener := true;
    }

    /** `touch()`: notifies without changing the value. */
    method Touch()
      modifies this
      ensures value == old(value) && hasListener == old(hasListener)
      ensures notified == old(notified) + (if hasListener then 1 else 0)
    {
      Notify();
    }

    /** `set(v)` and `operator=(const T&)`: assigns, then notifies (also when the value is unchanged). */
    method Set(v: T)
      modifies this
      ensures value == v && hasListener == old(hasListener)
      ensures notified == old(notified) + (if hasListener then 1 else 0)
    {
      value := v;
      Notify();
    }

    /**
     * `operator=(const char*)` / `operator=(const String&)`, available when
     * `T` has `set(const char*)` or is assignable from text: assigns through
     * `assign_from_cstr`, then notifies.
     */
    method AssignText(s: Option<string>)
      modifies this
      ensures value == AssignFromCStr(ops, old(value), s) && hasListener == old(hasListener)
      ensures notified == old(notified) + (if hasListener then 1 else 0)
    {
      value := AssignFromCStr(ops, value, s);
      Notify();
    }

    /**
     * `operator+=` / `operator-=`, available when `T` has them: `step` is
     * what `value_ += rhs` (or `-=`) does to the value.  Notifies.
     */
    method Update(step: T -> T)
      modifies this
      ensures value == step(old(value)) && hasListener == old(hasListener)
      ensures notified == old(notified) + (if hasListener then 1 else 0)
    {
      value := step(value);
      Notify();
    }

    /**
     * `readOne` for a field holding this `Var`, with `v` the field's entry
     * (`JNull` when absent): the new value and result are those of
     * `ReadOne`, and the listener hears of it only when the reader assigned
     * through `operator=`.
     */
    method ReadField(v: Json) returns (ok: bool)
      modifies this
      ensures ok == ReadOne(ops, policy, old(value), v).ok
      ensures value == ReadOne(ops, policy, old(value), v).value && hasListener == old(hasListener)
      ensures notified == old(notified) + (if ReadOne(ops, policy, old(value), v).viaSet && hasListener then 1 else 0)
    {
      var r := ReadOne(ops, policy, value, v);
      value := r.value;
      if r.viaSet {
        Notify();
      }
      ok := r.ok;
    }

    /**
     * `read_var_value(var, v)`, the serializer's own route: like
     * `ReadField` but through `ReadVarValue`, which takes no policy.
     */
    method ReadValue(v: Json) returns (ok: bool)
      modifies this
      ensures ok == ReadVarValue(ops, old(value), v).ok
      ensures value == ReadVarValue(ops, old(value), v).value && hasListener == old(hasListener)
      ensures notified == old(notified) + (if ReadVarValue(ops, old(value), v).viaSet && hasListener then 1 else 0)
    {
      var r := ReadVarValue(ops, value, v);
      value := r.value;
      if r.viaSet {
        Notify();
      }
      ok := r.ok;
    }

    /** `writeOne` for a field holding this `Var`. */
    function WriteField(): (r: Option<Json>)
      reads this
      ensures policy.ws == WsNone <==> r.None?
      ensures policy.ws == WsValue ==> r == Some(WriteValue(ops, value))
    {
      WriteOne(ops, policy, value)
    }

    /** `writeOnePrefs` for a field holding this `Var`. */
    function WritePrefsField(): (r: Option<Json>)
      reads this
      ensures policy.prefs == PrefsOff <==> r.None?
      ensures policy.prefs == PrefsOn ==> r == Some(WritePrefsValue(ops, value))
    {
      WriteOnePrefs(ops, policy, value)
    }
  }

  /** A read-only `Var` is left alone and silent by `readOne`, whatever arrives. */
  method ReadOnlyFieldIsInert<T>(x: Var<T>, v: Json) returns (ok: bool)
    requires x.policy.write == WriteOff
    modifies x
    ensures ok <==> v.JNull?
    ensures x.value == old(x.value) && x.notified == old(x.notified)
  {
    ReadOnlyNeverChanges(x.ops, x.policy, x.value, v);
    ok := x.ReadField(v);
  }
}
