/**
 * The schema-driven serializer: a model type lists its fields in a
 * `Schema`; `writeFields` / `writeFieldsPrefs` visit them in order and put
 * each one's JSON under its key, and `readFieldsStrict` /
 * `readFieldsTolerant` visit them in order and let each read its own key.
 *
 * An object of the model type is a value `O`; a field is described by what
 * its `writeOne`, `writeOnePrefs` and `readOne` overloads do to an `O`.
 * The constructors below build those descriptions for the three kinds of
 * field the serializer knows: a plain member, a `char[N]` member, and a
 * `Var` member.
 */
module Serializer {
  import opened Wrappers
  import opened JsonDoc
  import opened VarDispatch
  import opened VarIo

  /**
   * One entry of a schema.  `write` / `writePrefs` give what goes under
   * `key` (None: nothing); `read` receives `in[key]` (`JNull` when absent)
   * and returns its result and the updated object.
   */
  datatype Field<!O> = Field(
    key: string,
    write: O -> Option<Json>,
    writePrefs: O -> Option<Json>,
    read: (O, Json) -> Outcome<O>)

  /**
   * `Field<T, MemberT>` for a member that is not a `Var`: written as it is
   * (the same for preferences); read refuses null and otherwise converts.
   */
  function MemberField<O(!new), T>(key: string, get: O -> T, put: (O, T) -> O, plain: T -> Json, convert: Json -> T): (f: Field<O>)
    ensures f.key == key
    ensures forall o :: f.write(o) == Some(plain(get(o))) && f.writePrefs(o) == f.write(o)
    ensures forall o :: f.read(o, JNull) == Outcome(false, o)
    ensures forall o: O, v: Json :: !v.JNull? ==> f.read(o, v) == Outcome(true, put(o, convert(v)))
  {
    Field(key,
          o => Some(plain(get(o))),
          o => Some(plain(get(o))),
          (o: O, v: Json) => if v.JNull? then Outcome(false, o) else Outcome(true, put(o, convert(v))))
  }

  /**
   * `FieldStr<T, N>` for a `char[N]` member: written as the C string it
   * holds; read takes only text, copies at most `N - 1` characters and
   * terminates.
   */
  function TextField<O(!new)>(key: string, n: nat, get: O -> string, put: (O, string) -> O): (f: Field<O>)
    requires 0 < n
    ensures f.key == key
    ensures forall o :: f.write(o) == Some(JStr(CStr(get(o)))) && f.writePrefs(o) == f.write(o)
    ensures forall o: O, v: Json :: !v.JStr? ==> f.read(o, v) == Outcome(false, o)
    ensures forall o, s :: f.read(o, JStr(s)) == Outcome(true, put(o, Truncate(s, n - 1)))
  {
    Field(key,
          o => Some(JStr(CStr(get(o)))),
          o => Some(JStr(CStr(get(o)))),
          (o: O, v: Json) => if v.JStr? then Outcome(true, put(o, Truncate(v.s, n - 1))) else Outcome(false, o))
  }

  /**
   * `Field<T, Var<...>>`: the policy-aware `writeOne` / `writeOnePrefs` /
   * `readOne` of the `Var` layer, applied to the member `get` selects.
   */
  function VarField<O(!new), T>(key: string, get: O -> T, put: (O, T) -> O, ops: TypeOps<T>, pol: Policy): (f: Field<O>)
    ensures f.key == key
    ensures forall o :: f.write(o) == WriteOne(ops, pol, get(o)) && f.writePrefs(o) == WriteOnePrefs(ops, pol, get(o))
    ensures forall o: O, v: Json :: f.read(o, v).ok == ReadOne(ops, pol, get(o), v).ok
    ensures forall o: O, v: Json :: f.read(o, v).value == put(o, ReadOne(ops, pol, get(o), v).value)
  {
    Field(key,
          o => WriteOne(ops, pol, get(o)),
          o => WriteOnePrefs(ops, pol, get(o)),
          (o: O, v: Json) => var r := ReadOne(ops, pol, get(o), v); Outcome(r.ok, put(o, r.value)))
  }

  /** What one field contributes to `writeFields` (`prefs` false) or `writeFieldsPrefs` (`prefs` true). */
  function Emit<O>(f: Field<O>, o: O, prefs: bool): Option<Json> {
    if prefs then f.writePrefs(o) else f.write(o)
  }

  /**
   * `writeFields` / `writeFieldsPrefs`: the fields in schema order, each
   * setting its key in the output object (a later field with the same key
   * overwrites an earlier one).
   */
  function WriteWith<O>(o: O, fs: seq<Field<O>>, prefs: bool): map<string, Json>
    decreases |fs|
  {
    if |fs| == 0 then map[]
    else
      var m := WriteWith(o, fs[..|fs| - 1], prefs);
      var f := fs[|fs| - 1];
      var w := Emit(f, o, prefs);
      if w.Some? then m[f.key := w.value] else m
  }

  function WriteFields<O>(o: O, fs: seq<Field<O>>): map<string, Json> {
    WriteWith(o, fs, false)
  }

  function WriteFieldsPrefs<O>(o: O, fs: seq<Field<O>>): map<string, Json> {
    WriteWith(o, fs, true)
  }

  /** A key is in the output exactly when some field with that key writes something. */
  lemma {:induction false} WrittenKeys<O>(o: O, fs: seq<Field<O>>, prefs: bool, k: string)
    ensures k in WriteWith(o, fs, prefs) <==>
            exists i :: 0 <= i < |fs| && fs[i].key == k && Emit(fs[i], o, prefs).Some?
    decreases |fs|
  {
    if |fs| > 0 {
      var init := fs[..|fs| - 1];
      WrittenKeys(o, init, prefs, k);
      if k in WriteWith(o, fs, prefs) && k !in WriteWith(o, init, prefs) {
        assert fs[|fs| - 1].key == k && Emit(fs[|fs| - 1], o, prefs).Some?;
      }
      if exists i :: 0 <= i < |fs| && fs[i].key == k && Emit(fs[i], o, prefs).Some? {
        var i :| 0 <= i < |fs| && fs[i].key == k && Emit(fs[i], o, prefs).Some?;
        if i < |fs| - 1 {
          assert init[i] == fs[i];
        }
      }
    }
  }

  predicate DistinctKeys<O>(fs: seq<Field<O>>) {
    forall i, j :: 0 <= i < j < |fs| ==> fs[i].key != fs[j].key
  }

  /** With distinct keys, every field's output lands unaltered under its key. */
  lemma {:induction false} WrittenValue<O>(o: O, fs: seq<Field<O>>, prefs: bool, i: nat)
    requires DistinctKeys(fs) && i < |fs| && Emit(fs[i], o, prefs).Some?
    ensures fs[i].key in WriteWith(o, fs, prefs)
    ensures WriteWith(o, fs, prefs)[fs[i].key] == Emit(fs[i], o, prefs).value
    decreases |fs|
  {
    if i < |fs| - 1 {
      var init := fs[..|fs| - 1];
      assert init[i] == fs[i];
      WrittenValue(o, init, prefs, i);
      assert fs[|fs| - 1].key != fs[i].key;
    }
  }

  // ---------------------------------------------------------------------------
  // Reading
  // ---------------------------------------------------------------------------

  /** The state after reading the fields in order, and whether every `readOne` returned true. */
  function ReadAll<O>(o: O, fs: seq<Field<O>>, input: Json): (O, bool)
    decreases |fs|
  {
    if |fs| == 0 then (o, true)
    else
      var prev := ReadAll(o, fs[..|fs| - 1], input);
      var f := fs[|fs| - 1];
      var r := f.read(prev.0, Get(input, f.key));
      (r.value, r.ok && prev.1)
  }

  /** Whether field `i`'s `readOne`, applied to the state the fields before it left, returned true. */
  predicate FieldReadOk<O>(o: O, fs: seq<Field<O>>, input: Json, i: nat)
    requires i < |fs|
  {
    fs[i].read(ReadAll(o, fs[..i], input).0, Get(input, fs[i].key)).ok
  }

  /**
   * The strict reader's verdict is the conjunction of every field's: no
   * field is skipped after a failure, and one failure anywhere is enough.
   */
  lemma {:induction false} StrictOkIffAll<O>(o: O, fs: seq<Field<O>>, input: Json)
    ensures ReadAll(o, fs, input).1 <==> forall i :: 0 <= i < |fs| ==> FieldReadOk(o, fs, input, i)
    decreases |fs|
  {
    if |fs| > 0 {
      var init := fs[..|fs| - 1];
      StrictOkIffAll(o, init, input);
      forall i | 0 <= i < |init|
        ensures FieldReadOk(o, init, input, i) == FieldReadOk(o, fs, input, i)
      {
        assert init[..i] == fs[..i];
      }
      var last := fs[|fs| - 1];
      assert FieldReadOk(o, fs, input, |fs| - 1)
          == last.read(ReadAll(o, init, input).0, Get(input, last.key)).ok;
    }
  }

  /**
   * `readFieldsStrict`: reads every field in order, returns whether all of
   * them succeeded.
   */
  method ReadFieldsStrict<O>(o: O, fs: seq<Field<O>>, input: Json) returns (o': O, ok: bool)
    ensures (o', ok) == ReadAll(o, fs, input)
  {
    o', ok := o, true;
    var i := 0;
    while i < |fs|
      invariant 0 <= i <= |fs|
      invariant (o', ok) == ReadAll(o, fs[..i], input)
    {
      assert fs[..i + 1][..i] == fs[..i];
      var r := fs[i].read(o', Get(input, fs[i].key));
      ok := r.ok && ok;
      o' := r.value;
      i := i + 1;
    }
    assert fs[..|fs|] == fs;
  }

  /**
   * `readFieldsTolerant`: reads every field in order like the strict
   * reader, so leaves the same state, and returns true whatever happened.
   */
  method ReadFieldsTolerant<O>(o: O, fs: seq<Field<O>>, input: Json) returns (o': O, ok: bool)
    ensures o' == ReadAll(o, fs, input).0 && ok
  {
    o' := o;
    var i := 0;
    while i < |fs|
      invariant 0 <= i <= |fs|
      invariant o' == ReadAll(o, fs[..i], input).0
    {
      assert fs[..i + 1][..i] == fs[..i];
      var r := fs[i].read(o', Get(input, fs[i].key));
      o' := r.value;
      i := i + 1;
    }
    assert fs[..|fs|] == fs;
    ok := true;
  }

  /** A field that refuses a missing key and leaves the object alone. */
  ghost predicate RefusesMissing<O(!new)>(f: Field<O>) {
    forall o :: f.read(o, JNull) == Outcome(false, o)
  }

  /**
   * Reading an input that has none of the keys leaves the object as it
   * was; the strict reader fails as soon as there is one such field.
   */
  lemma {:induction false} NothingToRead<O(!new)>(o: O, fs: seq<Field<O>>, input: Json)
    requires forall i :: 0 <= i < |fs| ==> RefusesMissing(fs[i]) && Get(input, fs[i].key) == JNull
    ensures ReadAll(o, fs, input) == (o, |fs| == 0)
    decreases |fs|
  {
    if |fs| > 0 {
      var init := fs[..|fs| - 1];
      assert forall i :: 0 <= i < |init| ==> init[i] == fs[i];
      NothingToRead(o, init, input);
      assert RefusesMissing(fs[|fs| - 1]);
    }
  }

  /** Members and `char[N]` fields refuse a missing key; so does a writable `Var`. */
  lemma MissingKeyRefused<O(!new), T>(key: string, get: O -> T, put: (O, T) -> O, ops: TypeOps<T>, pol: Policy,
                                 gs: O -> string, ps: (O, string) -> O, n: nat)
    requires 0 < n && pol.write == WriteOn
    requires forall o :: put(o, get(o)) == o
    ensures RefusesMissing(TextField(key, n, gs, ps))
    ensures RefusesMissing(VarField(key, get, put, ops, pol))
  {
    var f := VarField(key, get, put, ops, pol);
    forall o
      ensures f.read(o, JNull) == Outcome(false, o)
    {
      WritableRefusesNull(ops, pol, get(o));
    }
  }

  /** A read-only `Var` field accepts a missing key, and refuses (without change) a present one. */
  lemma ReadOnlyFieldVerdict<O(!new), T>(key: string, get: O -> T, put: (O, T) -> O, ops: TypeOps<T>, pol: Policy, o: O, v: Json)
    requires pol.write == WriteOff
    requires forall o :: put(o, get(o)) == o
    ensures VarField(key, get, put, ops, pol).read(o, v) == Outcome(v.JNull?, o)
  {
    ReadOnlyNeverChanges(ops, pol, get(o), v);
  }

  /**
   * A `char[N]` field reads back what it wrote when the text fits in
   * `N - 1` characters.
   */
  lemma TextFieldRoundTrip<O(!new)>(key: string, n: nat, get: O -> string, put: (O, string) -> O, src: O, dst: O)
    requires 0 < n && PlainText(get(src)) && |get(src)| <= n - 1
    ensures TextField(key, n, get, put).write(src) == Some(JStr(get(src)))
    ensures TextField(key, n, get, put).read(dst, JStr(get(src))) == Outcome(true, put(dst, get(src)))
  {
    CStrOfPlain(get(src));
    TruncateKeepsFitting(get(src), n - 1);
  }

  /**
   * `from_json(json, obj, strict)`: `doc` is the parsed document (None when
   * `deserializeJson` fails, which leaves the object alone and returns
   * false); the fields are then read strictly or tolerantly.
   */
  function FromJson<O>(doc: Option<Json>, o: O, fs: seq<Field<O>>, strict: bool): (r: (O, bool))
    ensures doc.None? ==> r == (o, false)
    ensures doc.Some? ==> r.0 == ReadAll(o, fs, doc.value).0
    ensures doc.Some? && !strict ==> r.1
  {
    if doc.None? then (o, false)
    else
      var p := ReadAll(o, fs, doc.value);
      if strict then p else (p.0, true)
  }

  // ---------------------------------------------------------------------------
  // The default TypeAdapter
  // ---------------------------------------------------------------------------

  /**
   * A model type as its `TypeAdapter` sees it: its schema, and the
   * `write_ws` / `write_prefs` a specialisation may add.
   */
  datatype SchemaType<!O> = SchemaType(
    fields: seq<Field<O>>,
    hasWriteWs: bool, customWs: O -> map<string, Json>,
    hasWritePrefs: bool, customPrefs: O -> map<string, Json>)

  /** `TypeAdapter<T>::defaultPersist()` / `defaultWsSend()` of the primary template. */
  const DefaultPersist := true
  const DefaultWsSend := true

  /** The primary `TypeAdapter<T>::read`: the strict or the tolerant field reader. */
  function AdapterRead<O>(t: SchemaType<O>, o: O, input: Json, strict: bool): (r: Outcome<O>)
    ensures r.value == ReadAll(o, t.fields, input).0
    ensures strict ==> r.ok == ReadAll(o, t.fields, input).1
    ensures !strict ==> r.ok
  {
    var p := ReadAll(o, t.fields, input);
    Outcome(if strict then p.1 else true, p.0)
  }

  /** `write_ws(obj, out)`: the specialisation's `write_ws`, else `TypeAdapter<T>::write` (= `writeFields`). */
  function WriteWs<O>(t: SchemaType<O>, o: O): (r: map<string, Json>)
    ensures t.hasWriteWs ==> r == t.customWs(o)
    ensures !t.hasWriteWs ==> r == WriteFields(o, t.fields)
  {
    if t.hasWriteWs then t.customWs(o) else WriteFields(o, t.fields)
  }

  /**
   * `write_prefs(obj, out)`: the specialisation's `write_prefs`, else
   * `TypeAdapter<T>::write`, which is `writeFields` and not
   * `writeFieldsPrefs`.
   */
  function WritePrefs<O>(t: SchemaType<O>, o: O): (r: map<string, Json>)
    ensures t.hasWritePrefs ==> r == t.customPrefs(o)
    ensures !t.hasWritePrefs ==> r == WriteFields(o, t.fields)
  {
    if t.hasWritePrefs then t.customPrefs(o) else WriteFields(o, t.fields)
  }

  /**
   * Without a `write_prefs` specialisation, a `Var` field marked
   * `PrefsMode::Off` still reaches the preferences output through
   * `write_prefs`, although `writeFieldsPrefs` leaves it out.
   */
  lemma PrefsFallbackKeepsTransientVars<O(!new), T>(t: SchemaType<O>, o: O, i: nat,
                                               get: O -> T, put: (O, T) -> O, ops: TypeOps<T>, pol: Policy)
    requires !t.hasWritePrefs && DistinctKeys(t.fields) && i < |t.fields|
    requires t.fields[i] == VarField(t.fields[i].key, get, put, ops, pol)
    requires pol.ws == WsValue && pol.prefs == PrefsOff
    ensures t.fields[i].key in WritePrefs(t, o)
    ensures WritePrefs(t, o)[t.fields[i].key] == WriteValue(ops, get(o))
    ensures t.fields[i].key !in WriteFieldsPrefs(o, t.fields)
  {
    WrittenValue(o, t.fields, false, i);
    var k := t.fields[i].key;
    WrittenKeys(o, t.fields, true, k);
    forall j | 0 <= j < |t.fields| && t.fields[j].key == k
      ensures Emit(t.fields[j], o, true).None?
    {
      assert j == i;
    }
  }
}
