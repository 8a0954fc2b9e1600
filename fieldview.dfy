/**
 * How the dashboard reads one field of a topic and what a row of the card
 * shows for it: the classification of the raw payload, the kind of row it
 * wants, the row's new contents after a render, and what the row submits.
 */
module FieldView {
  import opened Wrappers
  import opened JsonDoc
  import opened JsValue
  import Selectors

  datatype Kind = KList | KButton | KString | KBool | KNumber

  /** What `unwrapField` returns: the kind, the value to show and the innermost raw payload. */
  datatype FieldInfo = FieldInfo(kind: Kind, value: Json, raw: Json)

  /** A value that is not a recognised wrapper object, classified by its JavaScript type. */
  function Classify(raw: Json): (r: FieldInfo)
    ensures r.raw == raw
  {
    match raw
    case JArr(_) => FieldInfo(KList, raw, raw)
    case JBool(_) => FieldInfo(KBool, raw, raw)
    case JNum(_) => FieldInfo(KNumber, raw, raw)
    case JNull => FieldInfo(KString, JStr(""), raw)
    case _ => FieldInfo(KString, JStr(JsString(raw)), raw)
  }

  predicate HasItemsArray(m: map<string, Json>) {
    "items" in m && m["items"].JArr?
  }

  predicate IsTyped(m: map<string, Json>, t: string) {
    "type" in m && m["type"] == JStr(t)
  }

  /**
   * `unwrapField(raw)`: an object is a list when its `items` is an array, a
   * button when its `type` is "button" (the value is its `id`), a secret
   * string shown as "" when its `type` is "secret", and is unwrapped when it
   * has a `value`; anything else is classified by type, null and undefined
   * becoming "".
   */
  function UnwrapField(raw: Json): (r: FieldInfo)
    decreases raw
    ensures r.kind == KList ==> r.value.JArr?
    ensures r.kind == KBool ==> r.value.JBool?
    ensures r.kind == KNumber ==> r.value.JNum?
    ensures r.kind == KString ==> r.value.JStr?
  {
    if raw.JObj? then
      var m := raw.fields;
      if HasItemsArray(m) then FieldInfo(KList, m["items"], raw)
      else if IsTyped(m, "button") then FieldInfo(KButton, Prop(raw, "id"), raw)
      else if IsTyped(m, "secret") then FieldInfo(KString, JStr(""), raw)
      else if "value" in m then UnwrapField(m["value"])
      else Classify(raw)
    else Classify(raw)
  }

  /** An object `unwrapField` looks through: one with a `value` and none of the markers before it. */
  predicate IsValueWrapper(raw: Json) {
    raw.JObj? && !HasItemsArray(raw.fields) && !IsTyped(raw.fields, "button")
    && !IsTyped(raw.fields, "secret") && "value" in raw.fields
  }

  /** The payload under all `value` wrappers. */
  function Peel(raw: Json): (r: Json)
    decreases raw
    ensures !IsValueWrapper(r)
  {
    if IsValueWrapper(raw) then Peel(raw.fields["value"]) else raw
  }

  /** A payload that is not a wrapper is read in one step, first matching rule winning. */
  function ClassifyMarked(raw: Json): FieldInfo
    requires !IsValueWrapper(raw)
  {
    if raw.JObj? && HasItemsArray(raw.fields) then FieldInfo(KList, raw.fields["items"], raw)
    else if raw.JObj? && IsTyped(raw.fields, "button") then FieldInfo(KButton, Prop(raw, "id"), raw)
    else if raw.JObj? && IsTyped(raw.fields, "secret") then FieldInfo(KString, JStr(""), raw)
    else Classify(raw)
  }

  /** Unwrapping is peeling the wrappers off and then classifying what is left. */
  lemma {:induction false} UnwrapIsPeelThenClassify(raw: Json)
    ensures UnwrapField(raw) == ClassifyMarked(Peel(raw))
    ensures UnwrapField(raw).raw == Peel(raw)
    decreases raw
  {
    if IsValueWrapper(raw) {
      UnwrapIsPeelThenClassify(raw.fields["value"]);
    }
  }

  /** A `{value: v}` wrapper is transparent. */
  lemma UnwrapWrapper(v: Json)
    ensures UnwrapField(JObj(map["value" := v])) == UnwrapField(v)
  {
    assert IsValueWrapper(JObj(map["value" := v]));
  }

  /** A secret is shown as an empty text field whatever else the object carries. */
  lemma UnwrapSecretShowsNothing(m: map<string, Json>)
    requires IsTyped(m, "secret") && !HasItemsArray(m)
    ensures UnwrapField(JObj(m)).kind == KString && UnwrapField(JObj(m)).value == JStr("")
  {
  }

  // ---------------------------------------------------------------------------
  // Row kinds
  // ---------------------------------------------------------------------------

  datatype RowKind = RList | RButton | RString | RBool | RNumber | RGraph

  function RowKindOf(k: Kind): RowKind {
    match k
    case KList => RList
    case KButton => RButton
    case KString => RString
    case KBool => RBool
    case KNumber => RNumber
  }

  function LowerAscii(s: string): (r: string)
    ensures |r| == |s|
    ensures forall i :: 0 <= i < |s| ==> r[i] == if 'A' <= s[i] <= 'Z' then (s[i] as int + 32) as char else s[i]
  {
    if |s| == 0 then "" else [if 'A' <= s[0] <= 'Z' then (s[0] as int + 32) as char else s[0]] + LowerAscii(s[1..])
  }

  predicate OccursAt(s: string, sub: string, i: int) {
    0 <= i <= |s| - |sub| && s[i..i + |sub|] == sub
  }

  /** `s.includes(sub)`. */
  predicate Contains(s: string, sub: string) {
    exists i :: 0 <= i <= |s| && OccursAt(s, sub, i)
  }

  predicate IsButtonKey(key: string) {
    Contains(LowerAscii(key), "button")
  }

  /** The row a field wants: a button for a button field or a key mentioning "button", else its own kind. */
  function DesiredKind(key: string, k: Kind): (r: RowKind)
    ensures r == RButton <==> k == KButton || IsButtonKey(key)
    ensures r != RButton ==> r == RowKindOf(k)
    ensures r != RGraph
  {
    if k == KButton || IsButtonKey(key) then RButton else RowKindOf(k)
  }

  // ---------------------------------------------------------------------------
  // What a row shows
  // ---------------------------------------------------------------------------

  /**
   * The rendered state of a row: its kind is implied by the constructor; an
   * input row holds the text of its `<input>`, a graph row the identity of
   * its chart host element.
   */
  datatype RowView =
    | ButtonRow(caption: string)
    | ListRow(name: string, items: seq<string>)
    | BoolRow(name: string, checked: bool)
    | InputRow(number: bool, name: string, text: string)
    | GraphRow(name: string, host: nat)

  function KindOfRow(v: RowView): RowKind {
    match v
    case ButtonRow(_) => RButton
    case ListRow(_, _) => RList
    case BoolRow(_, _) => RBool
    case InputRow(number, _, _) => if number then RNumber else RString
    case GraphRow(_, _) => RGraph
  }

  /** The caption of a button row: a play sign and the key with underscores as spaces. */
  function ButtonCaption(key: string): string {
    "\U{25B6} " + Selectors.ReplaceChar(key, '_', " ")
  }

  /** `li.textContent = item`: null reads as nothing, everything else as `String(item)`. */
  function ItemText(j: Json): string {
    if j.JNull? then "" else JsString(j)
  }

  function ItemTexts(items: seq<Json>): (r: seq<string>)
    ensures |r| == |items|
    ensures forall i :: 0 <= i < |items| ==> r[i] == ItemText(items[i])
  {
    seq(|items|, i requires 0 <= i < |items| => ItemText(items[i]))
  }

  // ---------------------------------------------------------------------------
  // What an `<input>` keeps of the value it is given
  // ---------------------------------------------------------------------------

  predicate IsLineBreak(c: char) {
    c == '\n' || c == '\r'
  }

  predicate NoLineBreaks(s: string) {
    forall i :: 0 <= i < |s| ==> !IsLineBreak(s[i])
  }

  /** The value of a text input set to `s`: every CR and LF removed, the rest kept in order. */
  function StripNewlines(s: string): (r: string)
    ensures |r| <= |s| && NoLineBreaks(r)
    ensures forall c :: c in r <==> c in s && !IsLineBreak(c)
    ensures NoLineBreaks(s) ==> r == s
  {
    if |s| == 0 then ""
    else if IsLineBreak(s[0]) then StripNewlines(s[1..])
    else [s[0]] + StripNewlines(s[1..])
  }

  /** An exponent part: nothing, or `e`/`E`, an optional sign and one or more digits. */
  predicate ValidExponent(s: string) {
    |s| == 0
    || ((s[0] == 'e' || s[0] == 'E')
        && var t := if 1 < |s| && (s[1] == '+' || s[1] == '-') then s[2..] else s[1..];
        0 < |t| && AllDigits(t))
  }

  /**
   * A valid floating-point number of HTML: an optional `-`, then digits, a
   * `.` with digits, or both, then an optional exponent part.
   */
  predicate ValidFloatText(s: string) {
    var u := if 0 < |s| && s[0] == '-' then s[1..] else s;
    var a := DigitRun(u);
    var rest := u[|a|..];
    if 0 < |rest| && rest[0] == '.' then
      var b := DigitRun(rest[1..]);
      0 < |b| && ValidExponent(rest[1..][|b|..])
    else
      0 < |a| && ValidExponent(rest)
  }

  /**
   * The value an `<input>` holds once set to `s`, by the browser's value
   * sanitization: a text input drops line breaks, a number input keeps a
   * valid floating-point number and is empty otherwise.
   */
  function InputValue(number: bool, s: string): (r: string)
    ensures !number ==> NoLineBreaks(r) && |r| <= |s|
    ensures number ==> r == s || r == ""
    ensures number ==> (r == s <==> ValidFloatText(s) || s == "")
  {
    if !number then StripNewlines(s)
    else if ValidFloatText(s) then s
    else ""
  }

  /** Setting an input to its own value changes nothing. */
  lemma InputValueIdempotent(number: bool, s: string)
    ensures InputValue(number, InputValue(number, s)) == InputValue(number, s)
  {
  }

  /** A number input keeps every integer `String(n)` printed into it. */
  lemma PrintedNumberKept(n: int)
    ensures ValidFloatText(IntToDecimal(n))
    ensures InputValue(true, IntToDecimal(n)) == IntToDecimal(n)
  {
    var m: nat := if n < 0 then -n else n;
    var d := NatToDecimal(m);
    DigitRunOfDigits(d);
    assert IsDigit(d[0]);
    if n < 0 {
      assert IntToDecimal(n)[1..] == d;
    } else {
      assert IntToDecimal(n) == d;
    }
  }

  /**
   * `updateRow`: the row is emptied and rebuilt when its kind differs from the
   * desired one; a checkbox or input then shows the server's value unless the
   * operator is editing the field, in which case it keeps what it shows (a
   * rebuilt one starts unchecked and empty).  An input shows the server's
   * value as the browser keeps it (`InputValue`).
   */
  function UpdateRowView(prev: Option<RowView>, key: string, info: FieldInfo, editing: bool): (r: RowView)
    ensures KindOfRow(r) == DesiredKind(key, info.kind)
  {
    var want := DesiredKind(key, info.kind);
    var kept := prev.Some? && KindOfRow(prev.value) == want;
    if want == RButton then ButtonRow(ButtonCaption(key))
    else if want == RList then ListRow(key, if info.value.JArr? then ItemTexts(info.value.items) else [])
    else if want == RBool then
      BoolRow(key, if !editing then Truthy(info.value) else if kept then prev.value.checked else false)
    else
      InputRow(want == RNumber, key,
               if !editing then InputValue(want == RNumber, JsString(info.value))
               else if kept then prev.value.text else "")
  }

  /** The value a row shows to the operator, where it has one. */
  function ShownValue(v: RowView): Option<Json> {
    match v
    case BoolRow(_, checked) => Some(JBool(checked))
    case InputRow(_, _, text) => Some(JStr(text))
    case _ => None
  }

  /** While the operator edits a field, a render leaves what its row shows alone. */
  lemma EditedRowKeepsValue(prev: RowView, key: string, info: FieldInfo)
    requires KindOfRow(prev) == DesiredKind(key, info.kind)
    ensures ShownValue(UpdateRowView(Some(prev), key, info, true)) == ShownValue(prev)
  {
  }

  /**
   * A field nobody edits shows the server's value after the render, whatever
   * the row held before; a text field shows it without line breaks.
   */
  lemma CleanRowShowsServer(prev: Option<RowView>, key: string, raw: Json)
    requires !IsButtonKey(key)
    ensures var info := UnwrapField(raw);
      info.kind == KBool ==> ShownValue(UpdateRowView(prev, key, info, false)) == Some(info.value)
    ensures var info := UnwrapField(raw);
      info.kind == KString ==> ShownValue(UpdateRowView(prev, key, info, false)) == Some(JStr(StripNewlines(info.value.s)))
    ensures var info := UnwrapField(raw);
      info.kind == KNumber ==>
        ShownValue(UpdateRowView(prev, key, info, false)) == Some(JStr(IntToDecimal(info.value.n)))
  {
    var info := UnwrapField(raw);
    var row := UpdateRowView(prev, key, info, false);
    if info.kind == KNumber {
      PrintedNumberKept(info.value.n);
      assert row == InputRow(true, key, IntToDecimal(info.value.n));
    } else if info.kind == KString {
      assert row == InputRow(false, key, StripNewlines(info.value.s));
    } else if info.kind == KBool {
      assert row == BoolRow(key, info.value.b);
    }
  }

  /** A row whose kind changes is rebuilt: nothing of the prev row survives. */
  lemma RebuildForgetsOldRow(prev: RowView, key: string, info: FieldInfo, editing: bool)
    requires KindOfRow(prev) != DesiredKind(key, info.kind)
    ensures UpdateRowView(Some(prev), key, info, editing) == UpdateRowView(None, key, info, editing)
  {
  }

  // ---------------------------------------------------------------------------
  // What a card submits
  // ---------------------------------------------------------------------------

  /**
   * The payload entry of one `[data-field]` element: a checkbox sends its
   * state, a number input `parseFloat` of its text (0 for NaN), a text input
   * its text.  Button, list and graph rows have no such element.
   */
  function PayloadEntry(v: RowView): Option<Json> {
    match v
    case BoolRow(_, checked) => Some(JBool(checked))
    case InputRow(number, _, text) =>
      Some(if number then JNum(ParseFloatPrefix(text).GetOr(0)) else JStr(text))
    case _ => None
  }

  function Payload(rows: map<string, RowView>): (p: map<string, Json>)
    ensures forall k :: k in p <==> k in rows && PayloadEntry(rows[k]).Some?
    ensures forall k :: k in p ==> p[k] == PayloadEntry(rows[k]).value
  {
    map k | k in rows && PayloadEntry(rows[k]).Some? :: PayloadEntry(rows[k]).value
  }

  /** What an unedited row sends for a field: the server's value, a text without its line breaks. */
  function Resubmitted(info: FieldInfo): Json
    requires info.kind == KString ==> info.value.JStr?
  {
    if info.kind == KString then JStr(StripNewlines(info.value.s)) else info.value
  }

  /**
   * Saving a card nobody has edited sends back what the server sent for each
   * checkbox and number field, and each text field without its line breaks.
   */
  lemma UntouchedRowSubmitsServerValue(prev: Option<RowView>, key: string, raw: Json)
    requires UnwrapField(raw).kind in {KBool, KNumber, KString}
    requires !IsButtonKey(key)
    ensures PayloadEntry(UpdateRowView(prev, key, UnwrapField(raw), false)) == Some(Resubmitted(UnwrapField(raw)))
    ensures UnwrapField(raw).kind == KString && NoLineBreaks(UnwrapField(raw).value.s) ==>
              PayloadEntry(UpdateRowView(prev, key, UnwrapField(raw), false)) == Some(UnwrapField(raw).value)
    ensures UnwrapField(raw).kind != KString ==>
              PayloadEntry(UpdateRowView(prev, key, UnwrapField(raw), false)) == Some(UnwrapField(raw).value)
  {
    var info := UnwrapField(raw);
    SubmitsShownValue(prev, key, info);
  }

  lemma SubmitsShownValue(prev: Option<RowView>, key: string, info: FieldInfo)
    requires info.kind in {KBool, KNumber, KString}
    requires info.kind == KBool ==> info.value.JBool?
    requires info.kind == KNumber ==> info.value.JNum?
    requires info.kind == KString ==> info.value.JStr?
    requires !IsButtonKey(key)
    ensures PayloadEntry(UpdateRowView(prev, key, info, false)) == Some(Resubmitted(info))
  {
    var row := UpdateRowView(prev, key, info, false);
    if info.kind == KNumber {
      PrintedNumberKept(info.value.n);
      assert row == InputRow(true, key, IntToDecimal(info.value.n));
      ParseFloatOfPrinted(info.value.n);
    } else if info.kind == KBool {
      assert row == BoolRow(key, info.value.b);
    } else {
      assert row == InputRow(false, key, StripNewlines(info.value.s));
    }
  }

  /** An unedited text field holding `"a\nb"` is saved back as `"ab"`. */
  lemma SavedTextLosesLineBreaks()
    ensures PayloadEntry(UpdateRowView(None, "note", UnwrapField(JStr("a\nb")), false)) == Some(JStr("ab"))
  {
    var info := UnwrapField(JStr("a\nb"));
    assert info == FieldInfo(KString, JStr("a\nb"), JStr("a\nb"));
    ShortKeyIsNoButtonKey("note");
    SubmitsShownValue(None, "note", info);
    StrippedSample();
  }

  lemma ShortKeyIsNoButtonKey(key: string)
    requires |key| < |"button"|
    ensures !IsButtonKey(key)
  {
    assert |LowerAscii(key)| == |key|;
  }

  lemma StrippedSample()
    ensures StripNewlines("a\nb") == "ab"
  {
    assert StripNewlines("\nb") == StripNewlines("b");
  }

  /** A number input given text that is no number is empty, and its row submits 0. */
  lemma NonNumberSubmitsZero(key: string, typed: string)
    requires !ValidFloatText(typed)
    ensures InputValue(true, typed) == ""
    ensures PayloadEntry(InputRow(true, key, InputValue(true, typed))) == Some(JNum(0))
  {
    assert DigitRun("") == "";
  }
}
