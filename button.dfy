/**
 * `Button`: a trigger carrying an integer id (0 by default).  The browser
 * renders it from `{"type": "button", "id": ...}`; the preferences keep only
 * the id.
 */
module Buttons {
  import opened Wrappers
  import opened JsonDoc
  import opened Machine

  datatype Button = Button(id: int)

  /** `Button()`. */
  function DefaultButton(): (b: Button)
    ensures b.id == 0
  {
    Button(0)
  }

  /** `writeOne` for a direct field: the bare id. */
  function WriteField(b: Button): Json {
    JNum(b.id)
  }

  /** `readOne` for a direct field: a missing or null value is refused, anything else is `as<int>()`. */
  function ReadField(b: Button, v: Json): (r: Outcome<Button>)
    ensures r.ok <==> !v.JNull?
    ensures !r.ok ==> r.value == b
    ensures r.ok ==> r.value == Button(AsInt(v))
  {
    if v.JNull? then Outcome(false, b) else Outcome(true, Button(AsInt(v)))
  }

  /** `TypeAdapter<Button>::write_ws`: what the browser sees. */
  function WriteWs(b: Button): (j: Json)
    ensures Get(j, "type") == JStr("button") && Get(j, "id") == JNum(b.id)
  {
    JObj(map["type" := JStr("button"), "id" := JNum(b.id)])
  }

  /** `TypeAdapter<Button>::write_prefs`: only the id. */
  function WritePrefs(b: Button): (j: Json)
    ensures j.JObj? && j.fields.Keys == {"id"} && Get(j, "id") == JNum(b.id)
  {
    JObj(map["id" := JNum(b.id)])
  }

  /** `TypeAdapter<Button>::read`: always succeeds; a missing or null `id` keeps the current one. */
  function ReadAdapter(b: Button, input: Json): (r: Outcome<Button>)
    ensures r.ok
    ensures Get(input, "id").JNull? ==> r.value == b
    ensures !Get(input, "id").JNull? ==> r.value == Button(AsInt(Get(input, "id")))
  {
    var v := Get(input, "id");
    if v.JNull? then Outcome(true, b) else Outcome(true, Button(AsInt(v)))
  }

  /** Both adapter outputs read back to the same button. */
  lemma AdapterRoundTrip(b: Button, target: Button)
    requires IsI32(b.id)
    ensures ReadAdapter(target, WriteWs(b)) == Outcome(true, b)
    ensures ReadAdapter(target, WritePrefs(b)) == Outcome(true, b)
  {
  }

  /** A field written by `writeOne` reads back through `readOne`. */
  lemma FieldRoundTrip(b: Button, target: Button)
    requires IsI32(b.id)
    ensures ReadField(target, WriteField(b)) == Outcome(true, b)
  {
  }
}
