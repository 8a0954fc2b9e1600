/**
 * `ModelBase`: the registry of topics a device model exposes, their
 * persistence in the Preferences store, and the WebSocket protocol that
 * reads and updates them.
 *
 * Each registered topic is an `Entry`: its name, whether it is persisted
 * and sent over the WebSocket, and its `TopicKind`, the three functions
 * `TypeAdapter<T>` provides for the topic's type (`write_ws`,
 * `write_prefs`, `read`).  The topic objects themselves are values held in
 * `objs`, one per entry.  The Preferences namespace is a map from topic
 * name to what is stored under it; the JSON text itself is not modelled,
 * only the document it holds (`JsonText`), an empty string (`EmptyText`),
 * or text that does not parse (`Garbage`).  What the device sends (replies
 * to one client, broadcasts to all) and the hooks it calls are recorded in
 * `events`, in order.
 */
module Topics {
  import opened Wrappers
  import opened JsonDoc
  import Serializer

  /** `MAX_TOPICS`. */
  const MaxTopics: nat := 16

  /** What `TypeAdapter<T>` and `T` itself provide for a topic type. */
  datatype TopicKind<!S> = TopicKind(
    defaultPersist: bool,                      // TypeAdapter<T>::defaultPersist()
    defaultWsSend: bool,                       // TypeAdapter<T>::defaultWsSend()
    hasSaveCallback: bool,                     // T::setSaveCallback exists
    writeWs: S -> map<string, Json>,           // fj::write_ws
    writePrefs: S -> map<string, Json>,        // fj::write_prefs
    read: (S, Json, bool) -> Outcome<S>)       // TypeAdapter<T>::read(obj, root, strict)

  /** The kind of a topic type served by the primary `TypeAdapter` template. */
  function SchemaKind<S(!new)>(t: Serializer.SchemaType<S>, hasSaveCallback: bool): (k: TopicKind<S>)
    ensures k.defaultPersist && k.defaultWsSend && k.hasSaveCallback == hasSaveCallback
    ensures forall o :: k.writeWs(o) == Serializer.WriteWs(t, o) && k.writePrefs(o) == Serializer.WritePrefs(t, o)
    ensures forall o: S, j: Json, strict: bool :: k.read(o, j, strict) == Serializer.AdapterRead(t, o, j, strict)
  {
    TopicKind(Serializer.DefaultPersist, Serializer.DefaultWsSend, hasSaveCallback,
              o => Serializer.WriteWs(t, o), o => Serializer.WritePrefs(t, o),
              (o: S, j: Json, strict: bool) => Serializer.AdapterRead(t, o, j, strict))
  }

  /** One slot of `entries_`; `hooked` records that a save callback was attached to the object. */
  datatype Entry<!S> = Entry(topic: string, persist: bool, wsSend: bool, hooked: bool, kind: TopicKind<S>)

  /** `find(topic)`: the index of the first entry with that name. */
  function FirstIndex<S>(entries: seq<Entry<S>>, topic: string): (r: Option<nat>)
    ensures r.Some? ==> r.value < |entries| && entries[r.value].topic == topic
    ensures r.Some? ==> forall j :: 0 <= j < r.value ==> entries[j].topic != topic
    ensures r.None? <==> forall j :: 0 <= j < |entries| ==> entries[j].topic != topic
    decreases |entries|
  {
    if |entries| == 0 then None
    else if entries[0].topic == topic then Some(0)
    else
      match FirstIndex(entries[1..], topic)
      case None => None
      case Some(k) => Some(k + 1)
  }

  /** What the Preferences namespace holds under a topic key. */
  datatype Stored = EmptyText | JsonText(doc: Json) | Garbage

  datatype Reply = ReplyOk | ReplyError(code: string)

  datatype Event =
    | Replied(reply: Reply)             // client->text(...)
    | Broadcast(envelope: Json)         // ws_.textAll(envelope)
    | Saved(topic: string, ok: bool)    // prefs_.putString(topic, ...) and whether it wrote
    | Updated(topic: string)            // on_update(topic)
    | ButtonPressed(topic: string, button: string)  // handleButtonTrigger(client, topic, button)

  /** `makeEnvelope(e)`: `{"topic": name, "data": write_ws(obj)}`. */
  function Envelope<S>(e: Entry<S>, obj: S): Json {
    JObj(map["topic" := JStr(e.topic), "data" := JObj(e.kind.writeWs(obj))])
  }

  /** `makeDataOnlyJson(e)`: the object `write_prefs` produces. */
  function PrefsDoc<S>(e: Entry<S>, obj: S): Json {
    JObj(e.kind.writePrefs(obj))
  }

  // ---------------------------------------------------------------------------
  // Persistence, as functions of the store
  // ---------------------------------------------------------------------------

  /**
   * `saveEntry(e)`: a topic that is not persisted is not written (and
   * counts as saved); otherwise its `write_prefs` document is stored, and the
   * result says whether `putString` wrote anything (`nvsOk`).
   */
  function SaveStep<S>(e: Entry<S>, obj: S, store: map<string, Stored>, nvsOk: bool): (r: (map<string, Stored>, bool))
    ensures !e.persist ==> r == (store, true)
    ensures e.persist && nvsOk ==> r == (store[e.topic := JsonText(PrefsDoc(e, obj))], true)
    ensures e.persist && !nvsOk ==> r == (store, false)
  {
    if !e.persist then (store, true)
    else if nvsOk then (store[e.topic := JsonText(PrefsDoc(e, obj))], true)
    else (store, false)
  }

  /**
   * `loadEntry(e)`: a topic that is not persisted is left alone (true); a
   * missing key is initialised from the object (`saveEntry`); an empty
   * stored string fails; otherwise the stored document is applied
   * tolerantly (text that does not parse fails).
   */
  function LoadStep<S>(e: Entry<S>, obj: S, store: map<string, Stored>, nvsOk: bool): (r: (S, map<string, Stored>, bool))
    ensures !e.persist ==> r == (obj, store, true)
    ensures e.persist && e.topic !in store ==> r == (obj, SaveStep(e, obj, store, nvsOk).0, nvsOk)
    ensures e.persist && e.topic in store && !store[e.topic].JsonText? ==> r == (obj, store, false)
    ensures e.persist && e.topic in store && store[e.topic].JsonText? ==>
              r == (e.kind.read(obj, store[e.topic].doc, false).value, store, e.kind.read(obj, store[e.topic].doc, false).ok)
  {
    if !e.persist then (obj, store, true)
    else if e.topic !in store then
      var s := SaveStep(e, obj, store, nvsOk);
      (obj, s.0, s.1)
    else
      match store[e.topic]
      case EmptyText => (obj, store, false)
      case Garbage => (obj, store, false)
      case JsonText(doc) =>
        var r := e.kind.read(obj, doc, false);
        (r.value, store, r.ok)
  }

  /** `loadOrInitAll()` over the first `n` entries: the objects and the store afterwards. */
  function LoadAll<S>(entries: seq<Entry<S>>, objs: seq<S>, store: map<string, Stored>, nvsOk: bool, n: nat): (r: (seq<S>, map<string, Stored>))
    requires |entries| == |objs| && n <= |entries|
    ensures |r.0| == |objs|
    decreases n
  {
    if n == 0 then (objs, store)
    else
      var prev := LoadAll(entries, objs, store, nvsOk, n - 1);
      var step := LoadStep(entries[n - 1], prev.0[n - 1], prev.1, nvsOk);
      (prev.0[n - 1 := step.0], step.1)
  }

  /** Whether one of the first `n` entries persists under `key`. */
  predicate PersistsUnder<S>(entries: seq<Entry<S>>, n: nat, key: string)
    requires n <= |entries|
  {
    exists i :: 0 <= i < n && entries[i].persist && entries[i].topic == key
  }

  /** Loading never writes a key that no persisted topic owns. */
  lemma {:induction false} LoadAllTouchesOnlyPersisted<S>(entries: seq<Entry<S>>, objs: seq<S>, store: map<string, Stored>,
                                                          nvsOk: bool, n: nat, key: string)
    requires |entries| == |objs| && n <= |entries| && !PersistsUnder(entries, n, key)
    ensures key in LoadAll(entries, objs, store, nvsOk, n).1 <==> key in store
    ensures key in store ==> LoadAll(entries, objs, store, nvsOk, n).1[key] == store[key]
    decreases n
  {
    if n > 0 {
      LoadAllTouchesOnlyPersisted(entries, objs, store, nvsOk, n - 1, key);
    }
  }

  /**
   * When the store accepts writes, every persisted topic has a key after
   * loading: missing ones were initialised from the objects.
   */
  lemma {:induction false} LoadAllInitialisesKeys<S>(entries: seq<Entry<S>>, objs: seq<S>, store: map<string, Stored>,
                                                     nvsOk: bool, n: nat, key: string)
    requires |entries| == |objs| && n <= |entries| && nvsOk
    requires PersistsUnder(entries, n, key) || key in store
    ensures key in LoadAll(entries, objs, store, nvsOk, n).1
    decreases n
  {
    if n > 0 {
      var prev := LoadAll(entries, objs, store, nvsOk, n - 1);
      if PersistsUnder(entries, n - 1, key) || key in store {
        LoadAllInitialisesKeys(entries, objs, store, nvsOk, n - 1, key);
      } else {
        LoadAllTouchesOnlyPersisted(entries, objs, store, nvsOk, n - 1, key);
        assert entries[n - 1].topic == key && entries[n - 1].persist;
      }
    }
  }

  // ---------------------------------------------------------------------------
  // The WebSocket message cascade
  // ---------------------------------------------------------------------------

  /** How `handleIncoming` classifies a message before looking up the topic. */
  datatype Verdict =
    | EmptyMessage
    | InvalidJson
    | MissingTopicOrButton
    | ButtonTrigger(topic: string, button: string)
    | MissingTopicOrData
    | Update(topic: string, data: Json)

  /** `doc[key]` read as `const char*`: text up to its first NUL, null for anything else. */
  function TextAt(doc: Json, key: string): (r: Option<string>)
    ensures r.Some? <==> Get(doc, key).JStr?
    ensures r.Some? ==> r.value == CStr(Get(doc, key).s)
  {
    match AsCStr(Get(doc, key))
    case Some(t) => Some(CStr(t))
    case None => None
  }

  /**
   * The guards of `handleIncoming`, in order.  `len` is the message length
   * (a null message has length 0) and `parsed` the document (None when
   * `deserializeJson` fails).
   */
  function Classify(len: nat, parsed: Option<Json>): (v: Verdict)
    ensures (v == EmptyMessage) <==> len == 0
    ensures (v == InvalidJson) <==> len > 0 && parsed.None?
    ensures v.ButtonTrigger? || v == MissingTopicOrButton <==>
              len > 0 && parsed.Some? && TextAt(parsed.value, "action") == Some("button_trigger")
    ensures v.ButtonTrigger? ==> Some(v.topic) == TextAt(parsed.value, "topic") && Some(v.button) == TextAt(parsed.value, "button")
    ensures v == MissingTopicOrButton ==> TextAt(parsed.value, "topic").None? || TextAt(parsed.value, "button").None?
    ensures v.Update? ==> Some(v.topic) == TextAt(parsed.value, "topic") && v.data == Get(parsed.value, "data") && v.data.JObj?
    ensures v == MissingTopicOrData ==> TextAt(parsed.value, "topic").None? || !Get(parsed.value, "data").JObj?
  {
    if len == 0 then EmptyMessage
    else if parsed.None? then InvalidJson
    else
      var doc := parsed.value;
      if TextAt(doc, "action") == Some("button_trigger") then
        var t := TextAt(doc, "topic");
        var b := TextAt(doc, "button");
        if t.None? || b.None? then MissingTopicOrButton else ButtonTrigger(t.value, b.value)
      else
        var t := TextAt(doc, "topic");
        var d := Get(doc, "data");
        if t.None? || !d.JObj? then MissingTopicOrData else Update(t.value, d)
  }

  /** A well-formed update always passes the guards, even when it carries an `action` other than `button_trigger`. */
  lemma UpdatePassesGuards(len: nat, topic: string, data: map<string, Json>, other: map<string, Json>)
    requires len > 0 && PlainText(topic)
    requires "action" in other && other["action"].JStr? ==> CStr(other["action"].s) != "button_trigger"
    ensures Classify(len, Some(JObj(other["topic" := JStr(topic)]["data" := JObj(data)])))
            == Update(topic, JObj(data))
  {
    CStrOfPlain(topic);
  }

  /** The error a guard answers with, for the verdicts that stop the cascade. */
  function ErrorCode(v: Verdict): string
    requires !v.ButtonTrigger? && !v.Update?
  {
    match v
    case EmptyMessage => "empty_message"
    case InvalidJson => "invalid_json"
    case MissingTopicOrButton => "missing_topic_or_button"
    case MissingTopicOrData => "missing_topic_or_data"
  }

  /** The broadcast `broadcastTopic` makes for entry `e`: none when it is not sent over the WebSocket. */
  function BroadcastOf<S>(e: Entry<S>, obj: S): seq<Event> {
    if e.wsSend then [Broadcast(Envelope(e, obj))] else []
  }

  /** The events `saveEntry` records. */
  function SaveEvents<S>(e: Entry<S>, nvsOk: bool): seq<Event> {
    if e.persist then [Saved(e.topic, nvsOk)] else []
  }

  /** `broadcastAll()` over the first `n` entries. */
  function BroadcastsOf<S>(entries: seq<Entry<S>>, objs: seq<S>, n: nat): seq<Event>
    requires |entries| == |objs| && n <= |entries|
  {
    if n == 0 then [] else BroadcastsOf(entries, objs, n - 1) + BroadcastOf(entries[n - 1], objs[n - 1])
  }

  /** What a client reply adds to the log: nothing when there is no client. */
  function ReplyEvents(hasClient: bool, r: Reply): seq<Event> {
    if hasClient then [Replied(r)] else []
  }

  /** The WebSocket events `onWsEvent` receives. */
  datatype WsEvent =
    | Connect
    | Disconnect
    | Frame(final: bool, index: nat, frameLen: nat, text: bool, len: nat, parsed: Option<Json>)
    | OtherEvent

  /** Whether a data frame is handled: a single, complete, text frame. */
  predicate WholeTextFrame(ev: WsEvent)
    requires ev.Frame?
  {
    ev.final && ev.index == 0 && ev.frameLen == ev.len && ev.text
  }

  class ModelBase<S> {
    var entries: seq<Entry<S>>
    var objs: seq<S>
    var store: map<string, Stored>
    /** Whether `putString` succeeds: the flash is writable and has room. */
    var nvsOk: bool
    var events: seq<Event>

    predicate Valid()
      reads this
    {
      |entries| == |objs| <= MaxTopics
    }

    /** A model with no topics, over a Preferences namespace holding `stored`. */
    constructor(stored: map<string, Stored>, nvsOk: bool)
      ensures Valid() && entries == [] && objs == [] && store == stored && this.nvsOk == nvsOk && events == []
    {
      entries := [];
      objs := [];
      store := stored;
      this.nvsOk := nvsOk;
      events := [];
    }

    /**
     * `addEntry(topic, obj, persist, wsSend)`: ignored once `MAX_TOPICS`
     * entries exist; otherwise appends the entry, attaching the save
     * callback when the type has `setSaveCallback`.
     */
    method AddEntry(topic: string, kind: TopicKind<S>, obj: S, persist: bool, wsSend: bool)
      requires Valid()
      modifies this
      ensures Valid() && store == old(store) && events == old(events) && nvsOk == old(nvsOk)
      ensures old(|entries|) >= MaxTopics ==> entries == old(entries) && objs == old(objs)
      ensures old(|entries|) < MaxTopics ==>
                entries == old(entries) + [Entry(topic, persist, wsSend, kind.hasSaveCallback, kind)]
                && objs == old(objs) + [obj]
    {
      if |entries| >= MaxTopics {
        return;
      }
      entries := entries + [Entry(topic, persist, wsSend, kind.hasSaveCallback, kind)];
      objs := objs + [obj];
    }

    /** `registerTopic(topic, obj)`: persistence and WebSocket sending from the adapter's defaults. */
    method RegisterTopic(topic: string, kind: TopicKind<S>, obj: S)
      requires Valid()
      modifies this
      ensures Valid() && store == old(store) && events == old(events) && nvsOk == old(nvsOk)
      ensures old(|entries|) >= MaxTopics ==> entries == old(entries) && objs == old(objs)
      ensures old(|entries|) < MaxTopics ==>
                entries == old(entries) + [Entry(topic, kind.defaultPersist, kind.defaultWsSend, kind.hasSaveCallback, kind)]
                && objs == old(objs) + [obj]
    {
      AddEntry(topic, kind, obj, kind.defaultPersist, kind.defaultWsSend);
    }

    /** `find(topic)`: a linear scan for the first entry with that name. */
    method Find(topic: string) returns (r: Option<nat>)
      requires Valid()
      ensures r == FirstIndex(entries, topic)
    {
      var i := 0;
      while i < |entries|
        invariant 0 <= i <= |entries|
        invariant forall j :: 0 <= j < i ==> entries[j].topic != topic
      {
        if entries[i].topic == topic {
          return Some(i);
        }
        i := i + 1;
      }
      return None;
    }

    /** `saveEntry(entries_[i])`. */
    method SaveEntry(i: nat) returns (ok: bool)
      requires Valid() && i < |entries|
      modifies this
      ensures Valid() && entries == old(entries) && objs == old(objs) && nvsOk == old(nvsOk)
      ensures (store, ok) == SaveStep(entries[i], objs[i], old(store), nvsOk)
      ensures events == old(events) + SaveEvents(entries[i], nvsOk)
    {
      var e := entries[i];
      if !e.persist {
        return true;
      }
      if nvsOk {
        store := store[e.topic := JsonText(PrefsDoc(e, objs[i]))];
      }
      events := events + [Saved(e.topic, nvsOk)];
      ok := nvsOk;
    }

    /** `saveTopic(topic)`: false for an unknown topic, otherwise `saveEntry` of the first match. */
    method SaveTopic(topic: string) returns (ok: bool)
      requires Valid()
      modifies this
      ensures Valid() && entries == old(entries) && objs == old(objs) && nvsOk == old(nvsOk)
      ensures FirstIndex(entries, topic).None? ==> !ok && store == old(store) && events == old(events)
      ensures FirstIndex(entries, topic).Some? ==>
                (store, ok) == SaveStep(entries[FirstIndex(entries, topic).value], objs[FirstIndex(entries, topic).value], old(store), nvsOk)
    {
      var r := Find(topic);
      if r.None? {
        return false;
      }
      ok := SaveEntry(r.value);
    }

    /** The object calling the save callback `addEntry` attached to it; objects without one cannot. */
    method FireSaveCallback(i: nat)
      requires Valid() && i < |entries|
      modifies this
      ensures Valid() && entries == old(entries) && objs == old(objs) && nvsOk == old(nvsOk)
      ensures entries[i].hooked ==> store == SaveStep(entries[i], objs[i], old(store), nvsOk).0
                                    && events == old(events) + SaveEvents(entries[i], nvsOk)
      ensures !entries[i].hooked ==> store == old(store) && events == old(events)
    {
      if entries[i].hooked {
        var _ := SaveEntry(i);
      }
    }

    /** `loadEntry(entries_[i])`. */
    method LoadEntry(i: nat) returns (ok: bool)
      requires Valid() && i < |entries|
      modifies this
      ensures Valid() && entries == old(entries) && nvsOk == old(nvsOk)
      ensures objs == old(objs)[i := LoadStep(entries[i], old(objs)[i], old(store), nvsOk).0]
      ensures store == LoadStep(entries[i], old(objs)[i], old(store), nvsOk).1
      ensures ok == LoadStep(entries[i], old(objs)[i], old(store), nvsOk).2
      ensures events == old(events) + if entries[i].persist && entries[i].topic !in old(store) then SaveEvents(entries[i], nvsOk) else []
    {
      var e := entries[i];
      if !e.persist {
        return true;
      }
      if e.topic !in store {
        ok := SaveEntry(i);
        return;
      }
      match store[e.topic]
      case EmptyText => ok := false;
      case Garbage => ok := false;
      case JsonText(doc) =>
        var r := e.kind.read(objs[i], doc, false);
        objs := objs[i := r.value];
        ok := r.ok;
    }

    /** `loadOrInitAll()`: `loadEntry` on every entry in registration order, whatever each returns. */
    method LoadOrInitAll()
      requires Valid()
      modifies this
      ensures Valid() && entries == old(entries) && nvsOk == old(nvsOk)
      ensures (objs, store) == LoadAll(entries, old(objs), old(store), nvsOk, |entries|)
    {
      var i := 0;
      while i < |entries|
        invariant Valid() && entries == old(entries) && nvsOk == old(nvsOk)
        invariant 0 <= i <= |entries|
        invariant (objs, store) == LoadAll(entries, old(objs), old(store), nvsOk, i)
      {
        var _ := LoadEntry(i);
        i := i + 1;
      }
    }

    /** `broadcastTopic(topic)`: false for an unknown topic; true otherwise, sending only when `ws_send`. */
    method BroadcastTopic(topic: string) returns (ok: bool)
      requires Valid()
      modifies this
      ensures Valid() && entries == old(entries) && objs == old(objs) && store == old(store) && nvsOk == old(nvsOk)
      ensures FirstIndex(entries, topic).None? ==> !ok && events == old(events)
      ensures FirstIndex(entries, topic).Some? ==>
                ok && events == old(events) + BroadcastOf(entries[FirstIndex(entries, topic).value], objs[FirstIndex(entries, topic).value])
    {
      var r := Find(topic);
      if r.None? {
        return false;
      }
      events := events + BroadcastOf(entries[r.value], objs[r.value]);
      ok := true;
    }

    /** `broadcastAll()`: one envelope per topic that is sent over the WebSocket, in registration order. */
    method BroadcastAll()
      requires Valid()
      modifies this
      ensures Valid() && entries == old(entries) && objs == old(objs) && store == old(store) && nvsOk == old(nvsOk)
      ensures events == old(events) + BroadcastsOf(entries, objs, |entries|)
    {
      var i := 0;
      while i < |entries|
        invariant Valid() && entries == old(entries) && objs == old(objs) && store == old(store) && nvsOk == old(nvsOk)
        invariant 0 <= i <= |entries|
        invariant events == old(events) + BroadcastsOf(entries, objs, i)
      {
        if entries[i].wsSend {
          events := events + [Broadcast(Envelope(entries[i], objs[i]))];
        }
        i := i + 1;
      }
    }

    /** The default `handleButtonTrigger`: refuses the request. */
    method HandleButtonTrigger(hasClient: bool, topic: string, button: string)
      modifies this
      ensures entries == old(entries) && objs == old(objs) && store == old(store) && nvsOk == old(nvsOk)
      ensures events == old(events) + [ButtonPressed(topic, button)]
                        + ReplyEvents(hasClient, ReplyError("button_trigger_not_implemented"))
    {
      events := events + [ButtonPressed(topic, button)] + ReplyEvents(hasClient, ReplyError("button_trigger_not_implemented"));
    }

    /**
     * The update step of `handleIncoming` for entry `i`: apply the data
     * tolerantly; on failure answer `apply_failed`; on success save,
     * call `on_update`, answer ok and broadcast the topic, in that order.
     */
    method ApplyUpdate(hasClient: bool, i: nat, data: Json) returns (ok: bool)
      requires Valid() && i < |entries|
      modifies this
      ensures Valid() && entries == old(entries) && nvsOk == old(nvsOk)
      ensures ok == entries[i].kind.read(old(objs)[i], data, false).ok
      ensures objs == old(objs)[i := entries[i].kind.read(old(objs)[i], data, false).value]
      ensures !ok ==> store == old(store) && events == old(events) + ReplyEvents(hasClient, ReplyError("apply_failed"))
      ensures ok ==> store == SaveStep(entries[i], objs[i], old(store), nvsOk).0
      ensures ok ==> events == old(events) + SaveEvents(entries[i], nvsOk) + [Updated(entries[i].topic)]
                                + ReplyEvents(hasClient, ReplyOk) + BroadcastOf(entries[i], objs[i])
    {
      var e := entries[i];
      var r := e.kind.read(objs[i], data, false);
      objs := objs[i := r.value];
      if !r.ok {
        events := events + ReplyEvents(hasClient, ReplyError("apply_failed"));
        return false;
      }
      var _ := SaveEntry(i);
      events := events + [Updated(e.topic)] + ReplyEvents(hasClient, ReplyOk) + BroadcastOf(e, objs[i]);
      ok := true;
    }

    /**
     * What `handleIncoming` does to the objects, the store and the event log,
     * by the verdict of `Classify`: a rejected message or an unknown topic
     * adds only its error reply, a button trigger only the press and its
     * refusal, and an update of a known topic is `ApplyUpdate` on the first
     * entry with that name.
     */
    twostate predicate HandledIncoming(hasClient: bool, len: nat, parsed: Option<Json>)
      requires old(Valid()) && entries == old(entries)
      reads this
    {
      var v := Classify(len, parsed);
      if v.Update? && FirstIndex(entries, v.topic).Some? then
        var i := FirstIndex(entries, v.topic).value;
        var r := entries[i].kind.read(old(objs)[i], v.data, false);
        objs == old(objs)[i := r.value]
        && (!r.ok ==> store == old(store) && events == old(events) + ReplyEvents(hasClient, ReplyError("apply_failed")))
        && (r.ok ==> store == SaveStep(entries[i], objs[i], old(store), nvsOk).0
                     && events == old(events) + SaveEvents(entries[i], nvsOk) + [Updated(entries[i].topic)]
                                  + ReplyEvents(hasClient, ReplyOk) + BroadcastOf(entries[i], objs[i]))
      else
        objs == old(objs) && store == old(store)
        && events == old(events) + (if v.ButtonTrigger? then [ButtonPressed(v.topic, v.button)]
                                                              + ReplyEvents(hasClient, ReplyError("button_trigger_not_implemented"))
                                    else if v.Update? then ReplyEvents(hasClient, ReplyError("unknown_topic"))
                                    else ReplyEvents(hasClient, ReplyError(ErrorCode(v))))
    }

    /**
     * `handleIncoming(client, msg, len)`: the guards of `Classify`, then
     * the topic lookup (`unknown_topic`), then `ApplyUpdate` on the first
     * entry with that name.  Every rejected message changes nothing but
     * the reply log.
     */
    method HandleIncoming(hasClient: bool, len: nat, parsed: Option<Json>) returns (ok: bool)
      requires Valid()
      modifies this
      ensures Valid() && entries == old(entries) && nvsOk == old(nvsOk)
      ensures !Classify(len, parsed).ButtonTrigger? && !Classify(len, parsed).Update? ==>
                !ok && objs == old(objs) && store == old(store)
                && events == old(events) + ReplyEvents(hasClient, ReplyError(ErrorCode(Classify(len, parsed))))
      ensures Classify(len, parsed).ButtonTrigger? ==>
                ok && objs == old(objs) && store == old(store)
                && events == old(events) + [ButtonPressed(Classify(len, parsed).topic, Classify(len, parsed).button)]
                                          + ReplyEvents(hasClient, ReplyError("button_trigger_not_implemented"))
      ensures Classify(len, parsed).Update? && FirstIndex(entries, Classify(len, parsed).topic).None? ==>
                !ok && objs == old(objs) && store == old(store)
                && events == old(events) + ReplyEvents(hasClient, ReplyError("unknown_topic"))
      ensures Classify(len, parsed).Update? && FirstIndex(entries, Classify(len, parsed).topic).Some? ==>
                var i := FirstIndex(entries, Classify(len, parsed).topic).value;
                var r := entries[i].kind.read(old(objs)[i], Classify(len, parsed).data, false);
                ok == r.ok && objs == old(objs)[i := r.value]
                && (!ok ==> store == old(store) && events == old(events) + ReplyEvents(hasClient, ReplyError("apply_failed")))
                && (ok ==> store == SaveStep(entries[i], objs[i], old(store), nvsOk).0
                           && events == old(events) + SaveEvents(entries[i], nvsOk) + [Updated(entries[i].topic)]
                                        + ReplyEvents(hasClient, ReplyOk) + BroadcastOf(entries[i], objs[i]))
      ensures HandledIncoming(hasClient, len, parsed)
    {
      var v := Classify(len, parsed);
      match v
      case ButtonTrigger(topic, button) =>
        HandleButtonTrigger(hasClient, topic, button);
        ok := true;
      case Update(topic, data) =>
        var r := Find(topic);
        if r.None? {
          events := events + ReplyEvents(hasClient, ReplyError("unknown_topic"));
          return false;
        }
        ok := ApplyUpdate(hasClient, r.value, data);
      case _ =>
        events := events + ReplyEvents(hasClient, ReplyError(ErrorCode(v)));
        ok := false;
    }

    /**
     * `onWsEvent`: a connect broadcasts every topic; a whole text frame is
     * handed to `handleIncoming`; anything else is ignored.
     */
    method OnWsEvent(ev: WsEvent)
      requires Valid()
      modifies this
      ensures Valid() && entries == old(entries) && nvsOk == old(nvsOk)
      ensures ev == Connect ==> objs == old(objs) && store == old(store)
                                && events == old(events) + BroadcastsOf(entries, objs, |entries|)
      ensures ev == Disconnect || ev == OtherEvent || (ev.Frame? && !WholeTextFrame(ev)) ==>
                objs == old(objs) && store == old(store) && events == old(events)
      ensures ev.Frame? && WholeTextFrame(ev) ==> HandledIncoming(true, ev.len, ev.parsed)
    {
      match ev
      case Connect => BroadcastAll();
      case Frame(_, _, _, _, len, parsed) =>
        if WholeTextFrame(ev) {
          var _ := HandleIncoming(true, len, parsed);
        }
      case _ =>
    }
  }
}
