/**
 * The dashboard engine of `model_generic.js`: the last snapshot of every
 * topic, the fields the operator is editing, the coalescing render flag, the
 * rendered cards (an abstract DOM: a card per topic holding a row per field,
 * in document order) and the chart registry.
 */
module ModelGeneric {
  import opened Wrappers
  import opened JsonDoc
  import opened JsValue
  import opened Selectors
  import opened StrOrder
  import opened FieldView
  import opened Charts

  /** A topic's card: whether its "no data" note shows, and its rows by field key. */
  datatype Card = Card(empty: bool, rows: map<string, RowView>)

  /** `data || {}`. */
  function DataOf(j: Json): Json {
    if Truthy(j) then j else JObj(map[])
  }

  /** `info.raw && info.raw.type === 'graph_xy_ring'`: the field is drawn as an inline chart. */
  predicate IsGraphPayload(raw: Json) {
    Truthy(raw) && Prop(raw, "type") == JStr("graph_xy_ring")
  }

  function PrevRow(rows: map<string, RowView>, k: string): Option<RowView> {
    if k in rows then Some(rows[k]) else None
  }

  /**
   * The row of field `k` of topic `t` after a render, given the row before: a
   * graph field keeps a graph row (and its chart host when it had one), any
   * other field gets `updateRow`'s result.
   */
  ghost predicate RowRendered(row: RowView, prev: Option<RowView>, t: string, k: string, d: Json, marks: set<string>) {
    var info := UnwrapField(Prop(d, k));
    if IsGraphPayload(info.raw) then
      row.GraphRow? && row.name == k && (prev.Some? && prev.value.GraphRow? ==> row.host == prev.value.host)
    else
      row == UpdateRowView(prev, k, info, DirtyKey(t, k) in marks)
  }

  /** `updateCard`: one row per key of the data and no other, each rendered from the row before. */
  ghost predicate CardRendered(card: Card, prevRows: map<string, RowView>, t: string, d: Json, marks: set<string>) {
    card.empty == (OwnKeys(d) == {})
    && card.rows.Keys == OwnKeys(d)
    && forall k :: k in card.rows ==> RowRendered(card.rows[k], PrevRow(prevRows, k), t, k, d, marks)
  }

  /** The marks left after `clearDirtyForTopic(topic)`. */
  function WithoutTopic(marks: set<string>, topic: string): set<string> {
    set k | k in marks && !StartsWith(k, topic + "\0")
  }

  /** Clearing a topic's marks removes exactly that topic's fields and keeps every other topic's. */
  lemma ClearedMarks(marks: set<string>, topic: string, t: string, f: string)
    requires NulFree(topic) && NulFree(t)
    ensures DirtyKey(t, f) in WithoutTopic(marks, topic) <==> DirtyKey(t, f) in marks && t != topic
  {
    DirtyKeyPrefix(t, f, topic);
  }

  /** `msg.topic === 'graph_point' && msg.data`: a live chart point. */
  predicate IsGraphPointMsg(m: Json) {
    Prop(m, "topic") == JStr("graph_point") && Truthy(Prop(m, "data"))
  }

  /** The message `sendUpdate(topic, data)` sends. */
  function UpdateMessage(topic: string, payload: map<string, Json>): Json {
    JObj(map["topic" := JStr(topic), "data" := JObj(payload)])
  }

  /** `triggerButton(topic, button)`: the message sent on an open socket, nothing on a closed one. */
  function TriggerMessage(topic: string, button: string, wsOpen: bool): (r: Option<Json>)
    ensures r.Some? <==> wsOpen
    ensures r.Some? ==> Prop(r.value, "action") == JStr("button_trigger")
                        && Prop(r.value, "topic") == JStr(topic) && Prop(r.value, "button") == JStr(button)
  {
    if wsOpen then
      Some(JObj(map["action" := JStr("button_trigger"), "topic" := JStr(topic), "button" := JStr(button)]))
    else None
  }

  // ---------------------------------------------------------------------------
  // Sequences of topic names
  // ---------------------------------------------------------------------------

  /** The elements of `s` that are in `keep`, in order. */
  function KeepIn(s: seq<string>, keep: set<string>): seq<string> {
    if |s| == 0 then [] else (if s[0] in keep then [s[0]] else []) + KeepIn(s[1..], keep)
  }

  /** The elements of `s` that are not in `ex`, in order. */
  function FilterOut(s: seq<string>, ex: set<string>): seq<string> {
    if |s| == 0 then [] else (if s[0] in ex then [] else [s[0]]) + FilterOut(s[1..], ex)
  }

  /** `s` without `x`: where `appendChild` takes an element it moves. */
  function Without(s: seq<string>, x: string): seq<string> {
    FilterOut(s, {x})
  }

  lemma {:induction false} KeepInMembers(s: seq<string>, keep: set<string>)
    ensures forall y :: y in KeepIn(s, keep) <==> y in s && y in keep
  {
    if |s| > 0 {
      KeepInMembers(s[1..], keep);
      assert s == [s[0]] + s[1..];
    }
  }

  lemma {:induction false} FilterOutMembers(s: seq<string>, ex: set<string>)
    ensures forall y :: y in FilterOut(s, ex) <==> y in s && y !in ex
  {
    if |s| > 0 {
      FilterOutMembers(s[1..], ex);
      assert s == [s[0]] + s[1..];
    }
  }

  /** Moving `x` to the end of `s` (`appendChild`) keeps the same elements, plus `x`. */
  lemma MovedMembers(s: seq<string>, x: string)
    ensures forall y :: y in Without(s, x) + [x] <==> y in s || y == x
  {
    FilterOutMembers(s, {x});
  }

  lemma {:induction false} KeepInAppend(s: seq<string>, x: string, keep: set<string>)
    ensures KeepIn(s + [x], keep) == KeepIn(s, keep) + (if x in keep then [x] else [])
  {
    if |s| > 0 {
      assert (s + [x])[1..] == s[1..] + [x];
      KeepInAppend(s[1..], x, keep);
    } else {
      assert (s + [x])[1..] == [];
    }
  }

  /** One more element of `s` seen: the kept prefix and the set of elements seen grow by it. */
  lemma KeepInStep(s: seq<string>, i: nat, keep: set<string>)
    requires i < |s|
    ensures KeepIn(s[..i + 1], keep) == KeepIn(s[..i], keep) + (if s[i] in keep then [s[i]] else [])
    ensures (set j | 0 <= j < i + 1 :: s[j]) == (set j | 0 <= j < i :: s[j]) + {s[i]}
  {
    assert s[..i + 1] == s[..i] + [s[i]];
    KeepInAppend(s[..i], s[i], keep);
  }

  lemma {:induction false} FilterOutTwice(s: seq<string>, ex: set<string>, x: string)
    ensures FilterOut(FilterOut(s, ex), {x}) == FilterOut(s, ex + {x})
  {
    if |s| > 0 {
      FilterOutTwice(s[1..], ex, x);
      var r := FilterOut(s[1..], ex);
      if s[0] in ex {
        assert FilterOut(s, ex) == r;
      } else {
        var f := [s[0]] + r;
        assert FilterOut(s, ex) == f;
        assert f[0] == s[0] && f[1..] == r;
        assert FilterOut(f, {x}) == (if s[0] == x then [] else [s[0]]) + FilterOut(r, {x});
      }
      assert FilterOut(s, ex + {x}) == (if s[0] in ex + {x} then [] else [s[0]]) + FilterOut(s[1..], ex + {x});
    }
  }

  lemma {:induction false} FilterOutAppend(a: seq<string>, b: seq<string>, ex: set<string>)
    ensures FilterOut(a + b, ex) == FilterOut(a, ex) + FilterOut(b, ex)
  {
    if |a| > 0 {
      assert (a + b)[0] == a[0];
      assert (a + b)[1..] == a[1..] + b;
      FilterOutAppend(a[1..], b, ex);
      var head := if a[0] in ex then [] else [a[0]];
      assert FilterOut(a + b, ex) == head + FilterOut(a[1..] + b, ex);
      assert FilterOut(a, ex) == head + FilterOut(a[1..], ex);
    } else {
      assert a + b == b;
    }
  }

  lemma {:induction false} FilterOutNone(s: seq<string>, ex: set<string>)
    requires forall y :: y in s ==> y !in ex
    ensures FilterOut(s, ex) == s
  {
    if |s| > 0 {
      FilterOutNone(s[1..], ex);
    }
  }

  lemma {:induction false} FilterOutAll(s: seq<string>, ex: set<string>)
    requires forall y :: y in s ==> y in ex
    ensures FilterOut(s, ex) == []
  {
    if |s| > 0 {
      FilterOutAll(s[1..], ex);
    }
  }

  /**
   * Moving the `i`-th topic to the end of a container ordered as the kept
   * cards not yet placed followed by the placed topics places one more topic.
   */
  lemma MoveToEnd(kept: seq<string>, placed: set<string>, topics: seq<string>, i: nat)
    requires i < |topics| && forall j :: 0 <= j < i ==> topics[j] != topics[i]
    ensures Without(FilterOut(kept, placed) + topics[..i], topics[i]) + [topics[i]]
            == FilterOut(kept, placed + {topics[i]}) + topics[..i + 1]
  {
    var t := topics[i];
    var a, b := FilterOut(kept, placed), topics[..i];
    calc {
      Without(a + b, t) + [t];
    == { FilterOutAppend(a, b, {t}); }
      FilterOut(a, {t}) + FilterOut(b, {t}) + [t];
    == { FilterOutTwice(kept, placed, t);
         assert forall y :: y in b ==> y !in {t};
         FilterOutNone(b, {t}); }
      FilterOut(kept, placed + {t}) + b + [t];
    == { assert topics[..i + 1] == b + [t]; }
      FilterOut(kept, placed + {t}) + topics[..i + 1];
    }
  }

  /** `Object.keys(topicState).sort()`. */
  method SortTopics(s: set<string>) returns (r: seq<string>)
    ensures Sorted(r)
    ensures forall x :: x in r <==> x in s
  {
    r := [];
    var rest := s;
    while rest != {}
      invariant rest <= s && Sorted(r)
      invariant forall x :: x in r <==> x in s - rest
      decreases rest
    {
      var x :| x in rest;
      r := InsertSorted(r, x);
      rest := rest - {x};
    }
  }

  // ---------------------------------------------------------------------------
  // Graph rows and the chart registry during a render
  // ---------------------------------------------------------------------------

  /**
   * The chart hosts in the document: those of the graph rows of the cards in
   * the container.  A card made but not yet appended is not in the document.
   */
  function LiveHostsIn(cards: map<string, Card>, order: seq<string>): set<nat> {
    set t, k | t in cards && t in order && k in cards[t].rows && cards[t].rows[k].GraphRow? :: cards[t].rows[k].host
  }

  /** The (topic, field) pairs of the fields a render draws. */
  ghost predicate IsField(ts: map<string, Json>, p: (string, string)) {
    p.0 in ts && p.1 in OwnKeys(DataOf(ts[p.0]))
  }

  ghost function FieldsOf(ts: map<string, Json>, t: string): set<(string, string)>
    requires t in ts
  {
    set k | k in OwnKeys(DataOf(ts[t])) :: (t, k)
  }

  lemma FieldsOfMembers(ts: map<string, Json>, t: string)
    requires t in ts
    ensures forall p :: p in FieldsOf(ts, t) <==> p.0 == t && IsField(ts, p)
  {
    forall p: (string, string) | p.0 == t && IsField(ts, p) ensures p in FieldsOf(ts, t) {
      assert p == (t, p.1);
    }
  }

  /** A sorted sequence holds its `i`-th element nowhere before `i`. */
  lemma NotYetPlaced(s: seq<string>, i: nat)
    requires Sorted(s) && i < |s|
    ensures forall j :: 0 <= j < i ==> s[j] != s[i]
  {
    forall j | 0 <= j < i ensures s[j] != s[i] {
      StrLessIrreflexive(s[i]);
    }
  }

  ghost function FieldRaw(ts: map<string, Json>, p: (string, string)): Json
    requires p.0 in ts
  {
    UnwrapField(Prop(DataOf(ts[p.0]), p.1)).raw
  }

  ghost predicate IsGraphField(ts: map<string, Json>, p: (string, string)) {
    p.0 in ts && IsGraphPayload(FieldRaw(ts, p))
  }

  /** The chart hosts of the graph rows of the fields in `done`. */
  ghost function HostsOf(cards: map<string, Card>, done: set<(string, string)>): set<nat> {
    set p | p in done && p.0 in cards && p.1 in cards[p.0].rows && cards[p.0].rows[p.1].GraphRow?
      :: cards[p.0].rows[p.1].host
  }

  /**
   * Every graph field in `done` has its series registered, and its graph's
   * container sits in the host of one of the rows drawn so far.
   */
  ghost predicate SeriesRegistered(ts: map<string, Json>, cards: map<string, Card>, reg: Registry, done: set<(string, string)>) {
    forall p :: p in done && IsGraphField(ts, p) ==>
      var gd := FieldRaw(ts, p);
      GraphName(gd) in reg.charts && SeriesLabel(gd, p.1) in reg.charts[GraphName(gd)].datasets
      && GraphName(gd) in reg.hostOf && reg.hostOf[GraphName(gd)] in HostsOf(cards, done)
  }

  lemma HostsOfGrows(cards: map<string, Card>, cards2: map<string, Card>, done: set<(string, string)>, done2: set<(string, string)>)
    requires done <= done2
    requires forall p :: p in done && p.0 in cards && p.1 in cards[p.0].rows ==>
               p.0 in cards2 && p.1 in cards2[p.0].rows && cards2[p.0].rows[p.1] == cards[p.0].rows[p.1]
    ensures HostsOf(cards, done) <= HostsOf(cards2, done2)
  {
    forall h | h in HostsOf(cards, done) ensures h in HostsOf(cards2, done2) {
      var p :| p in done && p.0 in cards && p.1 in cards[p.0].rows && cards[p.0].rows[p.1].GraphRow?
               && cards[p.0].rows[p.1].host == h;
      assert cards2[p.0].rows[p.1].host == h;
    }
  }

  /** The rows drawn for topics whose cards are in the container have their hosts in the document. */
  lemma HostsOfLive(cards: map<string, Card>, order: seq<string>, done: set<(string, string)>)
    requires forall p :: p in done ==> p.0 in order
    ensures HostsOf(cards, done) <= LiveHostsIn(cards, order)
  {
    forall h | h in HostsOf(cards, done) ensures h in LiveHostsIn(cards, order) {
      var p :| p in done && p.0 in cards && p.1 in cards[p.0].rows && cards[p.0].rows[p.1].GraphRow?
               && cards[p.0].rows[p.1].host == h;
      assert cards[p.0].rows[p.1].host in LiveHostsIn(cards, order);
    }
  }

  /**
   * The fields of `done` have their series registered, and the card being
   * drawn and those of the fields of `done` are all in the container, so
   * every chart container the registry points at is in the document.
   */
  ghost predicate Tracked(inp: RenderInput, v: View, t: string, done: set<(string, string)>) {
    t in v.order && (forall p :: p in done ==> p.0 in v.order)
    && SeriesRegistered(inp.topics, v.cards, v.reg, done)
  }

  /**
   * Drawing a row that is no graph field, or rewriting rows outside `done`,
   * leaves every registered series registered.
   */
  lemma RegisteredAfterRows(c0: map<string, Card>, c1: map<string, Card>, reg: Registry,
                            done: set<(string, string)>, done1: set<(string, string)>, fts: map<string, Json>)
    requires SeriesRegistered(fts, c0, reg, done) && done <= done1
    requires forall p :: p in done1 - done ==> !IsGraphField(fts, p)
    requires forall p :: p in done && p.0 in c0 && p.1 in c0[p.0].rows ==>
               p.0 in c1 && p.1 in c1[p.0].rows && c1[p.0].rows[p.1] == c0[p.0].rows[p.1]
    ensures SeriesRegistered(fts, c1, reg, done1)
  {
    HostsOfGrows(c0, c1, done, done1);
  }

  /**
   * Drawing the graph row of a new field: every series registered before
   * stays registered, because its graph's container is in a drawn row's host,
   * which is in the document; the new field's series joins them.
   */
  lemma RegisteredAfterGraph(ts: map<string, Json>, c0: map<string, Card>, c1: map<string, Card>, order: seq<string>,
                             reg: Registry, r: Registry,
                             done: set<(string, string)>, t: string, k: string, gd: Json, host: nat, chartJs: bool)
    requires reg.Valid() && SeriesRegistered(ts, c0, reg, done) && (t, k) !in done
    requires forall p :: p in done ==> p.0 in order
    requires t in c0 && c1 == c0[t := c0[t].(rows := c0[t].rows[k := GraphRow(k, host)])]
    requires t in ts && gd == FieldRaw(ts, (t, k)) && IsGraphPayload(gd)
    requires r == RenderGraphSpec(reg, k, gd, host, LiveHostsIn(c1, order), chartJs)
    ensures SeriesRegistered(ts, c1, r, done + {(t, k)})
  {
    var name := GraphName(gd);
    var live := LiveHostsIn(c1, order);
    var done1 := done + {(t, k)};
    HostsOfGrows(c0, c1, done, done1);
    HostsOfLive(c1, order, done);
    HostsOfGrows(c1, c1, done, done);
    assert host in HostsOf(c1, done1) by {
      assert (t, k) in done1 && c1[t].rows[k].GraphRow?;
    }
    if name in reg.charts && reg.hostOf[name] in live {
      RenderLiveGraphKeepsSeries(reg, k, gd, host, live, chartJs);
    }
    forall p | p in done1 && IsGraphField(ts, p)
      ensures var g := FieldRaw(ts, p);
        GraphName(g) in r.charts && SeriesLabel(g, p.1) in r.charts[GraphName(g)].datasets
        && GraphName(g) in r.hostOf && r.hostOf[GraphName(g)] in HostsOf(c1, done1)
    {
      if p != (t, k) {
        var g := FieldRaw(ts, p);
        assert reg.hostOf[GraphName(g)] in HostsOf(c0, done);
        if GraphName(g) == name {
          assert reg.hostOf[name] in live;
        }
      }
    }
  }

  // ---------------------------------------------------------------------------
  // A render, on the state it changes
  // ---------------------------------------------------------------------------

  /** What a render reads: the topic snapshots, the dirty marks, and whether Chart.js is loaded. */
  datatype RenderInput = RenderInput(topics: map<string, Json>, marks: set<string>, chartJs: bool)

  /**
   * What a render changes: the cards in the container and their document
   * order, `graphCharts` with the host of each graph's container, and the
   * identity the next chart host element gets.
   */
  datatype View = View(cards: map<string, Card>, order: seq<string>, reg: Registry, nextHost: nat)

  /**
   * Every card in the container is a known card (a card just made is known
   * before it is appended), and every host identity in use was handed out.
   */
  ghost predicate ViewValid(v: View) {
    (forall t :: t in v.order ==> t in v.cards)
    && v.reg.Valid()
    && (forall g :: g in v.reg.hostOf ==> v.reg.hostOf[g] < v.nextHost)
    && (forall t, k :: t in v.cards && k in v.cards[t].rows && v.cards[t].rows[k].GraphRow? ==>
          v.cards[t].rows[k].host < v.nextHost)
  }

  /** Every known card is in the container: the state between render passes. */
  ghost predicate InContainer(v: View) {
    forall t :: t in v.cards ==> t in v.order
  }

  /** The rows a card had before a render (none for a card that did not exist). */
  ghost function PrevRows(before: map<string, Card>, t: string): map<string, RowView> {
    if t in before then before[t].rows else map[]
  }

  /** The start of `renderTopics`: the cards of topics no longer in `keep` leave the container. */
  method RemoveVanished(v: View, keep: set<string>) returns (r: View)
    requires ViewValid(v) && InContainer(v)
    ensures ViewValid(r) && r.reg == v.reg && r.nextHost == v.nextHost
    ensures r.order == KeepIn(v.order, keep)
    ensures r.cards == map t | t in v.cards && t in keep :: v.cards[t]
  {
    var kept: seq<string> := [];
    var remaining := v.cards;
    ghost var seen: set<string> := {};
    var i := 0;
    while i < |v.order|
      invariant 0 <= i <= |v.order|
      invariant kept == KeepIn(v.order[..i], keep)
      invariant seen == set j | 0 <= j < i :: v.order[j]
      invariant remaining.Keys == v.cards.Keys - (seen - keep)
      invariant forall t :: t in remaining ==> remaining[t] == v.cards[t]
    {
      var t := v.order[i];
      KeepInStep(v.order, i, keep);
      if t !in keep {
        remaining := remaining - {t};
      } else {
        kept := kept + [t];
      }
      seen := seen + {t};
      i := i + 1;
    }
    assert v.order[..i] == v.order;
    KeepInMembers(v.order, keep);
    assert v.cards.Keys <= seen by {
      forall t | t in v.cards ensures t in seen {
        var j :| 0 <= j < |v.order| && v.order[j] == t;
      }
    }
    assert remaining == map t | t in v.cards && t in keep :: v.cards[t];
    r := v.(cards := remaining, order := kept);
  }

  /**
   * The container after the first `i` topics (in sorted order) are placed:
   * the kept cards not yet placed, then the placed topics in order.
   */
  ghost predicate PlacedOrder(kept: seq<string>, topics: seq<string>, i: nat, placed: set<string>, r: View)
    requires i <= |topics|
  {
    placed == (set j | 0 <= j < i :: topics[j]) && r.order == FilterOut(kept, placed) + topics[..i]
  }

  /** The placed topics have rendered cards; the other cards are as the removal left them. */
  ghost predicate PlacedCards(v: View, inp: RenderInput, before: map<string, Card>, placed: set<string>, r: View) {
    (forall t :: t in r.cards <==> t in before || t in placed)
    && (forall t :: t in before && t !in placed ==> r.cards[t] == before[t])
    && (forall t :: t in placed ==>
          t in inp.topics && t in r.cards && CardRendered(r.cards[t], PrevRows(v.cards, t), t, DataOf(inp.topics[t]), inp.marks))
  }

  /** `done` holds exactly the fields of the placed topics. */
  ghost predicate PlacedFields(inp: RenderInput, placed: set<string>, done: set<(string, string)>) {
    forall p :: p in done <==> IsField(inp.topics, p) && p.0 in placed
  }

  /** The state of `renderTopics` after the first `i` topics are placed. */
  ghost predicate Placing(v: View, inp: RenderInput, topics: seq<string>, before: map<string, Card>, kept: seq<string>,
                          i: nat, placed: set<string>, done: set<(string, string)>, r: View)
    requires i <= |topics|
  {
    ViewValid(r) && PlacedOrder(kept, topics, i, placed, r) && PlacedCards(v, inp, before, placed, r)
    && PlacedFields(inp, placed, done)
  }

  lemma PlacedOrderStep(kept: seq<string>, topics: seq<string>, i: nat, placed: set<string>, r: View, r2: View)
    requires i < |topics| && Sorted(topics)
    requires PlacedOrder(kept, topics, i, placed, r)
    requires r2.order == Without(r.order, topics[i]) + [topics[i]]
    ensures PlacedOrder(kept, topics, i + 1, placed + {topics[i]}, r2)
  {
    NotYetPlaced(topics, i);
    MoveToEnd(kept, placed, topics, i);
    assert (set j | 0 <= j < i + 1 :: topics[j]) == placed + {topics[i]};
  }

  lemma PlacedCardsStep(v: View, inp: RenderInput, before: map<string, Card>, placed: set<string>, t: string, r: View, r2: View)
    requires t in inp.topics && t !in placed
    requires forall u :: u in before ==> u in v.cards && before[u] == v.cards[u]
    requires forall u :: u in v.cards && u in inp.topics ==> u in before
    requires PlacedCards(v, inp, before, placed, r)
    requires t in r2.cards && r2.cards == r.cards[t := r2.cards[t]]
    requires CardRendered(r2.cards[t], PrevRows(r.cards, t), t, DataOf(inp.topics[t]), inp.marks)
    ensures PlacedCards(v, inp, before, placed + {t}, r2)
  {
    assert PrevRows(r.cards, t) == PrevRows(v.cards, t);
  }

  lemma PlacedFieldsStep(inp: RenderInput, placed: set<string>, done: set<(string, string)>, t: string)
    requires t in inp.topics && PlacedFields(inp, placed, done)
    ensures PlacedFields(inp, placed + {t}, done + FieldsOf(inp.topics, t))
  {
    FieldsOfMembers(inp.topics, t);
  }

  /** Placing the `i`-th topic keeps `Placing`, with one more topic placed. */
  lemma PlacingStep(v: View, inp: RenderInput, topics: seq<string>, before: map<string, Card>, kept: seq<string>,
                    i: nat, placed: set<string>, done: set<(string, string)>, r: View, r2: View)
    requires i < |topics| && Sorted(topics) && topics[i] in inp.topics
    requires forall t :: t in before ==> t in v.cards && before[t] == v.cards[t]
    requires forall t :: t in v.cards && t in inp.topics ==> t in before
    requires Placing(v, inp, topics, before, kept, i, placed, done, r)
    requires ViewValid(r2) && r2.order == Without(r.order, topics[i]) + [topics[i]]
    requires topics[i] in r2.cards && r2.cards == r.cards[topics[i] := r2.cards[topics[i]]]
    requires CardRendered(r2.cards[topics[i]], PrevRows(r.cards, topics[i]), topics[i], DataOf(inp.topics[topics[i]]), inp.marks)
    ensures Placing(v, inp, topics, before, kept, i + 1, placed + {topics[i]}, done + FieldsOf(inp.topics, topics[i]), r2)
  {
    NotYetPlaced(topics, i);
    PlacedOrderStep(kept, topics, i, placed, r, r2);
    PlacedCardsStep(v, inp, before, placed, topics[i], r, r2);
    PlacedFieldsStep(inp, placed, done, topics[i]);
  }

  /**
   * One topic of `renderTopics`: a card that is not there yet is made (known,
   * but not in the container), `updateCard` draws it, and `appendChild` then
   * puts it at the end of the container.  Only a card that was already in the
   * container is drawn with its chart hosts in the document.
   */
  method PlaceTopic(v: View, inp: RenderInput, t: string, ghost done: set<(string, string)>) returns (r: View)
    requires ViewValid(v) && t in inp.topics
    requires forall p :: p in done ==> p.0 != t
    ensures ViewValid(r) && r.order == Without(v.order, t) + [t]
    ensures t in r.cards && r.cards == v.cards[t := r.cards[t]]
    ensures CardRendered(r.cards[t], PrevRows(v.cards, t), t, DataOf(inp.topics[t]), inp.marks)
    ensures Tracked(inp, v, t, done) ==> SeriesRegistered(inp.topics, r.cards, r.reg, done + FieldsOf(inp.topics, t))
  {
    r := v;
    if t !in r.cards {
      r := r.(cards := r.cards[t := Card(true, map[])]);
    }
    ghost var made := r;
    assert made.cards[t].rows == PrevRows(v.cards, t);
    r := UpdateCard(r, inp, t, done);
    if t !in v.cards {
      UpdateTwice(v.cards, t, made.cards[t], r.cards[t]);
    }
    MovedMembers(r.order, t);
    r := r.(order := Without(r.order, t) + [t]);
  }

  /**
   * One topic placed in the corrected order: the card is made and appended
   * first, so it is in the document while `updateCard` draws it.
   */
  method PlaceTopicAttached(v: View, inp: RenderInput, t: string, ghost done: set<(string, string)>) returns (r: View)
    requires ViewValid(v) && t in inp.topics
    requires forall p :: p in done ==> p.0 != t && p.0 in v.order
    requires SeriesRegistered(inp.topics, v.cards, v.reg, done)
    ensures ViewValid(r) && r.order == Without(v.order, t) + [t]
    ensures t in r.cards && r.cards == v.cards[t := r.cards[t]]
    ensures CardRendered(r.cards[t], PrevRows(v.cards, t), t, DataOf(inp.topics[t]), inp.marks)
    ensures SeriesRegistered(inp.topics, r.cards, r.reg, done + FieldsOf(inp.topics, t))
  {
    r := AttachCard(v, inp, t, done);
    MovedMembers(v.order, t);
    r := UpdateCard(r, inp, t, done);
  }

  /** A card that is not there yet is made empty; then the card is moved to the end of the container. */
  method AttachCard(v: View, inp: RenderInput, t: string, ghost done: set<(string, string)>) returns (r: View)
    requires ViewValid(v)
    requires SeriesRegistered(inp.topics, v.cards, v.reg, done)
    ensures ViewValid(r) && r.order == Without(v.order, t) + [t] && r.reg == v.reg
    ensures t in r.cards && r.cards == v.cards[t := r.cards[t]] && r.cards[t].rows == PrevRows(v.cards, t)
    ensures SeriesRegistered(inp.topics, r.cards, r.reg, done)
  {
    r := v;
    if t !in r.cards {
      r := r.(cards := r.cards[t := Card(true, map[])]);
      RegisteredAfterRows(v.cards, r.cards, r.reg, done, done, inp.topics);
    }
    MovedMembers(r.order, t);
    r := r.(order := Without(r.order, t) + [t]);
  }

  /**
   * What a render pass leaves: one card per topic and no other, the
   * container in sorted topic order, and every card drawn from its topic's
   * data and the rows it had before.
   */
  ghost predicate DrawnFrom(v: View, inp: RenderInput, r: View) {
    && r.cards.Keys == inp.topics.Keys
    && Sorted(r.order) && (forall t :: t in r.order <==> t in inp.topics)
    && (forall t :: t in r.cards ==> CardRendered(r.cards[t], PrevRows(v.cards, t), t, DataOf(inp.topics[t]), inp.marks))
  }

  /** After a pass every card is in the container. */
  lemma DrawnInContainer(v: View, inp: RenderInput, r: View)
    requires DrawnFrom(v, inp, r)
    ensures InContainer(r)
  {
  }

  /** Every graph field's series is registered with its graph's chart. */
  ghost predicate AllSeriesRegistered(ts: map<string, Json>, reg: Registry) {
    forall p :: IsField(ts, p) && IsGraphField(ts, p) ==>
      var gd := FieldRaw(ts, p);
      GraphName(gd) in reg.charts && SeriesLabel(gd, p.1) in reg.charts[GraphName(gd)].datasets
  }

  /** Every topic of the pass already has its card in the container. */
  ghost predicate HasAllCards(v: View, inp: RenderInput) {
    forall t :: t in inp.topics ==> t in v.order
  }

  /**
   * `renderTopics`: cards of vanished topics go, every topic in sorted order
   * gets its card, drawn and then appended, so the container ends up in
   * topic order, each card rendered from the rows it had before.  When every
   * topic already had its card, every graph field's series is registered;
   * a card drawn before it is appended may lose a series (see Findings).
   */
  method RenderTopics(v: View, inp: RenderInput) returns (r: View)
    requires ViewValid(v) && InContainer(v)
    ensures ViewValid(r) && DrawnFrom(v, inp, r)
    ensures HasAllCards(v, inp) ==> AllSeriesRegistered(inp.topics, r.reg)
  {
    var topics := SortTopics(inp.topics.Keys);
    var keep := inp.topics.Keys;

    r := RemoveVanished(v, keep);
    ghost var before := r.cards;
    ghost var kept := r.order;
    ghost var placed: set<string> := {};
    ghost var done: set<(string, string)> := {};
    PlacingStarts(v, inp, topics, r);

    var i := 0;
    while i < |topics|
      invariant i <= |topics| && Placing(v, inp, topics, before, kept, i, placed, done, r)
      invariant HasAllCards(v, inp) ==> SeriesRegistered(inp.topics, r.cards, r.reg, done)
    {
      SteadyNext(v, inp, topics, before, kept, i, placed, done, r);
      var r2 := PlaceTopic(r, inp, topics[i], done);
      PlacingStep(v, inp, topics, before, kept, i, placed, done, r, r2);
      r := r2;
      placed := placed + {topics[i]};
      done := done + FieldsOf(inp.topics, topics[i]);
      i := i + 1;
    }
    PlacingEnds(v, inp, topics, before, kept, placed, done, r);
    if HasAllCards(v, inp) {
      AllRegistered(inp.topics, r.cards, r.reg, done);
    }
  }

  /**
   * `renderTopics` with every card appended before it is drawn: the same
   * cards and order, and every graph field's series is registered.
   */
  method RenderTopicsAttached(v: View, inp: RenderInput) returns (r: View)
    requires ViewValid(v) && InContainer(v)
    ensures ViewValid(r) && DrawnFrom(v, inp, r) && AllSeriesRegistered(inp.topics, r.reg)
  {
    var topics := SortTopics(inp.topics.Keys);
    var keep := inp.topics.Keys;

    r := RemoveVanished(v, keep);
    ghost var before := r.cards;
    ghost var kept := r.order;
    ghost var placed: set<string> := {};
    ghost var done: set<(string, string)> := {};
    PlacingStarts(v, inp, topics, r);

    var i := 0;
    while i < |topics|
      invariant i <= |topics| && Placing(v, inp, topics, before, kept, i, placed, done, r)
      invariant SeriesRegistered(inp.topics, r.cards, r.reg, done)
    {
      PlacingNext(v, inp, topics, before, kept, i, placed, done, r);
      var r2 := PlaceTopicAttached(r, inp, topics[i], done);
      PlacingStep(v, inp, topics, before, kept, i, placed, done, r, r2);
      r := r2;
      placed := placed + {topics[i]};
      done := done + FieldsOf(inp.topics, topics[i]);
      i := i + 1;
    }
    PlacingEnds(v, inp, topics, before, kept, placed, done, r);
    AllRegistered(inp.topics, r.cards, r.reg, done);
  }

  lemma PlacingStarts(v: View, inp: RenderInput, topics: seq<string>, r: View)
    requires ViewValid(r)
    ensures Placing(v, inp, topics, r.cards, r.order, 0, {}, {}, r)
  {
    FilterOutNone(r.order, {});
  }

  /**
   * The next topic to place is not placed yet, so none of the drawn fields is
   * one of its, and the drawn fields' cards are all in the container.
   */
  lemma PlacingNext(v: View, inp: RenderInput, topics: seq<string>, before: map<string, Card>, kept: seq<string>,
                    i: nat, placed: set<string>, done: set<(string, string)>, r: View)
    requires i < |topics| && Sorted(topics)
    requires Placing(v, inp, topics, before, kept, i, placed, done, r)
    ensures topics[i] !in placed && forall p :: p in done ==> p.0 != topics[i] && p.0 in r.order
  {
    NotYetPlaced(topics, i);
    forall p | p in done ensures p.0 in r.order {
      var j :| 0 <= j < i && topics[j] == p.0;
      assert topics[..i][j] == p.0;
    }
  }

  /**
   * When every topic had its card in the container, the next topic's card is
   * still there, so it is drawn with its chart hosts in the document.
   */
  lemma SteadyNext(v: View, inp: RenderInput, topics: seq<string>, before: map<string, Card>, kept: seq<string>,
                   i: nat, placed: set<string>, done: set<(string, string)>, r: View)
    requires i < |topics| && Sorted(topics) && topics[i] in inp.topics
    requires kept == KeepIn(v.order, inp.topics.Keys)
    requires Placing(v, inp, topics, before, kept, i, placed, done, r)
    ensures topics[i] !in placed && forall p :: p in done ==> p.0 != topics[i]
    ensures HasAllCards(v, inp) && SeriesRegistered(inp.topics, r.cards, r.reg, done) ==> Tracked(inp, r, topics[i], done)
  {
    PlacingNext(v, inp, topics, before, kept, i, placed, done, r);
    if HasAllCards(v, inp) {
      KeepInMembers(v.order, inp.topics.Keys);
      FilterOutMembers(kept, placed);
    }
  }

  /** With every topic placed, the container holds exactly the topics' cards in sorted order. */
  lemma PlacingEnds(v: View, inp: RenderInput, topics: seq<string>, before: map<string, Card>, kept: seq<string>,
                    placed: set<string>, done: set<(string, string)>, r: View)
    requires Sorted(topics) && forall x :: x in topics <==> x in inp.topics
    requires forall t :: t in before ==> t in inp.topics
    requires forall t :: t in kept ==> t in inp.topics
    requires Placing(v, inp, topics, before, kept, |topics|, placed, done, r)
    ensures ViewValid(r) && DrawnFrom(v, inp, r)
    ensures forall p :: IsField(inp.topics, p) ==> p in done
  {
    assert topics[..|topics|] == topics;
    assert forall x :: x in inp.topics ==> x in placed by {
      forall x | x in inp.topics ensures x in placed {
        var j :| 0 <= j < |topics| && topics[j] == x;
      }
    }
    FilterOutAll(kept, placed);
  }

  /** Once every field is drawn with its series tracked, every graph field's series is in the registry. */
  lemma AllRegistered(ts: map<string, Json>, cards: map<string, Card>, reg: Registry, done: set<(string, string)>)
    requires SeriesRegistered(ts, cards, reg, done)
    requires forall p :: IsField(ts, p) ==> p in done
    ensures AllSeriesRegistered(ts, reg)
  {
  }

  /**
   * `updateCard(topic, card, topicState[topic] || {})`: a row per key of the
   * data, drawn or redrawn, then the rows of keys no longer present go.
   */
  method UpdateCard(v: View, inp: RenderInput, t: string, ghost done: set<(string, string)>) returns (r: View)
    requires ViewValid(v) && t in v.cards && t in inp.topics
    requires forall p :: p in done ==> p.0 != t
    ensures ViewValid(r) && r.order == v.order
    ensures t in r.cards && r.cards == v.cards[t := r.cards[t]]
    ensures CardRendered(r.cards[t], v.cards[t].rows, t, DataOf(inp.topics[t]), inp.marks)
    ensures Tracked(inp, v, t, done) ==> SeriesRegistered(inp.topics, r.cards, r.reg, done + FieldsOf(inp.topics, t))
  {
    var keys := OwnKeys(DataOf(inp.topics[t]));
    var r1 := v.(cards := v.cards[t := v.cards[t].(empty := keys == {})]);
    if Tracked(inp, v, t, done) {
      RegisteredAfterRows(v.cards, r1.cards, r1.reg, done, done, inp.topics);
    }
    var r2 := DrawFields(r1, inp, t, keys, done);
    r := DropStaleRows(r2, t, keys);
    assert r2.cards[t] == Card(keys == {}, r2.cards[t].rows);
    UpdateTwice(v.cards, t, r1.cards[t], r2.cards[t]);
    StaleRowsDropped(v, inp, t, keys, r2, r);
    if Tracked(inp, v, t, done) {
      ghost var cur := done + FieldsOf(inp.topics, t);
      FieldsOfMembers(inp.topics, t);
      RegisteredAfterRows(r2.cards, r.cards, r.reg, cur, cur, inp.topics);
    }
  }

  /** A second update of a key replaces the first. */
  lemma UpdateTwice<K, V>(m: map<K, V>, k: K, a: V, b: V)
    ensures m[k := a][k := b] == m[k := b]
  {
  }

  /** Dropping the rows of keys no longer in the data leaves one rendered row per key. */
  lemma StaleRowsDropped(v: View, inp: RenderInput, t: string, keys: set<string>, r2: View, r: View)
    requires t in v.cards && t in inp.topics && keys == OwnKeys(DataOf(inp.topics[t]))
    requires t in r2.cards && r2.cards == v.cards[t := Card(keys == {}, r2.cards[t].rows)]
    requires r2.cards[t].rows.Keys == v.cards[t].rows.Keys + keys
    requires forall k :: k in keys ==>
               RowRendered(r2.cards[t].rows[k], PrevRow(v.cards[t].rows, k), t, k, DataOf(inp.topics[t]), inp.marks)
    requires t in r.cards && r.cards == r2.cards[t := r2.cards[t].(rows := r.cards[t].rows)]
    requires r.cards[t].rows.Keys == r2.cards[t].rows.Keys * keys
    requires forall j :: j in r.cards[t].rows ==> r.cards[t].rows[j] == r2.cards[t].rows[j]
    ensures r.cards == v.cards[t := r.cards[t]]
    ensures CardRendered(r.cards[t], v.cards[t].rows, t, DataOf(inp.topics[t]), inp.marks)
  {
  }

  /** `updateCard`'s loop after drawing the keys of `keys - rest`: the other rows are as they were. */
  ghost predicate Drawing(v: View, inp: RenderInput, t: string, keys: set<string>, rest: set<string>,
                          track: bool, cur: set<(string, string)>, r: View)
    requires t in v.cards && t in inp.topics
  {
    ViewValid(r) && r.order == v.order
    && t in r.cards && r.cards == v.cards[t := v.cards[t].(rows := r.cards[t].rows)]
    && r.cards[t].rows.Keys == v.cards[t].rows.Keys + (keys - rest)
    && (forall k :: k in rest && k in v.cards[t].rows ==> r.cards[t].rows[k] == v.cards[t].rows[k])
    && (forall k :: k in keys - rest ==>
          RowRendered(r.cards[t].rows[k], PrevRow(v.cards[t].rows, k), t, k, DataOf(inp.topics[t]), inp.marks))
    && (forall k :: (t, k) in cur ==> k !in rest)
    && (track ==> Tracked(inp, r, t, cur))
  }

  /** Drawing one more key keeps `Drawing`. */
  lemma DrawingStep(v: View, inp: RenderInput, t: string, keys: set<string>, rest: set<string>, track: bool,
                    cur: set<(string, string)>, k: string, r: View, r2: View)
    requires t in v.cards && t in inp.topics && k in rest && rest <= keys
    requires Drawing(v, inp, t, keys, rest, track, cur, r)
    requires track ==> SeriesRegistered(inp.topics, r2.cards, r2.reg, cur + {(t, k)})
    requires ViewValid(r2) && r2.order == r.order && t in r2.cards && k in r2.cards[t].rows
    requires r2.cards == r.cards[t := r.cards[t].(rows := r.cards[t].rows[k := r2.cards[t].rows[k]])]
    requires RowRendered(r2.cards[t].rows[k], PrevRow(r.cards[t].rows, k), t, k, DataOf(inp.topics[t]), inp.marks)
    ensures Drawing(v, inp, t, keys, rest - {k}, track, cur + {(t, k)}, r2)
  {
    assert PrevRow(r.cards[t].rows, k) == PrevRow(v.cards[t].rows, k);
  }

  /** The `keys.forEach` of `updateCard`: every key's row is drawn, the other rows stay. */
  method DrawFields(v: View, inp: RenderInput, t: string, keys: set<string>, ghost done: set<(string, string)>) returns (r: View)
    requires ViewValid(v) && t in v.cards && t in inp.topics && keys == OwnKeys(DataOf(inp.topics[t]))
    requires forall p :: p in done ==> p.0 != t
    ensures ViewValid(r) && r.order == v.order
    ensures t in r.cards && r.cards == v.cards[t := v.cards[t].(rows := r.cards[t].rows)]
    ensures r.cards[t].rows.Keys == v.cards[t].rows.Keys + keys
    ensures forall k :: k in keys ==>
              RowRendered(r.cards[t].rows[k], PrevRow(v.cards[t].rows, k), t, k, DataOf(inp.topics[t]), inp.marks)
    ensures Tracked(inp, v, t, done) ==> SeriesRegistered(inp.topics, r.cards, r.reg, done + FieldsOf(inp.topics, t))
  {
    r := v;
    var rest := keys;
    ghost var cur := done;
    ghost var track := Tracked(inp, v, t, done);
    while rest != {}
      invariant rest <= keys && Drawing(v, inp, t, keys, rest, track, cur, r)
      invariant forall p :: p in cur <==> p in done || (p.0 == t && p.1 in keys && p.1 !in rest)
      decreases rest
    {
      var k :| k in rest;
      var r2 := DrawField(r, inp, t, k, cur);
      DrawingStep(v, inp, t, keys, rest, track, cur, k, r, r2);
      r := r2;
      cur := cur + {(t, k)};
      rest := rest - {k};
    }
    FieldsOfMembers(inp.topics, t);
    assert cur == done + FieldsOf(inp.topics, t);
  }

  /** One key of `updateCard`: a graph field goes to `updateGraphRow`, any other to `updateRow`. */
  method DrawField(v: View, inp: RenderInput, t: string, k: string, ghost cur: set<(string, string)>) returns (r: View)
    requires ViewValid(v) && t in v.cards && t in inp.topics
    requires (t, k) !in cur
    ensures ViewValid(r) && r.order == v.order
    ensures t in r.cards && k in r.cards[t].rows
    ensures r.cards == v.cards[t := v.cards[t].(rows := v.cards[t].rows[k := r.cards[t].rows[k]])]
    ensures RowRendered(r.cards[t].rows[k], PrevRow(v.cards[t].rows, k), t, k, DataOf(inp.topics[t]), inp.marks)
    ensures Tracked(inp, v, t, cur) ==> SeriesRegistered(inp.topics, r.cards, r.reg, cur + {(t, k)})
  {
    var info := UnwrapField(Prop(DataOf(inp.topics[t]), k));
    if IsGraphPayload(info.raw) {
      var host;
      r, host := UpdateGraphRow(v, inp, t, k, info.raw, cur);
    } else {
      var row := UpdateRowView(PrevRow(v.cards[t].rows, k), k, info, DirtyKey(t, k) in inp.marks);
      r := v.(cards := v.cards[t := v.cards[t].(rows := v.cards[t].rows[k := row])]);
      if Tracked(inp, v, t, cur) {
        RegisteredAfterRows(v.cards, r.cards, r.reg, cur, cur + {(t, k)}, inp.topics);
      }
    }
  }

  /** The end of `updateCard`: the rows whose key is no longer in the data are removed. */
  method DropStaleRows(v: View, t: string, keys: set<string>) returns (r: View)
    requires ViewValid(v) && t in v.cards
    ensures ViewValid(r)
    ensures t in r.cards && r == v.(cards := v.cards[t := v.cards[t].(rows := r.cards[t].rows)])
    ensures r.cards[t].rows.Keys == v.cards[t].rows.Keys * keys
    ensures forall j :: j in r.cards[t].rows ==> r.cards[t].rows[j] == v.cards[t].rows[j]
  {
    var rows := v.cards[t].rows;
    var present := rows.Keys;
    while present != {}
      invariant present <= v.cards[t].rows.Keys
      invariant forall j :: j in rows <==> j in v.cards[t].rows && (j in keys || j in present)
      invariant forall j :: j in rows ==> rows[j] == v.cards[t].rows[j]
      decreases present
    {
      var j :| j in present;
      if j !in keys {
        rows := rows - {j};
      }
      present := present - {j};
    }
    r := v.(cards := v.cards[t := v.cards[t].(rows := rows)]);
  }

  /**
   * `updateGraphRow`: the row becomes a graph row, keeping its host element
   * when it was one already and taking a new one otherwise, then the chart
   * is drawn into that host.
   */
  method UpdateGraphRow(v: View, inp: RenderInput, t: string, k: string, raw: Json, ghost done: set<(string, string)>)
    returns (r: View, host: nat)
    requires ViewValid(v) && t in v.cards && t in inp.topics
    requires raw == FieldRaw(inp.topics, (t, k)) && IsGraphPayload(raw)
    requires (t, k) !in done
    ensures ViewValid(r) && r.order == v.order
    ensures r.cards == v.cards[t := v.cards[t].(rows := v.cards[t].rows[k := GraphRow(k, host)])]
    ensures k in v.cards[t].rows && v.cards[t].rows[k].GraphRow? ==> host == v.cards[t].rows[k].host
    ensures GraphName(raw) in r.reg.charts && r.reg.hostOf[GraphName(raw)] == host
    ensures SeriesLabel(raw, k) in r.reg.charts[GraphName(raw)].datasets
    ensures Tracked(inp, v, t, done) ==> SeriesRegistered(inp.topics, r.cards, r.reg, done + {(t, k)})
  {
    var next := v.nextHost;
    if k in v.cards[t].rows && v.cards[t].rows[k].GraphRow? {
      host := v.cards[t].rows[k].host;
    } else {
      host := next;
      next := next + 1;
    }
    var cards := v.cards[t := v.cards[t].(rows := v.cards[t].rows[k := GraphRow(k, host)])];
    var reg := RenderGraph(v.reg, k, raw, host, LiveHostsIn(cards, v.order), inp.chartJs);
    r := View(cards, v.order, reg, next);
    GraphRowKeepsValid(v, t, k, host, r);
    if Tracked(inp, v, t, done) {
      RegisteredAfterGraph(inp.topics, v.cards, cards, v.order, v.reg, reg, done, t, k, raw, host, inp.chartJs);
    }
  }

  /** A graph row whose host was handed out, and a registry whose hosts were, keep a view valid. */
  lemma GraphRowKeepsValid(v: View, t: string, k: string, host: nat, r: View)
    requires ViewValid(v) && t in v.cards && host < r.nextHost && v.nextHost <= r.nextHost
    requires r.cards == v.cards[t := v.cards[t].(rows := v.cards[t].rows[k := GraphRow(k, host)])] && r.order == v.order
    requires r.reg.Valid() && forall g :: g in r.reg.hostOf ==> r.reg.hostOf[g] < r.nextHost
    ensures ViewValid(r)
  {
  }

  /**
   * `renderGraph(topic, key, graphData, host)`: `ensureGraph` finds or makes
   * the graph's container (a live one moves into `host`), then the field's
   * bound is adopted, its series added, and the snapshot taken when it wins.
   */
  method RenderGraph(reg: Registry, key: string, gd: Json, host: nat, live: set<nat>, chartJs: bool) returns (r: Registry)
    requires reg.Valid()
    ensures r == RenderGraphSpec(reg, key, gd, host, live, chartJs)
  {
    var name := GraphName(gd);
    r := EnsureGraphSpec(reg, name, MaxCountOf(gd).GetOr(60), host, live, chartJs);
    var g := DrawInto(r.charts[name], key, gd);
    r := r.(charts := r.charts[name := g]);
  }

  /** The part of `renderGraph` after `ensureGraph`, on the graph's entry. */
  method DrawInto(g: GraphInfo, key: string, gd: Json) returns (r: GraphInfo)
    ensures r == DrawSeries(g, key, gd)
  {
    var lbl := SeriesLabel(gd, key);
    var mc := MaxCountOf(gd);
    r := g;
    if mc.Some? {
      r := r.(maxCount := mc.value);
    }
    if lbl !in r.datasets {
      r := r.(datasets := r.datasets[lbl := []]);
    }
    var values := Prop(gd, "values");
    if values.JArr? && r.hasChart {
      var current := r.datasets[lbl];
      if |current| == 0 || |values.items| > |current| {
        var pts: seq<ChartPoint> := [];
        var i := 0;
        while i < |values.items|
          invariant 0 <= i <= |values.items|
          invariant pts == SnapshotPoints(values.items)[..i]
        {
          pts := pts + [SnapshotPoint(values.items[i], i)];
          i := i + 1;
        }
        assert pts == SnapshotPoints(values.items);
        r := r.(datasets := r.datasets[lbl := pts]);
      }
    }
  }

  // ---------------------------------------------------------------------------
  // The engine
  // ---------------------------------------------------------------------------

  class Dashboard {
    /** The last data of every topic, as the server sent it. */
    var topicState: map<string, Json>
    /** `dirtyFields`: the keys (see DirtyKey) of the fields the operator has edited since the last save. */
    var dirty: set<string>
    var renderScheduled: bool
    /** Animation-frame callbacks waiting to run the render. */
    var pendingFrames: nat
    /** The cards in the cards container, by topic, and their document order. */
    var cards: map<string, Card>
    var cardOrder: seq<string>
    /** `graphCharts`, and the host element each graph's current container sits in. */
    var charts: map<string, GraphInfo>
    var graphHost: map<string, nat>
    /** The identity the next chart host element gets. */
    var nextHost: nat
    /** Whether Chart.js is loaded. */
    const chartJs: bool

    ghost predicate Valid()
      reads this
    {
      pendingFrames <= 1 && (renderScheduled <==> pendingFrames == 1) && ViewValid(ViewOf())
      && InContainer(ViewOf())
    }

    /** The state a render changes. */
    function ViewOf(): View
      reads this
    {
      View(cards, cardOrder, Reg(), nextHost)
    }

    function Reg(): Registry
      reads this
    {
      Registry(charts, graphHost)
    }

    constructor(chartJsLoaded: bool)
      ensures Valid()
      ensures topicState == map[] && dirty == {} && !renderScheduled && cards == map[] && cardOrder == []
      ensures charts == map[] && chartJs == chartJsLoaded
    {
      topicState := map[];
      dirty := {};
      renderScheduled := false;
      pendingFrames := 0;
      cards := map[];
      cardOrder := [];
      charts := map[];
      graphHost := map[];
      nextHost := 0;
      chartJs := chartJsLoaded;
    }

    // -------------------------------------------------------------------------
    // Dirty marks
    // -------------------------------------------------------------------------

    function IsDirty(topic: string, field: string): bool
      reads this
    {
      DirtyKey(topic, field) in dirty
    }

    method MarkDirty(topic: string, field: string, isDirty: bool)
      modifies this`dirty
      ensures dirty == if isDirty then old(dirty) + {DirtyKey(topic, field)} else old(dirty) - {DirtyKey(topic, field)}
      ensures IsDirty(topic, field) == isDirty
    {
      var key := DirtyKey(topic, field);
      if isDirty {
        dirty := dirty + {key};
      } else {
        dirty := dirty - {key};
      }
    }

    method ClearDirtyForTopic(topic: string)
      modifies this`dirty
      ensures dirty == WithoutTopic(old(dirty), topic)
    {
      var keys := dirty;
      while keys != {}
        invariant keys <= old(dirty)
        invariant dirty == set k | k in old(dirty) && (k in keys || !StartsWith(k, topic + "\0"))
        decreases keys
      {
        var k :| k in keys;
        if StartsWith(k, topic + "\0") {
          dirty := dirty - {k};
        }
        keys := keys - {k};
      }
    }

    // -------------------------------------------------------------------------
    // Render scheduling
    // -------------------------------------------------------------------------

    /** At most one frame is ever pending, however often a render is asked for. */
    method ScheduleRender()
      requires Valid()
      modifies this`renderScheduled, this`pendingFrames
      ensures Valid()
      ensures renderScheduled && pendingFrames == 1
      ensures old(renderScheduled) ==> pendingFrames == old(pendingFrames)
    {
      if renderScheduled {
        return;
      }
      renderScheduled := true;
      pendingFrames := pendingFrames + 1;
    }

    /**
     * The animation frame: clears the flag, then `renderTopics` redraws the
     * cards and charts; every series is registered when no card was new.
     */
    method RunFrame()
      requires Valid() && pendingFrames == 1
      modifies this
      ensures Valid() && !renderScheduled && pendingFrames == 0
      ensures topicState == old(topicState) && dirty == old(dirty)
      ensures DrawnFrom(old(ViewOf()), RenderInput(topicState, dirty, chartJs), ViewOf())
      ensures HasAllCards(old(ViewOf()), RenderInput(topicState, dirty, chartJs)) ==> AllSeriesRegistered(topicState, Reg())
    {
      var v := ViewOf();
      var inp := RenderInput(topicState, dirty, chartJs);
      renderScheduled := false;
      pendingFrames := 0;
      var r := RenderTopics(v, inp);
      DrawnInContainer(v, inp, r);
      Adopt(r);
    }

    /** Takes over the cards, the container order and the chart registry a render produced. */
    method Adopt(r: View)
      requires pendingFrames <= 1 && (renderScheduled <==> pendingFrames == 1)
      requires ViewValid(r) && InContainer(r)
      modifies this`cards, this`cardOrder, this`charts, this`graphHost, this`nextHost
      ensures ViewOf() == r && Valid() && topicState == old(topicState) && dirty == old(dirty)
    {
      cards := r.cards;
      cardOrder := r.order;
      charts := r.reg.charts;
      graphHost := r.reg.hostOf;
      nextHost := r.nextHost;
    }

    // -------------------------------------------------------------------------
    // Inbound messages
    // -------------------------------------------------------------------------

    /**
     * `handleWsMessageText`, with `msg` the result of `JSON.parse` (None for a
     * parse error): a `graph_point` message with data feeds the charts only;
     * a message without a (truthy) topic is ignored; any other replaces the
     * topic's state wholesale and asks for a render.
     */
    method HandleWsMessage(msg: Option<Json>, now: int)
      requires Valid()
      modifies this
      ensures Valid()
      ensures cards == old(cards) && cardOrder == old(cardOrder) && dirty == old(dirty)
      ensures msg.None? ==>
                topicState == old(topicState) && charts == old(charts)
                && renderScheduled == old(renderScheduled) && pendingFrames == old(pendingFrames)
      ensures msg.Some? && IsGraphPointMsg(msg.value) ==>
                topicState == old(topicState) && charts == HandleGraphPointSpec(old(charts), Prop(msg.value, "data"), now)
                && renderScheduled == old(renderScheduled) && pendingFrames == old(pendingFrames)
      ensures msg.Some? && !IsGraphPointMsg(msg.value) && !Truthy(Prop(msg.value, "topic")) ==>
                topicState == old(topicState) && charts == old(charts)
                && renderScheduled == old(renderScheduled) && pendingFrames == old(pendingFrames)
      ensures msg.Some? && !IsGraphPointMsg(msg.value) && Truthy(Prop(msg.value, "topic")) ==>
                topicState == old(topicState)[JsString(Prop(msg.value, "topic")) := DataOf(Prop(msg.value, "data"))]
                && charts == old(charts) && renderScheduled && pendingFrames == 1
    {
      if msg.None? {
        return;
      }
      var m := msg.value;
      if IsGraphPointMsg(m) {
        HandleGraphPoint(Prop(m, "data"), now);
        return;
      }
      var topic := Prop(m, "topic");
      if !Truthy(topic) {
        return;
      }
      topicState := topicState[JsString(topic) := DataOf(Prop(m, "data"))];
      ScheduleRender();
    }

    /** `handleGraphPoint`: append to one series, with the coupled eviction of its siblings. */
    method HandleGraphPoint(data: Json, now: int)
      requires Valid()
      modifies this`charts
      ensures Valid()
      ensures charts == HandleGraphPointSpec(old(charts), data, now)
    {
      var read := ReadPointMsg(data, now);
      if read.None? {
        return;
      }
      var m := read.value;
      if m.graph !in charts || !charts[m.graph].hasChart {
        return;
      }
      if m.series !in charts[m.graph].datasets {
        return;
      }
      var g := charts[m.graph];
      var ds := StreamInto(g, m.series, m.point);
      charts := charts[m.graph := g.(datasets := ds)];
    }

    /** The series of `g` once `p` is streamed into `lbl`, computed as `handleGraphPoint` does. */
    static method StreamInto(g: GraphInfo, lbl: string, p: ChartPoint) returns (ds: map<string, seq<ChartPoint>>)
      requires lbl in g.datasets
      ensures ds == StreamPush(g, lbl, p).datasets
    {
      var grown := g.datasets[lbl] + [p];
      ds := g.datasets[lbl := grown];
      var bound := EffectiveMax(g.maxCount);
      if |grown| > bound {
        ds := ds[lbl := grown[1..]];
        var rest := g.datasets.Keys - {lbl};
        while rest != {}
          invariant rest <= g.datasets.Keys - {lbl}
          invariant ds.Keys == g.datasets.Keys && ds[lbl] == grown[1..]
          invariant forall l :: l in g.datasets && l != lbl ==>
                      ds[l] == if l in rest || |g.datasets[l]| <= bound then g.datasets[l] else Shift(g.datasets[l])
          decreases rest
        {
          var l :| l in rest;
          if |ds[l]| > bound {
            ds := ds[l := Shift(ds[l])];
          }
          rest := rest - {l};
        }
        var spec := StreamPush(g, lbl, p).datasets;
        assert forall l :: l in ds ==> ds[l] == spec[l];
      }
    }

    // -------------------------------------------------------------------------
    // The operator
    // -------------------------------------------------------------------------

    /** Typing into an input row: the row holds what the browser keeps of the typed text (`InputValue`) and the field is marked. */
    method EditInput(t: string, k: string, typed: string)
      requires t in cards && k in cards[t].rows && cards[t].rows[k].InputRow?
      modifies this`cards, this`dirty
      ensures var row := old(cards)[t].rows[k];
              cards == old(cards)[t := old(cards)[t].(rows := old(cards)[t].rows[k := row.(text := InputValue(row.number, typed))])]
      ensures dirty == old(dirty) + {DirtyKey(t, k)}
    {
      var row := cards[t].rows[k];
      cards := cards[t := cards[t].(rows := cards[t].rows[k := row.(text := InputValue(row.number, typed))])];
      MarkDirty(t, k, true);
    }

    /** Toggling a checkbox row: the row shows the new state and the field is marked. */
    method ToggleCheckbox(t: string, k: string, checked: bool)
      requires t in cards && k in cards[t].rows && cards[t].rows[k].BoolRow?
      modifies this`cards, this`dirty
      ensures cards == old(cards)[t := old(cards)[t].(rows := old(cards)[t].rows[k := old(cards)[t].rows[k].(checked := checked)])]
      ensures dirty == old(dirty) + {DirtyKey(t, k)}
    {
      cards := cards[t := cards[t].(rows := cards[t].rows[k := cards[t].rows[k].(checked := checked)])];
      MarkDirty(t, k, true);
    }

    /**
     * `submitTopicUpdate`: the card's checkbox and input rows become the
     * payload; it is sent when the socket is open, and the topic's marks are
     * cleared either way.
     */
    method SubmitTopicUpdate(t: string, wsOpen: bool) returns (sent: Option<Json>)
      requires t in cards
      modifies this`dirty
      ensures sent == if wsOpen then Some(UpdateMessage(t, Payload(cards[t].rows))) else None
      ensures dirty == WithoutTopic(old(dirty), t)
    {
      var rows := cards[t].rows;
      var payload: map<string, Json> := map[];
      var rest := rows.Keys;
      while rest != {}
        invariant rest <= rows.Keys
        invariant forall k :: k in payload <==> k in rows && k !in rest && PayloadEntry(rows[k]).Some?
        invariant forall k :: k in payload ==> payload[k] == PayloadEntry(rows[k]).value
        decreases rest
      {
        var k :| k in rest;
        var entry := PayloadEntry(rows[k]);
        if entry.Some? {
          payload := payload[k := entry.value];
        }
        rest := rest - {k};
      }
      assert payload == Payload(rows);
      sent := if wsOpen then Some(UpdateMessage(t, payload)) else None;
      ClearDirtyForTopic(t);
    }
  }
}
