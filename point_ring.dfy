/**
 * `PointRingBuffer<N>`: a fixed array of `(x, y)` samples used as a ring,
 * with a graph name and a series label of at most 23 characters each, an
 * optional callback fired on every push and a JSON form `graph_xy_ring`
 * that is both the WebSocket and the preferences representation.
 *
 * The samples' `y` is a `float` in the device code; here it is an integer
 * (floating point is not modelled).  The callback is recorded as a log of
 * the calls it receives.
 */
module PointRing {
  import opened Wrappers
  import opened JsonDoc
  import opened Machine
  import opened RingMath

  /** `char graph_name[24]` / `char label[24]`: room for 23 characters and the terminator. */
  const NameLen: nat := 23

  datatype Point = Point(x: Nat64, y: int)

  /** One call of the `on_push` callback: graph, label, x, y. */
  datatype PushEvent = PushEvent(graph: string, labelName: string, x: Nat64, y: int)

  /** `setGraph` / `setLabel`: `nullptr` clears the name, anything else is cut to 23 characters. */
  function NameOf(s: Option<string>): (r: string)
    ensures |r| <= NameLen && PlainText(r)
    ensures s.None? ==> r == ""
    ensures s.Some? && PlainText(s.value) && |s.value| <= NameLen ==> r == s.value
  {
    match s
    case None => ""
    case Some(t) =>
      if PlainText(t) && |t| <= NameLen then TruncateKeepsFitting(t, NameLen); Truncate(t, NameLen)
      else Truncate(t, NameLen)
  }

  /** `p["x"] | 0ULL`: a number that fits a `uint64_t`, otherwise 0. */
  function XOf(j: Json): Nat64 {
    if j.JNum? && IsU64(j.n) then j.n else 0
  }

  /** `p["y"] | 0.0f`: any number, otherwise 0. */
  function YOf(j: Json): int {
    OrInt(j, 0)
  }

  /** One element of `values` read back; an element that is not an object reads as (0, 0). */
  function PointOf(e: Json): Point {
    Point(XOf(Get(e, "x")), YOf(Get(e, "y")))
  }

  function PointJson(p: Point): Json {
    JObj(map["x" := JNum(p.x), "y" := JNum(p.y)])
  }

  /** `values` of a ring's JSON: the points, oldest first, one object each. */
  function PointsJson(pts: seq<Point>): (r: seq<Json>)
    ensures |r| == |pts|
    ensures forall k :: 0 <= k < |pts| ==> r[k] == PointJson(pts[k])
  {
    seq(|pts|, k requires 0 <= k < |pts| => PointJson(pts[k]))
  }

  /** The object `TypeAdapter<PointRingBuffer<N>>::write` fills, given its `values` array. */
  function RingObject(graph: string, labelName: string, size: nat, count: nat, maxCount: nat,
                      synced: bool, values: seq<Json>): Json
  {
    JObj(map[
      "type" := JStr("graph_xy_ring"),
      "graph" := JStr(graph),
      "label" := JStr(labelName),
      "size" := JNum(size),
      "count" := JNum(count),
      "max_count" := JNum(maxCount),
      "synced" := JBool(synced),
      "values" := JArr(values)])
  }

  /** A ring's JSON: its points, oldest first, as the `values` array. */
  function RingJson(graph: string, labelName: string, size: nat, count: nat, maxCount: nat,
                    synced: bool, pts: seq<Point>): Json
  {
    RingObject(graph, labelName, size, count, maxCount, synced, PointsJson(pts))
  }

  /** `in["values"].as<JsonArray>()`: the elements when `values` is an array, nothing otherwise. */
  function ValuesOf(input: Json): seq<Json> {
    var v := Get(input, "values");
    if v.JArr? then v.items else []
  }

  /** The points `read` keeps: the first `n` elements of `values`, each read by `PointOf`. */
  function ReadPoints(input: Json, n: nat): (r: seq<Point>)
    ensures |r| == if |ValuesOf(input)| <= n then |ValuesOf(input)| else n
    ensures forall k :: 0 <= k < |r| ==> r[k] == PointOf(ValuesOf(input)[k])
  {
    var vs := ValuesOf(input);
    var m := if |vs| <= n then |vs| else n;
    seq(m, k requires 0 <= k < m => PointOf(vs[k]))
  }

  /** `timeSynced()`: the provider's answer, false when no provider is installed. */
  function TimeSynced(provider: Option<bool>): bool {
    provider.GetOr(false)
  }

  /** Reading a ring's own JSON back recovers its points, when they fit the capacity. */
  lemma {:induction false} ReadPointsOfRingJson(graph: string, labelName: string, size: nat, count: nat,
                                                maxCount: nat, synced: bool, pts: seq<Point>, n: nat)
    requires |pts| <= n
    ensures ReadPoints(RingJson(graph, labelName, size, count, maxCount, synced, pts), n) == pts
  {
    var j := RingJson(graph, labelName, size, count, maxCount, synced, pts);
    assert ValuesOf(j) == PointsJson(pts);
    var r := ReadPoints(j, n);
    forall k | 0 <= k < |pts|
      ensures r[k] == pts[k]
    {
      var e := PointJson(pts[k]);
      assert Get(e, "x") == JNum(pts[k].x);
      assert Get(e, "y") == JNum(pts[k].y);
    }
  }

  /** A ring's names read back from its own JSON unchanged. */
  lemma NamesOfRingJson(graph: string, labelName: string, size: nat, count: nat,
                        maxCount: nat, synced: bool, pts: seq<Point>)
    requires |graph| <= NameLen && PlainText(graph) && |labelName| <= NameLen && PlainText(labelName)
    ensures NameOf(Some(OrStr(Get(RingJson(graph, labelName, size, count, maxCount, synced, pts), "graph"), ""))) == graph
    ensures NameOf(Some(OrStr(Get(RingJson(graph, labelName, size, count, maxCount, synced, pts), "label"), ""))) == labelName
  {
  }

  class PointRingBuffer {
    const data: array<Point>
    var head: nat
    var count: nat
    /** `max_count`, always `N`. */
    const maxCount: nat
    var graphName: string
    var labelName: string
    /** Whether an `on_push` callback is installed. */
    var onPush: bool
    /** The calls the callback has received, oldest first. */
    var pushed: seq<PushEvent>

    predicate Valid()
      reads this
    {
      data.Length == maxCount && 0 < maxCount && head < maxCount && count <= maxCount
      && |graphName| <= NameLen && PlainText(graphName)
      && |labelName| <= NameLen && PlainText(labelName)
    }

    /** The points held, oldest first. */
    function Contents(): seq<Point>
      requires Valid()
      reads this, data
    {
      Window(data[..], head, count)
    }

    /** `PointRingBuffer<N>(graph, lbl)`; the default constructor is `graph == lbl == None`. */
    constructor (n: nat, graph: Option<string>, lbl: Option<string>)
      requires 0 < n
      ensures Valid() && fresh(data)
      ensures maxCount == n && Contents() == []
      ensures graphName == NameOf(graph) && labelName == NameOf(lbl)
      ensures !onPush && pushed == []
    {
      data := new Point[n](_ => Point(0, 0));
      head := 0;
      count := 0;
      maxCount := n;
      graphName := NameOf(graph);
      labelName := NameOf(lbl);
      onPush := false;
      pushed := [];
    }

    method SetGraph(g: Option<string>)
      requires Valid()
      modifies this
      ensures Valid() && graphName == NameOf(g)
      ensures head == old(head) && count == old(count) && labelName == old(labelName)
      ensures onPush == old(onPush) && pushed == old(pushed)
    {
      graphName := NameOf(g);
    }

    method SetLabel(l: Option<string>)
      requires Valid()
      modifies this
      ensures Valid() && labelName == NameOf(l)
      ensures head == old(head) && count == old(count) && graphName == old(graphName)
      ensures onPush == old(onPush) && pushed == old(pushed)
    {
      labelName := NameOf(l);
    }

    /** `setCallback(cb, ctx)`: a null `cb` uninstalls the callback. */
    method SetCallback(installed: bool)
      requires Valid()
      modifies this
      ensures Valid() && onPush == installed
      ensures head == old(head) && count == old(count)
      ensures graphName == old(graphName) && labelName == old(labelName) && pushed == old(pushed)
    {
      onPush := installed;
    }

    /**
     * `push(x, y)`: the ring keeps the last `N` points pushed, and the
     * callback, when installed, sees the point with the current names.
     */
    method Push(x: Nat64, y: int)
      requires Valid()
      modifies this, data
      ensures Valid()
      ensures Contents() == LastN(old(Contents()) + [Point(x, y)], maxCount)
      ensures graphName == old(graphName) && labelName == old(labelName) && onPush == old(onPush)
      ensures pushed == old(pushed) + if onPush then [PushEvent(graphName, labelName, x, y)] else []
    {
      ghost var buf := data[..];
      var newHead := (head + 1) % maxCount;
      var newCount := if count < maxCount then count + 1 else count;
      WindowPushMod(buf, head, count, Point(x, y));
      data[head] := Point(x, y);
      assert data[..] == buf[old(head) := Point(x, y)];
      head, count := newHead, newCount;
      if onPush {
        pushed := pushed + [PushEvent(graphName, labelName, x, y)];
      }
    }

    /** `push(y)`: the timestamp is the time provider's clock, or `millis()` when there is none. */
    method PushNow(y: int, clock: Option<Nat64>, millis: Nat32)
      requires Valid()
      modifies this, data
      ensures Valid()
      ensures Contents() == LastN(old(Contents()) + [Point(clock.GetOr(millis), y)], maxCount)
      ensures graphName == old(graphName) && labelName == old(labelName) && onPush == old(onPush)
      ensures pushed == old(pushed) + if onPush then [PushEvent(graphName, labelName, clock.GetOr(millis), y)] else []
    {
      Push(clock.GetOr(millis), y);
    }

    /** `pop(out)`: false on an empty ring, otherwise the oldest point, which is dropped. */
    method Pop() returns (r: Option<Point>)
      requires Valid()
      modifies this
      ensures Valid()
      ensures old(Contents()) == [] <==> r.None?
      ensures r.Some? ==> r.value == old(Contents())[0] && Contents() == old(Contents())[1..]
      ensures r.None? ==> count == old(count)
      ensures head == old(head) && graphName == old(graphName) && labelName == old(labelName)
      ensures onPush == old(onPush) && pushed == old(pushed)
    {
      if count == 0 {
        return None;
      }
      ModIsSlot(head + maxCount - count, maxCount);
      var tail := (head + maxCount - count) % maxCount;
      r := Some(data[tail]);
      WindowPop(data[..], head, count);
      count := count - 1;
    }

    /** `TypeAdapter::write` (also `write_ws` and `write_prefs`): the ring's JSON, points oldest first. */
    method Write(provider: Option<bool>) returns (j: Json)
      requires Valid()
      ensures j == RingJson(graphName, labelName, maxCount, count, maxCount, TimeSynced(provider), Contents())
    {
      var n := maxCount;
      var cnt := count;
      ModIsSlot(head + n - cnt, n);
      var tail := (head + n - cnt) % n;
      ghost var w := Contents();
      var vals: seq<Json> := [];
      var i := 0;
      while i < cnt
        invariant 0 <= i <= cnt
        invariant |vals| == i
        invariant forall k :: 0 <= k < i ==> vals[k] == PointJson(w[k])
      {
        ModIsSlot(tail + i, n);
        assert Slot(tail + i, n) == Slot(head + n - cnt + i, n);
        var idx := (tail + i) % n;
        vals := vals + [PointJson(data[idx])];
        i := i + 1;
      }
      assert vals == PointsJson(w);
      j := RingObject(graphName, labelName, n, cnt, n, TimeSynced(provider), vals);
    }

    /**
     * `TypeAdapter::read`: the ring restarts empty, takes its names from
     * `graph` and `label` (a missing or non-text name is empty) and then the
     * first `N` elements of `values`; it always succeeds.
     */
    method Read(input: Json) returns (ok: bool)
      requires Valid()
      modifies this, data
      ensures Valid() && ok
      ensures graphName == NameOf(Some(OrStr(Get(input, "graph"), "")))
      ensures labelName == NameOf(Some(OrStr(Get(input, "label"), "")))
      ensures Contents() == ReadPoints(input, maxCount)
      ensures onPush == old(onPush) && pushed == old(pushed)
    {
      head := 0;
      count := 0;
      graphName := NameOf(Some(OrStr(Get(input, "graph"), "")));
      labelName := NameOf(Some(OrStr(Get(input, "label"), "")));
      var vals := ValuesOf(input);
      ghost var want := ReadPoints(input, maxCount);
      var i := 0;
      while i < |vals| && i < maxCount
        invariant i <= |vals| && i <= maxCount && i <= |want|
        invariant forall k :: 0 <= k < i ==> data[k] == want[k]
        modifies data
      {
        data[i] := PointOf(vals[i]);
        i := i + 1;
      }
      assert data[..i] == want;
      ModIsSlot(i, maxCount);
      head := i % maxCount;
      count := i;
      WindowOfFilledPrefix(data[..], count);
      ok := true;
    }
  }
}
