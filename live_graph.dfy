/**
 * `LiveGraphManager`: the older live-graph feed.  Every `(graph, label)`
 * pair owns a ring of `maxPoints` samples, created on its first point; every
 * point is broadcast as a `data` message, and a client that connects gets one
 * `init` message per series, in creation order, followed by `init_done`.
 *
 * Samples are `double` pairs in the device code; here they are integer pairs
 * (floating point is not modelled).  What is sent is recorded as messages.
 */
module LiveGraph {
  import opened Wrappers
  import opened RingMath

  datatype Sample = Sample(x: int, y: int)

  datatype Series = Series(graph: string, labelName: string, buf: seq<Sample>, head: nat, count: nat)

  datatype Message =
    | Data(graph: string, labelName: string, x: int, y: int)
    | Init(graph: string, labelName: string, points: seq<Sample>)
    | InitDone

  /**
   * The shape every series keeps: a buffer of `maxPoints` samples, `head` and
   * `count` in range, and, until the ring is full, `head == count` (the ring
   * has not wrapped yet, so its points start at slot 0).
   */
  predicate SeriesOk(s: Series, maxPoints: nat) {
    0 < maxPoints && |s.buf| == maxPoints && s.head < maxPoints && s.count <= maxPoints
    && (s.count < maxPoints ==> s.head == s.count)
  }

  /** The samples a series holds, oldest first. */
  function Points(s: Series, maxPoints: nat): (pts: seq<Sample>)
    requires SeriesOk(s, maxPoints)
    ensures |pts| == s.count
  {
    Window(s.buf, s.head, s.count)
  }

  /** `Series(g, l, maxPoints)`: `buf(maxPoints)` holds value-initialised samples, and the ring is empty. */
  function NewSeries(graph: string, labelName: string, maxPoints: nat): (s: Series)
    requires 0 < maxPoints
    ensures SeriesOk(s, maxPoints) && Points(s, maxPoints) == []
  {
    Series(graph, labelName, seq(maxPoints, _ => Sample(0, 0)), 0, 0)
  }

  /** `_pushRing(s, p)`: write at `head`, advance it modulo `maxPoints`, grow `count` up to `maxPoints`. */
  function PushRing(s: Series, p: Sample, maxPoints: nat): (r: Series)
    requires SeriesOk(s, maxPoints)
    ensures SeriesOk(r, maxPoints)
    ensures r.graph == s.graph && r.labelName == s.labelName
    ensures Points(r, maxPoints) == LastN(Points(s, maxPoints) + [p], maxPoints)
  {
    WindowPushMod(s.buf, s.head, s.count, p);
    ModIsSlot(s.head + 1, maxPoints);
    Series(s.graph, s.labelName, s.buf[s.head := p], (s.head + 1) % maxPoints,
           if s.count < maxPoints then s.count + 1 else s.count)
  }

  predicate Matches(s: Series, graph: string, labelName: string) {
    s.graph == graph && s.labelName == labelName
  }

  /** The index of the first series for `(graph, label)`, if there is one. */
  function FindSeries(series: seq<Series>, graph: string, labelName: string): (r: Option<nat>)
    ensures r.Some? ==> r.value < |series| && Matches(series[r.value], graph, labelName)
    ensures r.Some? ==> forall k :: 0 <= k < r.value ==> !Matches(series[k], graph, labelName)
    ensures r.None? ==> forall k :: 0 <= k < |series| ==> !Matches(series[k], graph, labelName)
  {
    if |series| == 0 then None
    else if Matches(series[0], graph, labelName) then Some(0)
    else
      match FindSeries(series[1..], graph, labelName)
      case None => None
      case Some(k) => Some(k + 1)
  }

  /**
   * The series after `pushData`: the point goes into the first series for
   * its `(graph, label)`, which is appended, empty, when there is none.
   */
  function PushedSeries(series: seq<Series>, graph: string, labelName: string, p: Sample, maxPoints: nat): seq<Series>
    requires 0 < maxPoints && forall k :: 0 <= k < |series| ==> SeriesOk(series[k], maxPoints)
  {
    match FindSeries(series, graph, labelName)
    case Some(i) => series[i := PushRing(series[i], p, maxPoints)]
    case None => series + [PushRing(NewSeries(graph, labelName, maxPoints), p, maxPoints)]
  }

  /**
   * `pushData` changes exactly one series, the one for `(graph, label)`,
   * which then holds the last `maxPoints` of its points; a new series
   * starts from nothing and holds just the point.
   */
  lemma PushedSeriesEffect(series: seq<Series>, graph: string, labelName: string, p: Sample, maxPoints: nat)
    requires 0 < maxPoints && forall k :: 0 <= k < |series| ==> SeriesOk(series[k], maxPoints)
    ensures var r := PushedSeries(series, graph, labelName, p, maxPoints);
            var i := FindSeries(series, graph, labelName).GetOr(|series|);
            && |r| == (if i < |series| then |series| else |series| + 1)
            && Matches(r[i], graph, labelName)
            && SeriesOk(r[i], maxPoints)
            && Points(r[i], maxPoints) == (if i < |series| then LastN(Points(series[i], maxPoints) + [p], maxPoints) else [p])
            && forall k :: 0 <= k < |series| && k != i ==> r[k] == series[k]
  {
    match FindSeries(series, graph, labelName)
    case Some(i) => PushedIntoExisting(series, graph, labelName, p, maxPoints, i);
    case None => PushedIntoNew(series, graph, labelName, p, maxPoints);
  }

  lemma PushedIntoExisting(series: seq<Series>, graph: string, labelName: string, p: Sample, maxPoints: nat, i: nat)
    requires 0 < maxPoints && forall k :: 0 <= k < |series| ==> SeriesOk(series[k], maxPoints)
    requires FindSeries(series, graph, labelName) == Some(i)
    ensures var r := PushedSeries(series, graph, labelName, p, maxPoints);
            && |r| == |series| && i < |series|
            && Matches(r[i], graph, labelName) && SeriesOk(r[i], maxPoints)
            && Points(r[i], maxPoints) == LastN(Points(series[i], maxPoints) + [p], maxPoints)
            && forall k :: 0 <= k < |series| && k != i ==> r[k] == series[k]
  {
    var r := PushedSeries(series, graph, labelName, p, maxPoints);
    assert r == series[i := PushRing(series[i], p, maxPoints)];
  }

  lemma PushedIntoNew(series: seq<Series>, graph: string, labelName: string, p: Sample, maxPoints: nat)
    requires 0 < maxPoints && forall k :: 0 <= k < |series| ==> SeriesOk(series[k], maxPoints)
    requires FindSeries(series, graph, labelName).None?
    ensures var r := PushedSeries(series, graph, labelName, p, maxPoints);
            && |r| == |series| + 1
            && Matches(r[|series|], graph, labelName) && SeriesOk(r[|series|], maxPoints)
            && Points(r[|series|], maxPoints) == [p]
            && forall k :: 0 <= k < |series| ==> r[k] == series[k]
  {
    FirstPointOfNewSeries(graph, labelName, p, maxPoints);
    assert PushedSeries(series, graph, labelName, p, maxPoints)
        == series + [PushRing(NewSeries(graph, labelName, maxPoints), p, maxPoints)];
  }

  /** A series created for a point holds just that point. */
  lemma FirstPointOfNewSeries(graph: string, labelName: string, p: Sample, maxPoints: nat)
    requires 0 < maxPoints
    ensures var s := PushRing(NewSeries(graph, labelName, maxPoints), p, maxPoints);
            Matches(s, graph, labelName) && SeriesOk(s, maxPoints) && Points(s, maxPoints) == [p]
  {
    var q := NewSeries(graph, labelName, maxPoints);
    assert Points(q, maxPoints) + [p] == [p];
  }

  /** The `init` message of one series. */
  function InitOf(s: Series, maxPoints: nat): Message
    requires SeriesOk(s, maxPoints)
  {
    Init(s.graph, s.labelName, Points(s, maxPoints))
  }

  /** What `sendSnapshot` sends a client: one `init` per series, in order, then `init_done`. */
  function Snapshot(series: seq<Series>, maxPoints: nat): (msgs: seq<Message>)
    requires forall k :: 0 <= k < |series| ==> SeriesOk(series[k], maxPoints)
    ensures |msgs| == |series| + 1 && msgs[|series|] == InitDone
    ensures forall k :: 0 <= k < |series| ==> msgs[k] == InitOf(series[k], maxPoints)
  {
    seq(|series|, k requires 0 <= k < |series| => InitOf(series[k], maxPoints)) + [InitDone]
  }

  /** `init_done` closes the snapshot: no other message of a snapshot is `init_done`. */
  lemma InitDoneOnlyLast(series: seq<Series>, maxPoints: nat, k: nat)
    requires forall j :: 0 <= j < |series| ==> SeriesOk(series[j], maxPoints)
    requires k < |series| + 1
    ensures Snapshot(series, maxPoints)[k] == InitDone <==> k == |series|
  {
  }

  /**
   * The inner loop of `sendSnapshot`: the slots from `start` on, where
   * `start` is `head` for a full ring and 0 otherwise.
   */
  method SeriesPoints(s: Series, maxPoints: nat) returns (pts: seq<Sample>)
    requires SeriesOk(s, maxPoints)
    ensures pts == Points(s, maxPoints)
  {
    var start := if s.count == maxPoints then s.head else 0;
    ghost var w := Points(s, maxPoints);
    pts := [];
    var i := 0;
    while i < s.count
      invariant i <= s.count && |pts| == i
      invariant forall k :: 0 <= k < i ==> pts[k] == w[k]
    {
      ModIsSlot(start + i, maxPoints);
      assert Slot(start + i, maxPoints) == Slot(s.head + maxPoints - s.count + i, maxPoints);
      pts := pts + [s.buf[(start + i) % maxPoints]];
      i := i + 1;
    }
  }

  class LiveGraphManager {
    /** `_maxPoints`, 20 by default. */
    const maxPoints: nat
    /** `_series`, in creation order. */
    var series: seq<Series>
    /** The messages `textAll` has sent, oldest first. */
    var sent: seq<Message>

    predicate Valid()
      reads this
    {
      0 < maxPoints && forall k :: 0 <= k < |series| ==> SeriesOk(series[k], maxPoints)
    }

    constructor (maxPoints: nat)
      requires 0 < maxPoints
      ensures Valid() && this.maxPoints == maxPoints && series == [] && sent == []
    {
      this.maxPoints := maxPoints;
      series := [];
      sent := [];
    }

    /**
     * `_getOrCreateSeries`: the first series for `(graph, label)`; when there
     * is none, exactly one new empty series is appended.
     */
    method GetOrCreateSeries(graph: string, labelName: string) returns (idx: nat)
      requires Valid()
      modifies this
      ensures Valid() && idx < |series| && Matches(series[idx], graph, labelName)
      ensures FindSeries(old(series), graph, labelName).Some? ==>
                series == old(series) && Some(idx) == FindSeries(old(series), graph, labelName)
      ensures FindSeries(old(series), graph, labelName).None? ==>
                series == old(series) + [NewSeries(graph, labelName, maxPoints)] && idx == |old(series)|
      ensures sent == old(sent)
    {
      var i := 0;
      while i < |series|
        invariant i <= |series|
        invariant forall k :: 0 <= k < i ==> !Matches(series[k], graph, labelName)
      {
        if Matches(series[i], graph, labelName) {
          return i;
        }
        i := i + 1;
      }
      series := series + [NewSeries(graph, labelName, maxPoints)];
      idx := |series| - 1;
    }

    /** `_pushRing` on the series at `idx`; every other series is untouched. */
    method PushRingAt(idx: nat, p: Sample)
      requires Valid() && idx < |series|
      modifies this
      ensures Valid() && sent == old(sent)
      ensures series == old(series)[idx := PushRing(old(series)[idx], p, maxPoints)]
    {
      series := series[idx := PushRing(series[idx], p, maxPoints)];
    }

    /** `pushData(graph, label, x, y)`: store the point in its series and broadcast it. */
    method PushData(graph: string, labelName: string, x: int, y: int)
      requires Valid()
      modifies this
      ensures Valid() && sent == old(sent) + [Data(graph, labelName, x, y)]
      ensures series == PushedSeries(old(series), graph, labelName, Sample(x, y), maxPoints)
    {
      ghost var found := FindSeries(series, graph, labelName);
      var idx := GetOrCreateSeries(graph, labelName);
      assert found.None? ==> series[idx] == NewSeries(graph, labelName, maxPoints);
      PushRingAt(idx, Sample(x, y));
      sent := sent + [Data(graph, labelName, x, y)];
    }

    /** `pushData(graph, label, y)`: the x value is the now-provider's reading, 0 without one. */
    method PushDataNow(graph: string, labelName: string, y: int, now: Option<int>)
      requires Valid()
      modifies this
      ensures Valid() && sent == old(sent) + [Data(graph, labelName, now.GetOr(0), y)]
      ensures series == PushedSeries(old(series), graph, labelName, Sample(now.GetOr(0), y), maxPoints)
    {
      PushData(graph, labelName, now.GetOr(0), y);
    }

    /** `clearAll`: every series is dropped. */
    method ClearAll()
      requires Valid()
      modifies this
      ensures Valid() && series == [] && sent == old(sent)
    {
      series := [];
    }

    /** `sendSnapshot(client)`: the messages the connecting client receives, in order. */
    method SendSnapshot() returns (msgs: seq<Message>)
      requires Valid()
      ensures msgs == Snapshot(series, maxPoints)
    {
      msgs := [];
      var i := 0;
      while i < |series|
        invariant i <= |series| && |msgs| == i
        invariant forall k :: 0 <= k < i ==> msgs[k] == InitOf(series[k], maxPoints)
      {
        var s := series[i];
        var pts := SeriesPoints(s, maxPoints);
        msgs := msgs + [Init(s.graph, s.labelName, pts)];
        i := i + 1;
      }
      msgs := msgs + [InitDone];
    }
  }
}
