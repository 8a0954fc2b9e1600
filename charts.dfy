/**
 * The chart registry of the dashboard: one entry per graph name, holding
 * one series of points per label, a point bound `maxCount`, and the host
 * element the graph's container sits in.  Snapshots from topic data and
 * streamed `graph_point` messages update the series.
 */
module Charts {
  import opened Wrappers
  import opened JsonDoc
  import opened JsValue

  /** `Number(x)`: numbers (and booleans) as numbers; other values are kept as what was converted. */
  datatype XCoord = XNum(n: int) | XConverted(raw: Json)

  datatype ChartPoint = ChartPoint(x: XCoord, y: Json)

  /** One registry entry: whether Chart.js drew a chart, the series by label, the point bound. */
  datatype GraphInfo = GraphInfo(hasChart: bool, datasets: map<string, seq<ChartPoint>>, maxCount: int)

  /**
   * The registry together with where each graph's container lives: `hostOf`
   * names the host element (of a graph row) holding the graph's most recent
   * container.
   */
  datatype Registry = Registry(charts: map<string, GraphInfo>, hostOf: map<string, nat>) {
    ghost predicate Valid() {
      charts.Keys == hostOf.Keys
    }
  }

  function ToX(j: Json): XCoord {
    match j
    case JNum(n) => XNum(n)
    case JBool(b) => XNum(if b then 1 else 0)
    case _ => XConverted(j)
  }

  // ---------------------------------------------------------------------------
  // Snapshots
  // ---------------------------------------------------------------------------

  /** The point a snapshot entry becomes: `x` defaults to the entry's index. */
  function SnapshotPoint(p: Json, idx: nat): ChartPoint {
    var x := Prop(p, "x");
    ChartPoint(if x != JNull then ToX(x) else XNum(idx), Prop(p, "y"))
  }

  function SnapshotPoints(values: seq<Json>): (r: seq<ChartPoint>)
    ensures |r| == |values|
    ensures forall i :: 0 <= i < |values| ==> r[i] == SnapshotPoint(values[i], i)
  {
    seq(|values|, i requires 0 <= i < |values| => SnapshotPoint(values[i], i))
  }

  /** A snapshot is applied only to an empty series or when it holds strictly more points. */
  predicate SnapshotWins(current: seq<ChartPoint>, incoming: nat) {
    |current| == 0 || incoming > |current|
  }

  function ApplySnapshot(current: seq<ChartPoint>, values: seq<Json>): seq<ChartPoint> {
    if SnapshotWins(current, |values|) then SnapshotPoints(values) else current
  }

  /** A snapshot never takes points away from a series. */
  lemma SnapshotNeverShrinks(current: seq<ChartPoint>, values: seq<Json>)
    ensures |ApplySnapshot(current, values)| >= |current|
    ensures |current| > 0 && |values| <= |current| ==> ApplySnapshot(current, values) == current
  {
  }

  /** Re-sending the same snapshot changes nothing. */
  lemma SnapshotIdempotent(current: seq<ChartPoint>, values: seq<Json>)
    ensures ApplySnapshot(ApplySnapshot(current, values), values) == ApplySnapshot(current, values)
  {
  }

  // ---------------------------------------------------------------------------
  // Streaming points
  // ---------------------------------------------------------------------------

  /** `Array.prototype.shift` on a series: the oldest point goes, an empty series stays empty. */
  function Shift(s: seq<ChartPoint>): (r: seq<ChartPoint>)
    ensures |s| > 0 ==> r == s[1..]
    ensures |s| == 0 ==> r == []
  {
    if |s| > 0 then s[1..] else s
  }

  /** `graphInfo.maxCount || 60`. */
  function EffectiveMax(m: int): int {
    if m == 0 then 60 else m
  }

  /**
   * One streamed point for series `lbl`: it is appended; when the series
   * then holds more than the bound, its oldest point goes, and so does the
   * oldest point of every other series that is over the bound too.
   */
  function StreamPush(g: GraphInfo, lbl: string, p: ChartPoint): (r: GraphInfo)
    requires lbl in g.datasets
    ensures r.hasChart == g.hasChart && r.maxCount == g.maxCount
    ensures r.datasets.Keys == g.datasets.Keys
  {
    var bound := EffectiveMax(g.maxCount);
    var grown := g.datasets[lbl] + [p];
    if |grown| > bound then
      g.(datasets := map l | l in g.datasets ::
                        if l == lbl then grown[1..]
                        else if |g.datasets[l]| > bound then Shift(g.datasets[l])
                        else g.datasets[l])
    else
      g.(datasets := g.datasets[lbl := grown])
  }

  /** The point's own series ends with it, having lost at most its oldest point. */
  lemma StreamAppends(g: GraphInfo, lbl: string, p: ChartPoint)
    requires lbl in g.datasets
    ensures var s := StreamPush(g, lbl, p).datasets[lbl];
      s == g.datasets[lbl] + [p] || s == (g.datasets[lbl] + [p])[1..]
    ensures var s := StreamPush(g, lbl, p).datasets[lbl];
      g.maxCount >= 0 ==> |s| > 0 && s[|s| - 1] == p
  {
  }

  /**
   * Every other series either stays as it is or loses exactly its oldest
   * point, and it loses it only when it is over the bound and the pushed
   * series overflowed.
   */
  lemma StreamSiblings(g: GraphInfo, lbl: string, p: ChartPoint, other: string)
    requires lbl in g.datasets && other in g.datasets && other != lbl
    ensures var bound := EffectiveMax(g.maxCount);
      var s := StreamPush(g, lbl, p).datasets[other];
      var overflow := |g.datasets[lbl]| + 1 > bound;
      (overflow && |g.datasets[other]| > bound ==> s == Shift(g.datasets[other]))
      && (!(overflow && |g.datasets[other]| > bound) ==> s == g.datasets[other])
  {
  }

  predicate WithinBound(g: GraphInfo) {
    forall l :: l in g.datasets ==> |g.datasets[l]| <= EffectiveMax(g.maxCount)
  }

  /** With a non-negative bound, streaming keeps every series of the graph within the bound. */
  lemma StreamKeepsBound(g: GraphInfo, lbl: string, p: ChartPoint)
    requires lbl in g.datasets && g.maxCount >= 0 && WithinBound(g)
    ensures WithinBound(StreamPush(g, lbl, p))
  {
  }

  /** The last `n` elements of `s` (all of them when there are fewer). */
  function LastN<T>(s: seq<T>, n: nat): (r: seq<T>)
    ensures |r| == if |s| <= n then |s| else n
    ensures r == s[|s| - |r|..]
  {
    if |s| <= n then s else s[|s| - n..]
  }

  function StreamAll(g: GraphInfo, lbl: string, ps: seq<ChartPoint>): (r: GraphInfo)
    requires lbl in g.datasets
    ensures lbl in r.datasets
    decreases |ps|
  {
    if |ps| == 0 then g else StreamAll(StreamPush(g, lbl, ps[0]), lbl, ps[1..])
  }

  /** Streaming points into a series leaves exactly the most recent `maxCount` of them, oldest first. */
  lemma {:induction false} StreamKeepsLastN(g: GraphInfo, lbl: string, ps: seq<ChartPoint>)
    requires lbl in g.datasets && g.maxCount >= 0
    requires |g.datasets[lbl]| <= EffectiveMax(g.maxCount)
    ensures StreamAll(g, lbl, ps).datasets[lbl]
            == LastN(g.datasets[lbl] + ps, EffectiveMax(g.maxCount))
    decreases |ps|
  {
    if |ps| > 0 {
      var bound := EffectiveMax(g.maxCount);
      var g1 := StreamPush(g, lbl, ps[0]);
      var s := g.datasets[lbl];
      StreamPushIsLastN(g, lbl, ps[0]);
      StreamKeepsLastN(g1, lbl, ps[1..]);
      LastNAppend(s + [ps[0]], ps[1..], bound);
      assert s + [ps[0]] + ps[1..] == s + ps;
    }
  }

  lemma StreamPushIsLastN(g: GraphInfo, lbl: string, p: ChartPoint)
    requires lbl in g.datasets && g.maxCount >= 0
    requires |g.datasets[lbl]| <= EffectiveMax(g.maxCount)
    ensures var g1 := StreamPush(g, lbl, p);
      g1.maxCount == g.maxCount && lbl in g1.datasets
      && g1.datasets[lbl] == LastN(g.datasets[lbl] + [p], EffectiveMax(g.maxCount))
      && |g1.datasets[lbl]| <= EffectiveMax(g.maxCount)
  {
  }

  lemma LastNAppend<T>(s: seq<T>, t: seq<T>, n: nat)
    ensures LastN(LastN(s, n) + t, n) == LastN(s + t, n)
  {
    if |s| > n {
      var u := LastN(s, n) + t;
      var v := s + t;
      assert u == v[|s| - n..];
      if |u| > n {
        assert u[|u| - n..] == v[|v| - n..];
      }
    }
  }

  /** What a `graph_point` message asks for: its graph name, label and point, when it names both. */
  datatype PointMsg = PointMsg(graph: string, series: string, point: ChartPoint)

  /** `data.x` when present, else the clock; `data.y` as sent. */
  function ReadPointMsg(data: Json, now: int): Option<PointMsg> {
    var g := Prop(data, "graph");
    var l := Prop(data, "label");
    if !Truthy(data) || !Truthy(g) || !Truthy(l) then None
    else
      var x := Prop(data, "x");
      Some(PointMsg(JsString(g), JsString(l),
                    ChartPoint(if x != JNull then ToX(x) else XNum(now), Prop(data, "y"))))
  }

  /** A point reaches a series only when the graph exists, has a chart and already has that series. */
  predicate Accepts(charts: map<string, GraphInfo>, m: PointMsg) {
    m.graph in charts && charts[m.graph].hasChart && m.series in charts[m.graph].datasets
  }

  /** `handleGraphPoint`: an accepted point is streamed, anything else changes nothing. */
  function HandleGraphPointSpec(charts: map<string, GraphInfo>, data: Json, now: int): (r: map<string, GraphInfo>)
    ensures r.Keys == charts.Keys
    ensures forall n :: n in charts && (ReadPointMsg(data, now).None? || n != ReadPointMsg(data, now).value.graph)
              ==> r[n] == charts[n]
  {
    match ReadPointMsg(data, now)
    case None => charts
    case Some(m) =>
      if Accepts(charts, m) then charts[m.graph := StreamPush(charts[m.graph], m.series, m.point)]
      else charts
  }

  /** Points for an unknown graph, a graph without a chart or an unknown series are dropped, never creating a series. */
  lemma UnknownSeriesDropped(charts: map<string, GraphInfo>, data: Json, now: int)
    requires ReadPointMsg(data, now).Some? && !Accepts(charts, ReadPointMsg(data, now).value)
    ensures HandleGraphPointSpec(charts, data, now) == charts
  {
  }

  // ---------------------------------------------------------------------------
  // Rendering a graph row
  // ---------------------------------------------------------------------------

  /** `graphData.graph || 'unknown'`, as a property key. */
  function GraphName(gd: Json): string {
    var g := Prop(gd, "graph");
    JsString(if Truthy(g) then g else JStr("unknown"))
  }

  /** `graphData.label || key`. */
  function SeriesLabel(gd: Json, key: string): string {
    var l := Prop(gd, "label");
    if Truthy(l) then JsString(l) else key
  }

  /** A numeric, non-zero `max_count`. */
  function MaxCountOf(gd: Json): Option<int> {
    var m := Prop(gd, "max_count");
    if m.JNum? && m.n != 0 then Some(m.n) else None
  }

  /**
   * `ensureGraph`: when the graph's container is in the document (its host is
   * live) the entry is kept and the container moved into `host`; otherwise a
   * new container is made in `host` and a fresh entry, without series,
   * replaces any old one.
   */
  function EnsureGraphSpec(reg: Registry, name: string, maxCount: int, host: nat, live: set<nat>, chartJs: bool): (r: Registry)
    requires reg.Valid()
    ensures r.Valid() && name in r.charts && r.hostOf[name] == host
  {
    if name in reg.hostOf && reg.hostOf[name] in live then
      reg.(hostOf := reg.hostOf[name := host])
    else
      Registry(reg.charts[name := GraphInfo(chartJs, map[], maxCount)], reg.hostOf[name := host])
  }

  /** `renderGraph(topic, key, graphData, host)` with `live` the hosts now in the document. */
  function RenderGraphSpec(reg: Registry, key: string, gd: Json, host: nat, live: set<nat>, chartJs: bool): (r: Registry)
    requires reg.Valid()
    ensures r.Valid()
    ensures GraphName(gd) in r.charts && r.hostOf[GraphName(gd)] == host
    ensures SeriesLabel(gd, key) in r.charts[GraphName(gd)].datasets
    ensures r.charts.Keys == reg.charts.Keys + {GraphName(gd)}
    ensures forall n :: n in reg.charts && n != GraphName(gd) ==> r.charts[n] == reg.charts[n] && r.hostOf[n] == reg.hostOf[n]
  {
    var name := GraphName(gd);
    var r1 := EnsureGraphSpec(reg, name, MaxCountOf(gd).GetOr(60), host, live, chartJs);
    r1.(charts := r1.charts[name := DrawSeries(r1.charts[name], key, gd)])
  }

  /**
   * The graph entry once a field has drawn into it: the field's bound is
   * adopted, its series exists, and the snapshot is applied when it wins.
   */
  function DrawSeries(g: GraphInfo, key: string, gd: Json): (r: GraphInfo)
    ensures r.hasChart == g.hasChart && SeriesLabel(gd, key) in r.datasets
    ensures r.datasets.Keys == g.datasets.Keys + {SeriesLabel(gd, key)}
  {
    var lbl := SeriesLabel(gd, key);
    var mc := MaxCountOf(gd);
    var g1 := if mc.Some? then g.(maxCount := mc.value) else g;
    var series := if lbl in g1.datasets then g1.datasets[lbl] else [];
    var values := Prop(gd, "values");
    var series1 := if values.JArr? && g1.hasChart then ApplySnapshot(series, values.items) else series;
    g1.(datasets := g1.datasets[lbl := series1])
  }

  /**
   * A graph whose container is in the document keeps its chart and every
   * series; the rendered series only grows.
   */
  lemma RenderLiveGraphKeepsSeries(reg: Registry, key: string, gd: Json, host: nat, live: set<nat>, chartJs: bool)
    requires reg.Valid() && GraphName(gd) in reg.charts && reg.hostOf[GraphName(gd)] in live
    ensures var r := RenderGraphSpec(reg, key, gd, host, live, chartJs);
      var name := GraphName(gd);
      r.charts[name].hasChart == reg.charts[name].hasChart
      && (forall l :: l in reg.charts[name].datasets ==>
            l in r.charts[name].datasets && |r.charts[name].datasets[l]| >= |reg.charts[name].datasets[l]|)
      && (forall l :: l in reg.charts[name].datasets && l != SeriesLabel(gd, key) ==>
            r.charts[name].datasets[l] == reg.charts[name].datasets[l])
  {
    var name := GraphName(gd);
    var r1 := EnsureGraphSpec(reg, name, MaxCountOf(gd).GetOr(60), host, live, chartJs);
    assert r1.charts == reg.charts;
    assert RenderGraphSpec(reg, key, gd, host, live, chartJs).charts[name] == DrawSeries(reg.charts[name], key, gd);
    DrawSeriesKeeps(reg.charts[name], key, gd);
  }

  /** Drawing a field into a graph entry keeps every series, and only the field's own can change (and only grow). */
  lemma DrawSeriesKeeps(g: GraphInfo, key: string, gd: Json)
    ensures var r := DrawSeries(g, key, gd);
      (forall l :: l in g.datasets ==> l in r.datasets && |r.datasets[l]| >= |g.datasets[l]|)
      && (forall l :: l in g.datasets && l != SeriesLabel(gd, key) ==> r.datasets[l] == g.datasets[l])
  {
    var lbl := SeriesLabel(gd, key);
    var values := Prop(gd, "values");
    if lbl in g.datasets && values.JArr? {
      SnapshotNeverShrinks(g.datasets[lbl], values.items);
    }
  }

  /** A graph whose container left the document starts over with only the rendered series. */
  lemma RenderDetachedGraphStartsOver(reg: Registry, key: string, gd: Json, host: nat, live: set<nat>, chartJs: bool)
    requires reg.Valid() && !(GraphName(gd) in reg.hostOf && reg.hostOf[GraphName(gd)] in live)
    ensures var r := RenderGraphSpec(reg, key, gd, host, live, chartJs);
      r.charts[GraphName(gd)].datasets.Keys == {SeriesLabel(gd, key)}
      && r.charts[GraphName(gd)].hasChart == chartJs
  {
  }

  // ---------------------------------------------------------------------------
  // The graph rows of a card rendered for the first time
  // ---------------------------------------------------------------------------

  /** A graph field of a card and the host element its row made for it. */
  datatype GraphField = GraphField(key: string, data: Json, host: nat)

  /**
   * The graph rows of a new card rendered while the card is not yet in the
   * document, the order the source uses: the card's own hosts are never live.
   */
  function RenderFieldsDetached(reg: Registry, fields: seq<GraphField>, live: set<nat>, chartJs: bool): (r: Registry)
    requires reg.Valid()
    ensures r.Valid()
    decreases |fields|
  {
    if |fields| == 0 then reg
    else
      var f := fields[0];
      RenderFieldsDetached(RenderGraphSpec(reg, f.key, f.data, f.host, live, chartJs), fields[1..], live, chartJs)
  }

  /**
   * The same rows rendered with the card already in the document: each row's
   * host is live from the moment it is made.
   */
  function RenderFieldsAttached(reg: Registry, fields: seq<GraphField>, live: set<nat>, chartJs: bool): (r: Registry)
    requires reg.Valid()
    ensures r.Valid()
    decreases |fields|
  {
    if |fields| == 0 then reg
    else
      var f := fields[0];
      var live1 := live + {f.host};
      RenderFieldsAttached(RenderGraphSpec(reg, f.key, f.data, f.host, live1, chartJs), fields[1..], live1, chartJs)
  }

  /** Every (graph, series) pair in `done` is registered and its container is live. */
  ghost predicate Registered(reg: Registry, done: set<(string, string)>, live: set<nat>) {
    forall p :: p in done ==>
      p.0 in reg.charts && p.1 in reg.charts[p.0].datasets && p.0 in reg.hostOf && reg.hostOf[p.0] in live
  }

  function Ident(f: GraphField): (string, string) {
    (GraphName(f.data), SeriesLabel(f.data, f.key))
  }

  lemma {:induction false} AttachedKeepsRegistered(reg: Registry, fields: seq<GraphField>, live: set<nat>, chartJs: bool, done: set<(string, string)>)
    requires reg.Valid() && Registered(reg, done, live)
    ensures var r := RenderFieldsAttached(reg, fields, live, chartJs);
      forall p :: p in done || p in (set i | 0 <= i < |fields| :: Ident(fields[i])) ==>
        p.0 in r.charts && p.1 in r.charts[p.0].datasets
    decreases |fields|
  {
    if |fields| > 0 {
      var f := fields[0];
      var live1 := live + {f.host};
      var reg1 := RenderGraphSpec(reg, f.key, f.data, f.host, live1, chartJs);
      forall p | p in done
        ensures p.0 in reg1.charts && p.1 in reg1.charts[p.0].datasets && p.0 in reg1.hostOf && reg1.hostOf[p.0] in live1
      {
        if p.0 == GraphName(f.data) {
          RenderLiveGraphKeepsSeries(reg, f.key, f.data, f.host, live1, chartJs);
        }
      }
      var done1 := done + {Ident(f)};
      assert Registered(reg1, done1, live1);
      AttachedKeepsRegistered(reg1, fields[1..], live1, chartJs, done1);
      forall i | 0 <= i < |fields|
        ensures Ident(fields[i]) in done1 || Ident(fields[i]) in (set j | 0 <= j < |fields[1..]| :: Ident(fields[1..][j]))
      {
        if i > 0 {
          assert fields[1..][i - 1] == fields[i];
        }
      }
    }
  }

  /**
   * With the card in the document while its rows render, every series of
   * every graph row of the card is in the registry afterwards, so streamed
   * points for any of them are kept.
   */
  lemma AttachedCardKeepsEverySeries(reg: Registry, fields: seq<GraphField>, live: set<nat>, chartJs: bool)
    requires reg.Valid()
    ensures var r := RenderFieldsAttached(reg, fields, live, chartJs);
      forall i :: 0 <= i < |fields| ==>
        GraphName(fields[i].data) in r.charts && SeriesLabel(fields[i].data, fields[i].key) in r.charts[GraphName(fields[i].data)].datasets
  {
    AttachedKeepsRegistered(reg, fields, live, chartJs, {});
    var r := RenderFieldsAttached(reg, fields, live, chartJs);
    forall i | 0 <= i < |fields|
      ensures GraphName(fields[i].data) in r.charts && SeriesLabel(fields[i].data, fields[i].key) in r.charts[GraphName(fields[i].data)].datasets
    {
      assert Ident(fields[i]) in (set j | 0 <= j < |fields| :: Ident(fields[j]));
    }
  }

  /** The shape of the demo topic "temperatur": two ring-buffer graph fields sharing graph "temp". */
  function DemoGraphField(lbl: string, host: nat, key: string): GraphField {
    GraphField(key, JObj(map["type" := JStr("graph_xy_ring"), "graph" := JStr("temp"),
                            "label" := JStr(lbl), "max_count" := JNum(5)]), host)
  }

  /**
   * Rendered in the source's order, the second field finds no container in
   * the document and replaces the entry of "temp": the first field's series
   * is gone from the registry and its streamed points are dropped.
   */
  lemma DetachedCardLosesFirstSeries()
    ensures var f1 := DemoGraphField("Ds18b20 \U{00B0}C", 0, "ds18b20");
      var f2 := DemoGraphField("Sht3x \U{00B0}C", 1, "sht3x");
      var r := RenderFieldsDetached(Registry(map[], map[]), [f1, f2], {}, true);
      "temp" in r.charts && "Ds18b20 \U{00B0}C" !in r.charts["temp"].datasets
      && HandleGraphPointSpec(r.charts, DemoPoint(), 0) == r.charts
  {
    var f1 := DemoGraphField("Ds18b20 \U{00B0}C", 0, "ds18b20");
    var f2 := DemoGraphField("Sht3x \U{00B0}C", 1, "sht3x");
    DemoFieldFacts("Ds18b20 \U{00B0}C", 0, "ds18b20");
    DemoFieldFacts("Sht3x \U{00B0}C", 1, "sht3x");
    var reg0 := Registry(map[], map[]);
    var reg1 := RenderGraphSpec(reg0, f1.key, f1.data, f1.host, {}, true);
    var reg2 := RenderGraphSpec(reg1, f2.key, f2.data, f2.host, {}, true);
    assert [f1, f2][1..] == [f2];
    assert [f2][1..] == [];
    assert RenderFieldsDetached(reg1, [f2], {}, true) == RenderFieldsDetached(reg2, [], {}, true) == reg2;
    assert RenderFieldsDetached(reg0, [f1, f2], {}, true) == RenderFieldsDetached(reg1, [f2], {}, true);
    RenderDetachedGraphStartsOver(reg1, f2.key, f2.data, f2.host, {}, true);
    assert reg2.charts["temp"].datasets.Keys == {"Sht3x \U{00B0}C"};
    DemoPointFacts();
    assert !Accepts(reg2.charts, ReadPointMsg(DemoPoint(), 0).value);
  }

  lemma DemoFieldFacts(lbl: string, host: nat, key: string)
    requires lbl != ""
    ensures GraphName(DemoGraphField(lbl, host, key).data) == "temp"
    ensures SeriesLabel(DemoGraphField(lbl, host, key).data, key) == lbl
  {
    var d := DemoGraphField(lbl, host, key).data;
    assert Prop(d, "graph") == JStr("temp");
    assert Prop(d, "label") == JStr(lbl);
  }

  /** A streamed point for the first demo series. */
  function DemoPoint(): Json {
    JObj(map["graph" := JStr("temp"), "label" := JStr("Ds18b20 \U{00B0}C"), "x" := JNum(105000), "y" := JNum(28)])
  }

  lemma DemoPointFacts()
    ensures ReadPointMsg(DemoPoint(), 0).Some?
    ensures ReadPointMsg(DemoPoint(), 0).value.graph == "temp"
    ensures ReadPointMsg(DemoPoint(), 0).value.series == "Ds18b20 \U{00B0}C"
  {
    assert Prop(DemoPoint(), "graph") == JStr("temp");
    assert Prop(DemoPoint(), "label") == JStr("Ds18b20 \U{00B0}C");
  }

  /** The same two fields rendered with the card attached keep both series. */
  lemma AttachedCardKeepsBothDemoSeries()
    ensures var f1 := DemoGraphField("Ds18b20 \U{00B0}C", 0, "ds18b20");
      var f2 := DemoGraphField("Sht3x \U{00B0}C", 1, "sht3x");
      var r := RenderFieldsAttached(Registry(map[], map[]), [f1, f2], {}, true);
      "temp" in r.charts && "Ds18b20 \U{00B0}C" in r.charts["temp"].datasets
      && "Sht3x \U{00B0}C" in r.charts["temp"].datasets
  {
    var f1 := DemoGraphField("Ds18b20 \U{00B0}C", 0, "ds18b20");
    var f2 := DemoGraphField("Sht3x \U{00B0}C", 1, "sht3x");
    DemoFieldFacts("Ds18b20 \U{00B0}C", 0, "ds18b20");
    DemoFieldFacts("Sht3x \U{00B0}C", 1, "sht3x");
    AttachedCardKeepsEverySeries(Registry(map[], map[]), [f1, f2], {}, true);
    assert [f1, f2][0] == f1 && [f1, f2][1] == f2;
  }
}
