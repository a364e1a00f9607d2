// The validator of docs/presentations/validate_contracts.py for the deck part:
// loops over sources, slides and elements that grow an index of the metrics and
// sets of ids. It accepts exactly the decks that keep the contract.

module DeckValidator {
  import opened Options
  import opened DeckContract

  function ToSet(ids: seq<string>): set<string> {
    set id | id in ids
  }

  // ---- unique ids: the set is as large as the list

  lemma {:induction false} SetSize(ids: seq<string>)
    ensures |ToSet(ids)| <= |ids|
    ensures |ToSet(ids)| == |ids| <==> Distinct(ids)
  {
    if ids == [] {
    } else {
      var before, last := ids[..|ids| - 1], ids[|ids| - 1];
      SetSize(before);
      assert ids == before + [last];
      assert ToSet(ids) == ToSet(before) + {last};
      if last in before {
        assert ToSet(ids) == ToSet(before);
        var i :| 0 <= i < |before| && before[i] == last;
        assert ids[i] == ids[|ids| - 1];
      } else {
        assert |ToSet(ids)| == |ToSet(before)| + 1;
        assert Distinct(ids) <==> Distinct(before);
      }
    }
  }

  method CheckUnique(ids: seq<string>) returns (ok: bool)
    ensures ok <==> Distinct(ids)
  {
    SetSize(ids);
    ok := |set id | id in ids| == |ids|;
  }

  lemma DistinctConcat(a: seq<string>, b: seq<string>)
    ensures Distinct(a + b) <==> Distinct(a) && Distinct(b) && ToSet(a) !! ToSet(b)
  {
    var all := a + b;
    if Distinct(all) {
      assert forall i, j :: 0 <= i < j < |a| ==> all[i] == a[i] && all[j] == a[j];
      forall i, j | 0 <= i < j < |b| ensures b[i] != b[j] {
        assert all[|a| + i] == b[i] && all[|a| + j] == b[j];
      }
      forall i, j | 0 <= i < |a| && 0 <= j < |b| ensures a[i] != b[j] {
        assert all[i] == a[i] && all[|a| + j] == b[j];
      }
    } else {
      var i, j :| 0 <= i < j < |all| && all[i] == all[j];
      if Distinct(a) && Distinct(b) {
        assert i < |a| <= j;
        assert all[i] in ToSet(a) && all[j] in ToSet(b);
      }
    }
  }

  // ---- the index of the metrics

  function MetricIndex(s: Source, n: nat): map<Ref, Metric>
    requires n <= |s.metrics|
  {
    if n == 0 then map[]
    else MetricIndex(s, n - 1)[Ref(s.id, s.metrics[n - 1].id) := s.metrics[n - 1]]
  }

  function Index(sources: seq<Source>): map<Ref, Metric> {
    if sources == [] then map[]
    else
      var last := sources[|sources| - 1];
      Index(sources[..|sources| - 1]) + MetricIndex(last, |last.metrics|)
  }

  lemma {:induction false} MetricIndexExact(s: Source, n: nat, ref: Ref)
    requires n <= |s.metrics| && Distinct(MetricIds(s.metrics))
    ensures ref in MetricIndex(s, n) ==>
              exists k :: 0 <= k < n && ref == Ref(s.id, s.metrics[k].id) && MetricIndex(s, n)[ref] == s.metrics[k]
    ensures forall k :: 0 <= k < n && ref == Ref(s.id, s.metrics[k].id) ==>
              ref in MetricIndex(s, n) && MetricIndex(s, n)[ref] == s.metrics[k]
  {
    if n == 0 {
    } else {
      MetricIndexExact(s, n - 1, ref);
      forall k | 0 <= k < n - 1 ensures s.metrics[k].id != s.metrics[n - 1].id {
        assert MetricIds(s.metrics)[k] != MetricIds(s.metrics)[n - 1];
      }
    }
  }

  // Metric k of source i has the reference.
  predicate MetricAt(sources: seq<Source>, i: int, k: int, ref: Ref) {
    0 <= i < |sources| && 0 <= k < |sources[i].metrics| && ref == Ref(sources[i].id, sources[i].metrics[k].id)
  }

  lemma {:induction false} IndexExact(sources: seq<Source>, ref: Ref)
    requires SourcesOk(sources)
    ensures ref in Index(sources) ==>
              exists i, k :: MetricAt(sources, i, k, ref) && Index(sources)[ref] == sources[i].metrics[k]
    ensures forall i, k :: MetricAt(sources, i, k, ref) ==>
              ref in Index(sources) && Index(sources)[ref] == sources[i].metrics[k]
  {
    if sources == [] {
    } else {
      var before, last := sources[..|sources| - 1], sources[|sources| - 1];
      assert SourcesOk(before) by {
        assert SourceIds(before) == SourceIds(sources)[..|before|];
      }
      IndexExact(before, ref);
      MetricIndexExact(last, |last.metrics|, ref);
      forall i | 0 <= i < |before| ensures sources[i].id != last.id {
        assert SourceIds(sources)[i] != SourceIds(sources)[|sources| - 1];
      }
      if ref in MetricIndex(last, |last.metrics|) {
        var k :| 0 <= k < |last.metrics| && ref == Ref(last.id, last.metrics[k].id)
          && MetricIndex(last, |last.metrics|)[ref] == last.metrics[k];
        assert MetricAt(sources, |sources| - 1, k, ref);
      } else if ref in Index(before) {
        var i, k :| MetricAt(before, i, k, ref) && Index(before)[ref] == before[i].metrics[k];
        assert MetricAt(sources, i, k, ref);
      }
      forall i, k | MetricAt(sources, i, k, ref)
        ensures ref in Index(sources) && Index(sources)[ref] == sources[i].metrics[k]
      {
        if i < |before| {
          assert MetricAt(before, i, k, ref);
        }
      }
    }
  }

  // The nested function `resolve`.
  predicate Resolve(metrics: map<Ref, Metric>, ref: Ref, shown: Option<Num>, unit: Option<string>) {
    && ref in metrics
    && (shown.Some? ==> shown.value == metrics[ref].value)
    && (unit.Some? ==> unit.value == metrics[ref].unit)
  }

  lemma ResolveMeansBacked(sources: seq<Source>, ref: Ref, shown: Option<Num>, unit: Option<string>)
    requires SourcesOk(sources)
    ensures Resolve(Index(sources), ref, shown, unit) <==> Backed(sources, ref, shown, unit)
  {
    IndexExact(sources, ref);
    if Resolve(Index(sources), ref, shown, unit) {
      var i, k :| MetricAt(sources, i, k, ref) && Index(sources)[ref] == sources[i].metrics[k];
      assert Backs(sources[i], sources[i].metrics[k], ref, shown, unit);
    }
    if Backed(sources, ref, shown, unit) {
      var i, k :| 0 <= i < |sources| && 0 <= k < |sources[i].metrics|
        && Backs(sources[i], sources[i].metrics[k], ref, shown, unit);
      assert MetricAt(sources, i, k, ref);
    }
  }

  method CheckSources(sources: seq<Source>) returns (ok: bool, metrics: map<Ref, Metric>)
    ensures ok <==> SourcesOk(sources)
    ensures ok ==> metrics == Index(sources)
  {
    metrics := map[];
    ok := CheckUnique(SourceIds(sources));
    if !ok {
      return;
    }
    for n := 0 to |sources|
      invariant forall i :: 0 <= i < n ==> SourceOk(sources[i])
      invariant metrics == Index(sources[..n])
    {
      assert sources[..n + 1][..n] == sources[..n];
      var s := sources[n];
      var unique := CheckUnique(MetricIds(s.metrics));
      var dated := CheckPeriod(s.period);
      if !s.fixtureOnly || !dated || !unique {
        return false, metrics;
      }
      ghost var before := metrics;
      for k := 0 to |s.metrics|
        invariant forall i :: 0 <= i < k ==> MetricOk(s.metrics[i], s)
        invariant metrics == before + MetricIndex(s, k)
      {
        var m := s.metrics[k];
        if m.periodKey != s.period.key || !m.value.Finite? {
          return false, metrics;
        }
        metrics := metrics[Ref(s.id, m.id) := m];
      }
    }
    assert sources[..|sources|] == sources;
    ok := true;
  }

  // ---- bounds, periods and the number of slides

  method CheckBounds(b: Box) returns (ok: bool)
    ensures ok <==> BoxOk(b)
    ensures ok <==> b.x + b.w <= 1.000000001 && b.y + b.h <= 1.000000001
  {
    ok := true;
    if b.x + b.w > EDGE {
      return false;
    }
    if b.y + b.h > EDGE {
      return false;
    }
  }

  method CheckPeriod(p: Period) returns (ok: bool)
    ensures ok <==> PeriodOk(p)
    ensures ok <==> p.start.Aware? && p.endExclusive.Aware? && p.start.instant < p.endExclusive.instant
  {
    if p.start.Naive? || p.endExclusive.Naive? {
      return false;
    }
    ok := p.start.instant < p.endExclusive.instant;
  }

  method CheckCount(count: SlideCount, slides: nat) returns (ok: bool)
    ensures ok <==> CountOk(count, slides)
  {
    match count {
      case Exact(n) => ok := slides == n;
      case Between(lo, hi) => ok := lo <= slides && slides <= hi;
    }
  }

  // ---- claims

  function ClaimSources(claims: seq<Claim>): set<string> {
    if claims == [] then {}
    else
      var last := claims[|claims| - 1];
      ClaimSources(claims[..|claims| - 1]) + if last.metric.Some? then {last.metric.value.source} else {}
  }

  lemma {:induction false} ClaimSourcesMean(claims: seq<Claim>, source: string)
    ensures source in ClaimSources(claims) <==>
              exists i :: 0 <= i < |claims| && claims[i].metric.Some? && claims[i].metric.value.source == source
  {
    if claims == [] {
    } else {
      var before := claims[..|claims| - 1];
      ClaimSourcesMean(before, source);
      if source in ClaimSources(before) {
        var i :| 0 <= i < |before| && before[i].metric.Some? && before[i].metric.value.source == source;
        assert claims[i] == before[i];
      }
    }
  }

  method CheckClaims(sources: seq<Source>, metrics: map<Ref, Metric>, claims: seq<Claim>)
      returns (ok: bool, used: set<string>)
    requires SourcesOk(sources) && metrics == Index(sources)
    ensures ok <==> forall i :: 0 <= i < |claims| ==> ClaimOk(sources, claims[i])
    ensures ok ==> used == ClaimSources(claims)
  {
    used := {};
    for n := 0 to |claims|
      invariant forall i :: 0 <= i < n ==> ClaimOk(sources, claims[i])
      invariant used == ClaimSources(claims[..n])
    {
      assert claims[..n + 1][..n] == claims[..n];
      var c := claims[n];
      if c.numeric.Some? && (c.metric.None? || c.unit.None?) {
        return false, used;
      }
      if c.metric.Some? {
        ResolveMeansBacked(sources, c.metric.value, c.numeric, c.unit);
        if c.classification != "observed" || !Resolve(metrics, c.metric.value, c.numeric, c.unit) {
          return false, used;
        }
        used := used + {c.metric.value.source};
      }
    }
    assert claims[..|claims|] == claims;
    ok := true;
  }

  // ---- charts

  function PointSources(points: seq<Point>): set<string> {
    if points == [] then {} else PointSources(points[..|points| - 1]) + {points[|points| - 1].metric.source}
  }

  lemma {:induction false} PointSourcesMean(points: seq<Point>, source: string)
    ensures source in PointSources(points) <==> exists j :: 0 <= j < |points| && points[j].metric.source == source
  {
    if points == [] {
    } else {
      PointSourcesMean(points[..|points| - 1], source);
    }
  }

  function SeriesSources(series: seq<seq<Point>>): set<string> {
    if series == [] then {} else SeriesSources(series[..|series| - 1]) + PointSources(series[|series| - 1])
  }

  lemma {:induction false} SeriesSourcesMean(series: seq<seq<Point>>, source: string)
    ensures source in SeriesSources(series) <==> exists i :: 0 <= i < |series| && source in PointSources(series[i])
  {
    if series == [] {
    } else {
      SeriesSourcesMean(series[..|series| - 1], source);
    }
  }

  method CheckPoints(sources: seq<Source>, metrics: map<Ref, Metric>, points: seq<Point>, unit: string)
    returns (ok: bool, used: set<string>)
    requires SourcesOk(sources) && metrics == Index(sources)
    ensures ok <==> forall i :: 0 <= i < |points| ==> PointOk(sources, points[i], unit)
    ensures ok ==> used == PointSources(points)
  {
    used := {};
    for n := 0 to |points|
      invariant forall i :: 0 <= i < n ==> PointOk(sources, points[i], unit)
      invariant used == PointSources(points[..n])
    {
      assert points[..n + 1][..n] == points[..n];
      ResolveMeansBacked(sources, points[n].metric, Some(points[n].value), Some(unit));
      if !Resolve(metrics, points[n].metric, Some(points[n].value), Some(unit)) {
        return false, used;
      }
      used := used + {points[n].metric.source};
    }
    assert points[..|points|] == points;
    ok := true;
  }

  method CheckChart(sources: seq<Source>, metrics: map<Ref, Metric>, chart: Body) returns (ok: bool, used: set<string>)
    requires SourcesOk(sources) && metrics == Index(sources) && chart.Chart?
    ensures ok <==>
              && (forall i :: 0 <= i < |chart.series| ==>
                 SeriesOk(sources, chart.series[i], chart.unit, |chart.categories|))
              && (chart.chartType in {"bar", "column"} ==> chart.zeroBaseline)
    ensures ok ==> used == SeriesSources(chart.series)
  {
    used := {};
    for n := 0 to |chart.series|
      invariant forall i :: 0 <= i < n ==> SeriesOk(sources, chart.series[i], chart.unit, |chart.categories|)
      invariant used == SeriesSources(chart.series[..n])
    {
      assert chart.series[..n + 1][..n] == chart.series[..n];
      var points := chart.series[n];
      if |points| != |chart.categories| {
        return false, used;
      }
      var fine, from := CheckPoints(sources, metrics, points, chart.unit);
      if !fine {
        return false, used;
      }
      used := used + from;
    }
    assert chart.series[..|chart.series|] == chart.series;
    ok := (chart.chartType == "bar" || chart.chartType == "column") ==> chart.zeroBaseline;
  }

  // ---- tables

  function CellSources(cells: seq<Cell>): set<string> {
    if cells == [] then {}
    else
      var last := cells[|cells| - 1];
      CellSources(cells[..|cells| - 1]) + if last.metric.Some? then {last.metric.value.source} else {}
  }

  lemma {:induction false} CellSourcesMean(cells: seq<Cell>, source: string)
    ensures source in CellSources(cells) <==>
              exists j :: 0 <= j < |cells| && cells[j].metric.Some? && cells[j].metric.value.source == source
  {
    if cells == [] {
    } else {
      var before := cells[..|cells| - 1];
      CellSourcesMean(before, source);
      if source in CellSources(before) {
        var j :| 0 <= j < |before| && before[j].metric.Some? && before[j].metric.value.source == source;
        assert cells[j] == before[j];
      }
    }
  }

  function TableSources(rows: seq<seq<Cell>>): set<string> {
    if rows == [] then {} else TableSources(rows[..|rows| - 1]) + CellSources(rows[|rows| - 1])
  }

  lemma {:induction false} TableSourcesMean(rows: seq<seq<Cell>>, source: string)
    ensures source in TableSources(rows) <==> exists i :: 0 <= i < |rows| && source in CellSources(rows[i])
  {
    if rows == [] {
    } else {
      TableSourcesMean(rows[..|rows| - 1], source);
    }
  }

  method CheckRow(sources: seq<Source>, metrics: map<Ref, Metric>, row: seq<Cell>) returns (ok: bool, used: set<string>)
    requires SourcesOk(sources) && metrics == Index(sources)
    ensures ok <==> forall i :: 0 <= i < |row| ==> CellOk(sources, row[i])
    ensures ok ==> used == CellSources(row)
  {
    used := {};
    for n := 0 to |row|
      invariant forall i :: 0 <= i < n ==> CellOk(sources, row[i])
      invariant used == CellSources(row[..n])
    {
      assert row[..n + 1][..n] == row[..n];
      var cell := row[n];
      if cell.value.Number? && cell.metric.None? {
        return false, used;
      }
      if cell.metric.Some? {
        ResolveMeansBacked(sources, cell.metric.value, ShownIn(cell), None);
        if !Resolve(metrics, cell.metric.value, ShownIn(cell), None) {
          return false, used;
        }
        used := used + {cell.metric.value.source};
      }
    }
    assert row[..|row|] == row;
    ok := true;
  }

  method CheckTable(sources: seq<Source>, metrics: map<Ref, Metric>, table: Body) returns (ok: bool, used: set<string>)
    requires SourcesOk(sources) && metrics == Index(sources) && table.Table?
    ensures ok <==> forall i :: 0 <= i < |table.rows| ==> RowOk(sources, table.rows[i], |table.headers|)
    ensures ok ==> used == TableSources(table.rows)
  {
    used := {};
    for n := 0 to |table.rows|
      invariant forall i :: 0 <= i < n ==> RowOk(sources, table.rows[i], |table.headers|)
      invariant used == TableSources(table.rows[..n])
    {
      assert table.rows[..n + 1][..n] == table.rows[..n];
      if |table.rows[n]| != |table.headers| {
        return false, used;
      }
      var fine, from := CheckRow(sources, metrics, table.rows[n]);
      if !fine {
        return false, used;
      }
      used := used + from;
    }
    assert table.rows[..|table.rows|] == table.rows;
    ok := true;
  }

  // ---- diagrams

  method CheckDiagram(sources: seq<Source>, diagram: Body) returns (ok: bool)
    requires diagram.Diagram?
    ensures ok <==> BodyOk(sources, [], diagram)
  {
    var known := false;
    for n := 0 to |sources|
      invariant known <==> exists i :: 0 <= i < n && GraphSource(sources[i], diagram.source)
    {
      known := known || (sources[n].id == diagram.source
        && (sources[n].kind == "dmind_snapshot" || sources[n].kind == "matrix_snapshot"));
    }
    var nodes := NodeIds(diagram.nodes);
    var uniqueNodes := CheckUnique(nodes);
    var uniqueEdges := CheckUnique(EdgeIds(diagram.edges));
    if !known || !uniqueNodes || !uniqueEdges {
      return false;
    }
    for n := 0 to |diagram.nodes|
      invariant forall i :: 0 <= i < n ==> BoxOk(diagram.nodes[i].box)
    {
      var inside := CheckBounds(diagram.nodes[n].box);
      if !inside {
        return false;
      }
    }
    for n := 0 to |diagram.edges|
      invariant forall i :: 0 <= i < n ==> EdgeOk(diagram.edges[i], diagram.nodes)
    {
      if diagram.edges[n].from !in nodes || diagram.edges[n].to !in nodes {
        return false;
      }
    }
    ok := true;
  }

  // ---- elements

  function BodySources(b: Body): set<string> {
    match b
    case Chart(_, _, _, _, series) => SeriesSources(series)
    case Table(_, rows) => TableSources(rows)
    case Diagram(source, _, _) => {source}
    case _ => {}
  }

  lemma BodySourcesMean(b: Body, source: string)
    ensures source in BodySources(b) <==> BodyUses(b, source)
  {
    match b {
      case Chart(_, _, _, _, series) =>
        SeriesSourcesMean(series, source);
        forall i | 0 <= i < |series|
          ensures source in PointSources(series[i]) <==>
                  exists j :: 0 <= j < |series[i]| && series[i][j].metric.source == source
        {
          PointSourcesMean(series[i], source);
        }
      case Table(_, rows) =>
        SeriesOfCells(rows, source);
      case _ =>
    }
  }

  lemma SeriesOfCells(rows: seq<seq<Cell>>, source: string)
    ensures source in TableSources(rows) <==>
              exists i, j :: 0 <= i < |rows| && 0 <= j < |rows[i]| && rows[i][j].metric.Some?
                && rows[i][j].metric.value.source == source
  {
    TableSourcesMean(rows, source);
    forall i | 0 <= i < |rows|
      ensures source in CellSources(rows[i]) <==>
                exists j :: 0 <= j < |rows[i]| && rows[i][j].metric.Some? && rows[i][j].metric.value.source == source
    {
      CellSourcesMean(rows[i], source);
    }
  }

  method CheckElement(sources: seq<Source>, metrics: map<Ref, Metric>, claims: seq<Claim>, e: Element)
    returns (ok: bool, used: set<string>)
    requires SourcesOk(sources) && metrics == Index(sources)
    ensures ok <==> ElementOk(sources, claims, e)
    ensures ok ==> used == BodySources(e.body)
  {
    used := {};
    var inside := CheckBounds(e.box);
    if !inside {
      return false, used;
    }
    match e.body {
      case TextBody(ids) =>
        ok := forall i :: 0 <= i < |ids| ==> ids[i] in ClaimIds(claims);
      case Chart(_, _, _, _, _) =>
        ok, used := CheckChart(sources, metrics, e.body);
      case Table(_, _) =>
        ok, used := CheckTable(sources, metrics, e.body);
      case Diagram(source, _, _) =>
        ok := CheckDiagram(sources, e.body);
        used := {source};
      case Image(provenance) =>
        ok := provenance == "fixture_placeholder";
      case OtherBody =>
        ok := true;
    }
  }

  function ElementSources(elements: seq<Element>): set<string> {
    if elements == [] then {}
    else ElementSources(elements[..|elements| - 1]) + BodySources(elements[|elements| - 1].body)
  }

  lemma {:induction false} ElementSourcesMean(elements: seq<Element>, source: string)
    ensures source in ElementSources(elements) <==>
            exists i :: 0 <= i < |elements| && BodyUses(elements[i].body, source)
  {
    if elements == [] {
    } else {
      ElementSourcesMean(elements[..|elements| - 1], source);
      BodySourcesMean(elements[|elements| - 1].body, source);
    }
  }

  lemma NotedMeans(s: Slide)
    ensures EvidenceNoted(s) <==> ClaimSources(s.claims) + ElementSources(s.elements) <= ToSet(s.noteSources)
  {
    forall source
      ensures SlideUses(s, source) <==> source in ClaimSources(s.claims) + ElementSources(s.elements)
    {
      ClaimSourcesMean(s.claims, source);
      ElementSourcesMean(s.elements, source);
    }
  }

  // ---- slides

  // One slide against the ids of the slides before it: unique ids, new ids, and
  // the rest of the contract.
  method CheckSlide(sources: seq<Source>, metrics: map<Ref, Metric>, layouts: set<string>, s: Slide,
                    claimIds: set<string>, elementIds: set<string>)
    returns (ok: bool)
    requires SourcesOk(sources) && metrics == Index(sources)
    ensures ok <==>
              && SlideOk(sources, layouts, s)
              && Distinct(ClaimIds(s.claims)) && ToSet(ClaimIds(s.claims)) !! claimIds
              && Distinct(ElementIds(s.elements)) && ToSet(ElementIds(s.elements)) !! elementIds
  {
    var local := ClaimIds(s.claims);
    var uniqueClaims := CheckUnique(local);
    var ids := ElementIds(s.elements);
    var uniqueElements := CheckUnique(ids);
    if !uniqueClaims || !uniqueElements || !(ToSet(local) !! claimIds) || !(ToSet(ids) !! elementIds) {
      return false;
    }
    ok := CheckContents(sources, metrics, layouts, s);
  }

  method CheckContents(sources: seq<Source>, metrics: map<Ref, Metric>, layouts: set<string>, s: Slide)
      returns (ok: bool)
    requires SourcesOk(sources) && metrics == Index(sources)
    ensures ok <==> SlideOk(sources, layouts, s)
  {
    var known := forall i :: 0 <= i < |s.noteSources| ==> s.noteSources[i] in SourceIds(sources);
    if s.layout !in layouts || !known {
      return false;
    }
    var fine, used := CheckClaims(sources, metrics, s.claims);
    if !fine {
      return false;
    }
    var shown: set<string>;
    fine, shown := CheckElements(sources, metrics, s.claims, s.elements);
    if !fine {
      return false;
    }
    NotedMeans(s);
    ok := used + shown <= ToSet(s.noteSources);
  }

  method CheckElements(sources: seq<Source>, metrics: map<Ref, Metric>, claims: seq<Claim>, elements: seq<Element>)
    returns (ok: bool, used: set<string>)
    requires SourcesOk(sources) && metrics == Index(sources)
    ensures ok <==> forall i :: 0 <= i < |elements| ==> ElementOk(sources, claims, elements[i])
    ensures ok ==> used == ElementSources(elements)
  {
    used := {};
    for n := 0 to |elements|
      invariant forall i :: 0 <= i < n ==> ElementOk(sources, claims, elements[i])
      invariant used == ElementSources(elements[..n])
    {
      assert elements[..n + 1][..n] == elements[..n];
      var fine, from := CheckElement(sources, metrics, claims, elements[n]);
      if !fine {
        return false, used;
      }
      used := used + from;
    }
    assert elements[..|elements|] == elements;
    ok := true;
  }

  // ---- the deck

  // What the loop over the slides has established for the first n of them.
  ghost predicate SlidesFine(sources: seq<Source>, layouts: set<string>, slides: seq<Slide>) {
    && (forall i :: 0 <= i < |slides| ==> SlideOk(sources, layouts, slides[i]))
    && Distinct(AllClaimIds(slides)) && Distinct(AllElementIds(slides))
  }

  lemma SlidesFineLast(sources: seq<Source>, layouts: set<string>, before: seq<Slide>, s: Slide)
    ensures SlidesFine(sources, layouts, before + [s]) <==>
              && SlidesFine(sources, layouts, before) && SlideOk(sources, layouts, s)
              && Distinct(ClaimIds(s.claims)) && ToSet(ClaimIds(s.claims)) !! ToSet(AllClaimIds(before))
              && Distinct(ElementIds(s.elements)) && ToSet(ElementIds(s.elements)) !! ToSet(AllElementIds(before))
  {
    var all := before + [s];
    assert all[..|before|] == before;
    DistinctConcat(AllClaimIds(before), ClaimIds(s.claims));
    DistinctConcat(AllElementIds(before), ElementIds(s.elements));
    assert forall i :: 0 <= i < |before| ==> all[i] == before[i];
    assert all[|before|] == s;
  }

  lemma {:induction false} NotFineLonger(sources: seq<Source>, layouts: set<string>, slides: seq<Slide>, n: nat)
    requires n <= |slides| && !SlidesFine(sources, layouts, slides[..n])
    ensures !SlidesFine(sources, layouts, slides)
    decreases |slides| - n
  {
    if n < |slides| {
      SlidesFineLast(sources, layouts, slides[..n], slides[n]);
      assert slides[..n] + [slides[n]] == slides[..n + 1];
      NotFineLonger(sources, layouts, slides, n + 1);
    } else {
      assert slides[..n] == slides;
    }
  }

  method CheckSlides(sources: seq<Source>, metrics: map<Ref, Metric>, layouts: set<string>, slides: seq<Slide>)
    returns (ok: bool)
    requires SourcesOk(sources) && metrics == Index(sources)
    ensures ok <==> SlidesFine(sources, layouts, slides)
  {
    var claimIds, elementIds: set<string> := {}, {};
    for n := 0 to |slides|
      invariant SlidesFine(sources, layouts, slides[..n])
      invariant claimIds == ToSet(AllClaimIds(slides[..n])) && elementIds == ToSet(AllElementIds(slides[..n]))
    {
      var s := slides[n];
      assert slides[..n + 1] == slides[..n] + [s] && slides[..n + 1][..n] == slides[..n];
      SlidesFineLast(sources, layouts, slides[..n], s);
      var fine := CheckSlide(sources, metrics, layouts, s, claimIds, elementIds);
      if !fine {
        NotFineLonger(sources, layouts, slides, n + 1);
        return false;
      }
      claimIds := claimIds + ToSet(ClaimIds(s.claims));
      elementIds := elementIds + ToSet(ElementIds(s.elements));
    }
    assert slides[..|slides|] == slides;
    ok := true;
  }

  // The deck part of validate_semantics accepts a deck exactly when it keeps the contract.
  method ValidateDeck(deck: Deck, layouts: set<string>) returns (ok: bool)
    ensures ok <==> DeckOk(deck, layouts)
  {
    var unique := CheckUnique(SlideIds(deck.slides));
    var counted := CheckCount(deck.slideCount, |deck.slides|);
    var dated := CheckPeriod(deck.period);
    if !unique || !counted || !dated {
      return false;
    }
    var fine, metrics := CheckSources(deck.sources);
    if !fine {
      return false;
    }
    ok := CheckSlides(deck.sources, metrics, layouts, deck.slides);
  }

  // ---- what acceptance guarantees

  // A claim with a number shows the number and the unit of a metric that one of
  // the deck's sources holds, and that source is named in the slide's notes.
  lemma NumbersAreBacked(deck: Deck, layouts: set<string>, i: nat, k: nat)
    requires DeckOk(deck, layouts) && i < |deck.slides| && k < |deck.slides[i].claims|
    requires deck.slides[i].claims[k].numeric.Some?
    ensures var c := deck.slides[i].claims[k];
            && c.metric.Some? && c.unit.Some? && c.classification == "observed"
            && (exists a, b :: 0 <= a < |deck.sources| && 0 <= b < |deck.sources[a].metrics|
                  && Backs(deck.sources[a], deck.sources[a].metrics[b], c.metric.value, c.numeric, c.unit))
            && c.metric.value.source in deck.slides[i].noteSources
  {
    var s := deck.slides[i];
    assert SlideOk(deck.sources, layouts, s);
    assert ClaimOk(deck.sources, s.claims[k]);
    assert SlideUses(s, s.claims[k].metric.value.source);
  }

  // A metric of one of the sources with these ids, this number and this unit.
  predicate Holds(sources: seq<Source>, ref: Ref, shown: Num, unit: Option<string>) {
    exists a, b :: 0 <= a < |sources| && 0 <= b < |sources[a].metrics| && HeldBy(sources[a], b, ref, shown, unit)
  }

  predicate HeldBy(s: Source, b: nat, ref: Ref, shown: Num, unit: Option<string>)
    requires b < |s.metrics|
  {
    && s.fixtureOnly && s.id == ref.source && s.metrics[b].id == ref.metric
    && s.metrics[b].periodKey == s.period.key
    && shown.Finite? && s.metrics[b].value == shown
    && (unit.Some? ==> s.metrics[b].unit == unit.value)
  }

  lemma BackedIsHeld(sources: seq<Source>, ref: Ref, shown: Num, unit: Option<string>)
    requires SourcesOk(sources) && Backed(sources, ref, Some(shown), unit)
    ensures Holds(sources, ref, shown, unit)
  {
    var a, b :| 0 <= a < |sources| && 0 <= b < |sources[a].metrics|
      && Backs(sources[a], sources[a].metrics[b], ref, Some(shown), unit);
    assert SourceOk(sources[a]) && MetricOk(sources[a].metrics[b], sources[a]);
    assert HeldBy(sources[a], b, ref, shown, unit);
  }

  // Every point of a chart shows the number of a fixture metric, in the unit of
  // the chart, from a noted source; there is one point for each category, and
  // bars and columns start at zero.
  lemma PointsAreBacked(deck: Deck, layouts: set<string>, i: nat, k: nat, r: nat, p: nat)
    requires DeckOk(deck, layouts) && i < |deck.slides| && k < |deck.slides[i].elements|
    requires deck.slides[i].elements[k].body.Chart? && r < |deck.slides[i].elements[k].body.series|
    requires p < |deck.slides[i].elements[k].body.series[r]|
    ensures var chart := deck.slides[i].elements[k].body;
            var point := chart.series[r][p];
            && |chart.series[r]| == |chart.categories|
            && (chart.chartType == "bar" || chart.chartType == "column" ==> chart.zeroBaseline)
            && Holds(deck.sources, point.metric, point.value, Some(chart.unit))
            && point.metric.source in deck.slides[i].noteSources
  {
    var s := deck.slides[i];
    var chart := s.elements[k].body;
    assert SlideOk(deck.sources, layouts, s) && ElementOk(deck.sources, s.claims, s.elements[k]);
    assert SeriesOk(deck.sources, chart.series[r], chart.unit, |chart.categories|);
    assert PointOk(deck.sources, chart.series[r][p], chart.unit);
    BackedIsHeld(deck.sources, chart.series[r][p].metric, chart.series[r][p].value, Some(chart.unit));
    assert BodyUses(chart, chart.series[r][p].metric.source);
    assert SlideUses(s, chart.series[r][p].metric.source);
  }

  // Every number in a table is that of a fixture metric from a noted source,
  // and every row has a cell for each header.
  lemma CellsAreBacked(deck: Deck, layouts: set<string>, i: nat, k: nat, r: nat, c: nat)
    requires DeckOk(deck, layouts) && i < |deck.slides| && k < |deck.slides[i].elements|
    requires deck.slides[i].elements[k].body.Table? && r < |deck.slides[i].elements[k].body.rows|
    requires c < |deck.slides[i].elements[k].body.rows[r]|
    ensures var table := deck.slides[i].elements[k].body;
            var cell := table.rows[r][c];
            && |table.rows[r]| == |table.headers|
            && (cell.value.Number? ==>
                  && cell.metric.Some? && Holds(deck.sources, cell.metric.value, cell.value.n, None)
                  && cell.metric.value.source in deck.slides[i].noteSources)
  {
    var s := deck.slides[i];
    var table := s.elements[k].body;
    var cell := table.rows[r][c];
    assert SlideOk(deck.sources, layouts, s) && ElementOk(deck.sources, s.claims, s.elements[k]);
    assert RowOk(deck.sources, table.rows[r], |table.headers|);
    assert CellOk(deck.sources, cell);
    if cell.value.Number? {
      BackedIsHeld(deck.sources, cell.metric.value, cell.value.n, None);
      assert BodyUses(table, cell.metric.value.source);
      assert SlideUses(s, cell.metric.value.source);
    }
  }

  // Elements, and the nodes of diagrams, lie within their parents.
  lemma ElementsInBounds(deck: Deck, layouts: set<string>, i: nat, k: nat)
    requires DeckOk(deck, layouts) && i < |deck.slides| && k < |deck.slides[i].elements|
    ensures var e := deck.slides[i].elements[k];
            && e.box.x + e.box.w <= 1.000000001 && e.box.y + e.box.h <= 1.000000001
            && (e.body.Diagram? ==> forall n :: 0 <= n < |e.body.nodes| ==>
                  var box := e.body.nodes[n].box;
                  box.x + box.w <= 1.000000001 && box.y + box.h <= 1.000000001)
  {
    assert SlideOk(deck.sources, layouts, deck.slides[i]);
    assert ElementOk(deck.sources, deck.slides[i].claims, deck.slides[i].elements[k]);
  }

  // A diagram is drawn from a noted graph snapshot, with unique ids.
  lemma DiagramsAreGraphs(deck: Deck, layouts: set<string>, i: nat, k: nat)
    requires DeckOk(deck, layouts) && i < |deck.slides| && k < |deck.slides[i].elements|
    requires deck.slides[i].elements[k].body.Diagram?
    ensures var d := deck.slides[i].elements[k].body;
            && d.source in deck.slides[i].noteSources
            && (exists a :: 0 <= a < |deck.sources| && deck.sources[a].id == d.source &&
                  (deck.sources[a].kind == "dmind_snapshot" || deck.sources[a].kind == "matrix_snapshot"))
            && (forall m, n :: 0 <= m < n < |d.nodes| ==> d.nodes[m].id != d.nodes[n].id)
            && (forall m, n :: 0 <= m < n < |d.edges| ==> d.edges[m].id != d.edges[n].id)
  {
    var s := deck.slides[i];
    var d := s.elements[k].body;
    assert SlideOk(deck.sources, layouts, s) && ElementOk(deck.sources, s.claims, s.elements[k]);
    assert BodyUses(d, d.source);
    assert SlideUses(s, d.source);
    var a :| 0 <= a < |deck.sources| && GraphSource(deck.sources[a], d.source);
    assert deck.sources[a].kind == "dmind_snapshot" || deck.sources[a].kind == "matrix_snapshot";
    forall m, n | 0 <= m < n < |d.nodes| ensures d.nodes[m].id != d.nodes[n].id {
      assert NodeIds(d.nodes)[m] != NodeIds(d.nodes)[n];
    }
    forall m, n | 0 <= m < n < |d.edges| ensures d.edges[m].id != d.edges[n].id {
      assert EdgeIds(d.edges)[m] != EdgeIds(d.edges)[n];
    }
  }

  // Every edge of a diagram joins two of its nodes.
  lemma EdgesJoinNodes(deck: Deck, layouts: set<string>, i: nat, k: nat, n: nat) returns (from: nat, to: nat)
    requires DeckOk(deck, layouts) && i < |deck.slides| && k < |deck.slides[i].elements|
    requires deck.slides[i].elements[k].body.Diagram? && n < |deck.slides[i].elements[k].body.edges|
    ensures var d := deck.slides[i].elements[k].body;
            && from < |d.nodes| && d.nodes[from].id == d.edges[n].from
            && to < |d.nodes| && d.nodes[to].id == d.edges[n].to
  {
    var s := deck.slides[i];
    var d := s.elements[k].body;
    assert SlideOk(deck.sources, layouts, s) && ElementOk(deck.sources, s.claims, s.elements[k]);
    assert EdgeOk(d.edges[n], d.nodes);
    from :| 0 <= from < |NodeIds(d.nodes)| && NodeIds(d.nodes)[from] == d.edges[n].from;
    to :| 0 <= to < |NodeIds(d.nodes)| && NodeIds(d.nodes)[to] == d.edges[n].to;
  }

  // A text shows claims of its own slide.
  lemma TextsShowClaims(deck: Deck, layouts: set<string>, i: nat, k: nat, n: nat)
    requires DeckOk(deck, layouts) && i < |deck.slides| && k < |deck.slides[i].elements|
    requires deck.slides[i].elements[k].body.TextBody? && n < |deck.slides[i].elements[k].body.claimIds|
    ensures var s := deck.slides[i];
            exists c :: 0 <= c < |s.claims| && s.claims[c].id == s.elements[k].body.claimIds[n]
  {
    var s, body := deck.slides[i], deck.slides[i].elements[k].body;
    assert SlideOk(deck.sources, layouts, s) && ElementOk(deck.sources, s.claims, s.elements[k]);
    assert BodyOk(deck.sources, s.claims, body);
    var c :| 0 <= c < |ClaimIds(s.claims)| && ClaimIds(s.claims)[c] == body.claimIds[n];
    assert s.claims[c].id == body.claimIds[n];
  }

  // An image is a placeholder.
  lemma ImagesArePlaceholders(deck: Deck, layouts: set<string>, i: nat, k: nat)
    requires DeckOk(deck, layouts) && i < |deck.slides| && k < |deck.slides[i].elements|
    requires deck.slides[i].elements[k].body.Image?
    ensures deck.slides[i].elements[k].body.provenance == "fixture_placeholder"
  {
    assert SlideOk(deck.sources, layouts, deck.slides[i]);
    assert ElementOk(deck.sources, deck.slides[i].claims, deck.slides[i].elements[k]);
  }

  // A slide has a known layout and names known sources in its notes.
  lemma NotesAreKnown(deck: Deck, layouts: set<string>, i: nat, n: nat)
    requires DeckOk(deck, layouts) && i < |deck.slides| && n < |deck.slides[i].noteSources|
    ensures deck.slides[i].layout in layouts
    ensures exists a :: 0 <= a < |deck.sources| && deck.sources[a].id == deck.slides[i].noteSources[n]
  {
    var s := deck.slides[i];
    assert SlideOk(deck.sources, layouts, s);
    var a :| 0 <= a < |SourceIds(deck.sources)| && SourceIds(deck.sources)[a] == s.noteSources[n];
    assert deck.sources[a].id == s.noteSources[n];
  }

  lemma {:induction false} ElementIdAt(slides: seq<Slide>, i: nat, k: nat) returns (at: nat)
    requires i < |slides| && k < |slides[i].elements|
    ensures at < |AllElementIds(slides)| && AllElementIds(slides)[at] == slides[i].elements[k].id
    ensures |AllElementIds(slides[..i])| <= at < |AllElementIds(slides[..i])| + |slides[i].elements|
    ensures at == |AllElementIds(slides[..i])| + k
  {
    var before := slides[..|slides| - 1];
    if i == |slides| - 1 {
      at := |AllElementIds(before)| + k;
    } else {
      at := ElementIdAt(before, i, k);
      assert before[..i] == slides[..i];
    }
  }

  lemma {:induction false} LaterStartsLater(slides: seq<Slide>, i: nat, j: nat)
    requires i < j <= |slides|
    ensures |AllElementIds(slides[..i])| + |slides[i].elements| <= |AllElementIds(slides[..j])|
    decreases j
  {
    assert slides[..j][..j - 1] == slides[..j - 1];
    assert slides[..i + 1][..i] == slides[..i];
    if i < j - 1 {
      LaterStartsLater(slides, i, j - 1);
    }
  }

  // No two elements anywhere in an accepted deck share an id.
  lemma ElementIdsUnique(deck: Deck, layouts: set<string>, i: nat, k: nat, i': nat, k': nat)
    requires DeckOk(deck, layouts) && i < |deck.slides| && i' < |deck.slides|
    requires k < |deck.slides[i].elements| && k' < |deck.slides[i'].elements|
    requires deck.slides[i].elements[k].id == deck.slides[i'].elements[k'].id
    ensures i == i' && k == k'
  {
    var a := ElementIdAt(deck.slides, i, k);
    var b := ElementIdAt(deck.slides, i', k');
    if i < i' {
      LaterStartsLater(deck.slides, i, i');
    } else if i' < i {
      LaterStartsLater(deck.slides, i', i);
    }
  }
}
