// The deck part of the presentation contract
// (docs/presentations/validate_contracts.py): evidence, uniqueness and layout.

module DeckContract {
  import opened Options

  // A JSON number as the validator sees it.
  datatype Num = Finite(value: real) | NotFinite

  datatype Time = Aware(instant: int) | Naive
  datatype Period = Period(key: string, start: Time, endExclusive: Time)

  datatype Ref = Ref(source: string, metric: string)
  datatype Metric = Metric(id: string, periodKey: string, value: Num, unit: string)
  datatype Source = Source(id: string, fixtureOnly: bool, kind: string, period: Period, metrics: seq<Metric>)

  datatype Box = Box(x: real, y: real, w: real, h: real)
  datatype Claim = Claim(id: string, classification: string, numeric: Option<Num>, metric: Option<Ref>,
      unit: Option<string>)
  datatype Point = Point(metric: Ref, value: Num)
  datatype CellValue = Number(n: Num) | Words(text: string)
  datatype Cell = Cell(value: CellValue, metric: Option<Ref>)
  datatype Node = Node(id: string, box: Box)
  datatype Edge = Edge(id: string, from: string, to: string)

  datatype Body =
    | TextBody(claimIds: seq<string>)
    | Chart(chartType: string, zeroBaseline: bool, unit: string, categories: seq<string>, series: seq<seq<Point>>)
    | Table(headers: seq<string>, rows: seq<seq<Cell>>)
    | Diagram(source: string, nodes: seq<Node>, edges: seq<Edge>)
    | Image(provenance: string)
    | OtherBody

  datatype Element = Element(id: string, box: Box, body: Body)
  datatype Slide = Slide(id: string, layout: string, noteSources: seq<string>, claims: seq<Claim>,
      elements: seq<Element>)
  datatype SlideCount = Exact(n: int) | Between(lo: int, hi: int)
  datatype Deck = Deck(slides: seq<Slide>, slideCount: SlideCount, period: Period, sources: seq<Source>)

  // ---- the declarative contract

  predicate Distinct(ids: seq<string>) {
    forall i, j :: 0 <= i < j < |ids| ==> ids[i] != ids[j]
  }

  function SlideIds(slides: seq<Slide>): seq<string> {
    seq(|slides|, i requires 0 <= i < |slides| => slides[i].id)
  }

  function SourceIds(sources: seq<Source>): seq<string> {
    seq(|sources|, i requires 0 <= i < |sources| => sources[i].id)
  }

  function MetricIds(metrics: seq<Metric>): seq<string> {
    seq(|metrics|, i requires 0 <= i < |metrics| => metrics[i].id)
  }

  function ClaimIds(claims: seq<Claim>): seq<string> {
    seq(|claims|, i requires 0 <= i < |claims| => claims[i].id)
  }

  function ElementIds(elements: seq<Element>): seq<string> {
    seq(|elements|, i requires 0 <= i < |elements| => elements[i].id)
  }

  function NodeIds(nodes: seq<Node>): seq<string> {
    seq(|nodes|, i requires 0 <= i < |nodes| => nodes[i].id)
  }

  function EdgeIds(edges: seq<Edge>): seq<string> {
    seq(|edges|, i requires 0 <= i < |edges| => edges[i].id)
  }

  predicate PeriodOk(p: Period) {
    p.start.Aware? && p.endExclusive.Aware? && p.start.instant < p.endExclusive.instant
  }

  const EDGE: real := 1.000000001

  predicate BoxOk(b: Box) {
    b.x + b.w <= EDGE && b.y + b.h <= EDGE
  }

  predicate MetricOk(m: Metric, s: Source) {
    m.periodKey == s.period.key && m.value.Finite?
  }

  predicate SourceOk(s: Source) {
    && s.fixtureOnly && PeriodOk(s.period) && Distinct(MetricIds(s.metrics))
    && forall i :: 0 <= i < |s.metrics| ==> MetricOk(s.metrics[i], s)
  }

  predicate SourcesOk(sources: seq<Source>) {
    Distinct(SourceIds(sources)) && forall i :: 0 <= i < |sources| ==> SourceOk(sources[i])
  }

  // The reference leads to a metric that has the number shown, and the unit
  // wherever one is given.
  predicate Backed(sources: seq<Source>, ref: Ref, shown: Option<Num>, unit: Option<string>) {
    exists i, k :: 0 <= i < |sources| && 0 <= k < |sources[i].metrics|
      && Backs(sources[i], sources[i].metrics[k], ref, shown, unit)
  }

  predicate Backs(s: Source, m: Metric, ref: Ref, shown: Option<Num>, unit: Option<string>) {
    && s.id == ref.source && m.id == ref.metric
    && (shown.Some? ==> shown.value == m.value) && (unit.Some? ==> unit.value == m.unit)
  }

  predicate ClaimOk(sources: seq<Source>, c: Claim) {
    && (c.numeric.Some? ==> c.metric.Some? && c.unit.Some?)
    && (c.metric.Some? ==> c.classification == "observed" && Backed(sources, c.metric.value, c.numeric, c.unit))
  }

  predicate PointOk(sources: seq<Source>, p: Point, unit: string) {
    Backed(sources, p.metric, Some(p.value), Some(unit))
  }

  predicate SeriesOk(sources: seq<Source>, points: seq<Point>, unit: string, width: nat) {
    |points| == width && forall i :: 0 <= i < |points| ==> PointOk(sources, points[i], unit)
  }

  function ShownIn(c: Cell): Option<Num> {
    if c.value.Number? then Some(c.value.n) else None
  }

  predicate CellOk(sources: seq<Source>, c: Cell) {
    && (c.value.Number? ==> c.metric.Some?)
    && (c.metric.Some? ==> Backed(sources, c.metric.value, ShownIn(c), None))
  }

  predicate RowOk(sources: seq<Source>, row: seq<Cell>, width: nat) {
    |row| == width && forall i :: 0 <= i < |row| ==> CellOk(sources, row[i])
  }

  predicate GraphSource(s: Source, id: string) {
    s.id == id && s.kind in {"dmind_snapshot", "matrix_snapshot"}
  }

  predicate EdgeOk(e: Edge, nodes: seq<Node>) {
    e.from in NodeIds(nodes) && e.to in NodeIds(nodes)
  }

  predicate BodyOk(sources: seq<Source>, claims: seq<Claim>, b: Body) {
    match b
    case TextBody(ids) => forall i :: 0 <= i < |ids| ==> ids[i] in ClaimIds(claims)
    case Chart(chartType, zero, unit, categories, series) =>
      && (forall i :: 0 <= i < |series| ==> SeriesOk(sources, series[i], unit, |categories|))
      && (chartType in {"bar", "column"} ==> zero)
    case Table(headers, rows) => forall i :: 0 <= i < |rows| ==> RowOk(sources, rows[i], |headers|)
    case Diagram(source, nodes, edges) =>
      && (exists i :: 0 <= i < |sources| && GraphSource(sources[i], source))
      && Distinct(NodeIds(nodes)) && Distinct(EdgeIds(edges))
      && (forall i :: 0 <= i < |nodes| ==> BoxOk(nodes[i].box))
      && (forall i :: 0 <= i < |edges| ==> EdgeOk(edges[i], nodes))
    case Image(provenance) => provenance == "fixture_placeholder"
    case OtherBody => true
  }

  predicate ElementOk(sources: seq<Source>, claims: seq<Claim>, e: Element) {
    BoxOk(e.box) && BodyOk(sources, claims, e.body)
  }

  // The body shows something taken from the source.
  predicate BodyUses(b: Body, source: string) {
    match b
    case Chart(_, _, _, _, series) =>
      exists i, j :: 0 <= i < |series| && 0 <= j < |series[i]| && series[i][j].metric.source == source
    case Table(_, rows) =>
      exists i, j :: 0 <= i < |rows| && 0 <= j < |rows[i]| && rows[i][j].metric.Some?
        && rows[i][j].metric.value.source == source
    case Diagram(s, _, _) => s == source
    case _ => false
  }

  predicate SlideUses(s: Slide, source: string) {
    || (exists i :: 0 <= i < |s.claims| && s.claims[i].metric.Some? && s.claims[i].metric.value.source == source)
    || (exists i :: 0 <= i < |s.elements| && BodyUses(s.elements[i].body, source))
  }

  ghost predicate EvidenceNoted(s: Slide) {
    forall source :: SlideUses(s, source) ==> source in s.noteSources
  }

  ghost predicate SlideOk(sources: seq<Source>, layouts: set<string>, s: Slide) {
    && s.layout in layouts
    && (forall i :: 0 <= i < |s.noteSources| ==> s.noteSources[i] in SourceIds(sources))
    && (forall i :: 0 <= i < |s.claims| ==> ClaimOk(sources, s.claims[i]))
    && (forall i :: 0 <= i < |s.elements| ==> ElementOk(sources, s.claims, s.elements[i]))
    && EvidenceNoted(s)
  }

  // All claim ids, and all element ids, of the deck.
  function AllClaimIds(slides: seq<Slide>): seq<string> {
    if slides == [] then [] else AllClaimIds(slides[..|slides| - 1]) + ClaimIds(slides[|slides| - 1].claims)
  }

  function AllElementIds(slides: seq<Slide>): seq<string> {
    if slides == [] then [] else AllElementIds(slides[..|slides| - 1]) + ElementIds(slides[|slides| - 1].elements)
  }

  predicate CountOk(count: SlideCount, n: nat) {
    match count
    case Exact(k) => n == k
    case Between(lo, hi) => lo <= n <= hi
  }

  ghost predicate DeckOk(d: Deck, layouts: set<string>) {
    && Distinct(SlideIds(d.slides)) && CountOk(d.slideCount, |d.slides|) && PeriodOk(d.period)
    && SourcesOk(d.sources)
    && Distinct(AllClaimIds(d.slides)) && Distinct(AllElementIds(d.slides))
    && forall i :: 0 <= i < |d.slides| ==> SlideOk(d.sources, layouts, d.slides[i])
  }
}
