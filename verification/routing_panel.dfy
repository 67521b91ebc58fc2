/**
 The routing panel's analysis: a depth-first walk of the router tree that
 appends one record per leaf router, marks the first leaf that matches as
 the winner, and attaches gutter numbers to the boundary records of each
 route list.
 */
module RoutingPanel {
  import opened Values
  import opened Routers
  import opened Presenters

  datatype Status = No | May | Yes

  /** The record the panel keeps for one leaf router. */
  datatype Record = Record(
    level: nat,
    status: Status,
    className: string,
    defaults: Params,
    mask: Option<string>,
    params: Option<Params>,
    moduleName: string,
    error: Option<Failure>,
    gutterTop: Option<nat>,
    gutterBottom: Option<nat>)

  /** The panel's state during the walk: the records so far, the winning
      parameters once a leaf has matched, and the exception that escaped
      from a route list's own match, which ends the walk. */
  datatype State = State(records: seq<Record>, matched: Option<Params>, uncaught: Option<Failure>)

  /** The panel's output: records, winning parameters, their source, and
      the exception that escaped from the walk, if any. */
  datatype Panel = Panel(records: seq<Record>, matched: Option<Params>, source: Option<Source>, uncaught: Option<Failure>)

  const Fresh := State([], None, None)

  /** The level a record shows: the walk starts at -1, shown as 0. */
  function Shown(level: int): (n: nat)
    ensures n >= level && (level >= 0 ==> n == level)
    ensures n == 0 || n == level
  {
    if level < 0 then 0 else level
  }

  /** The gutter a list at `level` gives a record at `recordLevel`. */
  function Gutter(level: int, recordLevel: nat): (g: nat)
    ensures g == recordLevel - Shown(level) || g == Shown(level) - recordLevel
  {
    if Shown(level) <= recordLevel then recordLevel - Shown(level) else Shown(level) - recordLevel
  }

  /** The presenter parameter prefixed with the module the match happened in. */
  function WithModule(params: Params, prefix: string): (r: Params)
    ensures r.Keys == params.Keys + {PresenterKey}
    ensures r[PresenterKey].Scalar?
    ensures prefix <= r[PresenterKey].text
    ensures r[PresenterKey].text[|prefix|..] == TextOr(params, PresenterKey)
    ensures forall k :: k in params && k != PresenterKey ==> r[k] == params[k]
  {
    params[PresenterKey := Scalar(prefix + TextOr(params, PresenterKey))]
  }

  /** What a leaf's match attempt leaves behind: the parameters (prefixed
      with the module when it is truthy) and the exception it caught. A leaf
      under a list that did not match is not asked at all. */
  datatype Attempt = Attempt(params: Option<Params>, error: Option<Failure>)

  function Try(slot: Slot): (a: Attempt)
    ensures !slot.parentMatches ==> a == Attempt(None, None)
    ensures a.params.Some? <==> slot.parentMatches && slot.leaf.outcome.Match?
    ensures a.error.Some? <==> slot.parentMatches && slot.leaf.outcome.Throws?
    ensures a.error.Some? ==> a.error.value == slot.leaf.outcome.error
    ensures a.params.Some? && !Truthy(slot.prefix) ==> a.params.value == slot.leaf.outcome.params
    ensures a.params.Some? && Truthy(slot.prefix) ==>
              var p := slot.leaf.outcome.params;
              && a.params.value.Keys == p.Keys + {PresenterKey}
              && a.params.value[PresenterKey] == Scalar(slot.prefix + TextOr(p, PresenterKey))
              && forall k :: k in p && k != PresenterKey ==> a.params.value[k] == p[k]
  {
    if !slot.parentMatches then Attempt(None, None)
    else match slot.leaf.outcome
      case NoMatch => Attempt(None, None)
      case Throws(e) => Attempt(None, Some(e))
      case Match(p) => Attempt(Some(if Truthy(slot.prefix) then WithModule(p, slot.prefix) else p), None)
  }

  predicate Succeeds(slot: Slot) {
    Try(slot).params.Some?
  }

  /** The record of a leaf with the given status, gutters not yet set. */
  function LeafRecord(slot: Slot, status: Status): Record
  {
    var leaf := slot.leaf;
    var a := Try(slot);
    Record(
      Shown(slot.level),
      status,
      leaf.kind.className,
      if leaf.kind.RouteKind? || leaf.kind.SimpleRouterKind? then leaf.defaults else map[],
      if leaf.kind.RouteKind? then Some(leaf.mask) else None,
      a.params,
      RTrimColons(slot.prefix),
      a.error,
      None,
      None)
  }

  /** One leaf visit: try the leaf, classify it against the winner so far,
      append its record, and claim the winner's place if it is free. */
  function Step(st: State, slot: Slot): (r: State)
    ensures |r.records| == |st.records| + 1 && r.records[..|st.records|] == st.records
    ensures r.uncaught == st.uncaught
    ensures st.matched.Some? ==> r.matched == st.matched && r.records[|st.records|].status != Yes
    ensures r.records[|st.records|].status == No <==> !Succeeds(slot)
    ensures r.records[|st.records|].status == Yes <==> st.matched.None? && Succeeds(slot)
    ensures r.matched.Some? <==> st.matched.Some? || Succeeds(slot)
  {
    var a := Try(slot);
    var status := if a.params.None? then No else if st.matched.None? then Yes else May;
    st.(records := st.records + [LeafRecord(slot, status)],
        matched := if status == Yes then a.params else st.matched)
  }

  /** The gutter updates after a list's children: the first record the list
      added gets `gutterTop`, the last record of all gets `gutterBottom`. */
  function SetGutters(records: seq<Record>, next: nat, level: int): (r: seq<Record>)
    ensures |r| == |records|
    ensures next < |records| ==> r[next].gutterTop == Some(Gutter(level, records[next].level))
    ensures |records| > 0 ==> r[|r| - 1].gutterBottom == Some(Gutter(level, records[|records| - 1].level))
    ensures forall i :: 0 <= i < |records| ==> Strip(r[i]) == Strip(records[i])
    ensures forall i :: 0 <= i < |records| && i != next ==> r[i].gutterTop == records[i].gutterTop
    ensures forall i :: 0 <= i < |records| - 1 ==> r[i].gutterBottom == records[i].gutterBottom
  {
    var withTop :=
      if next < |records| then records[next := records[next].(gutterTop := Some(Gutter(level, records[next].level)))]
      else records;
    if |withTop| > 0 then
      var last := withTop[|withTop| - 1];
      withTop[|withTop| - 1 := last.(gutterBottom := Some(Gutter(level, last.level)))]
    else withTop
  }

  /** A record with its gutters cleared: everything the walk fixes when it
      appends the record. */
  function Strip(r: Record): Record {
    r.(gutterTop := None, gutterBottom := None)
  }

  /** `analyse($router, $module, $parentMatches, $level)`. */
  function Visit(r: Router, prefix: string, parentMatches: bool, level: int, st: State): (res: State)
    ensures |res.records| >= |st.records|
    ensures st.matched.Some? ==> res.matched == st.matched
    decreases r
  {
    match r
    case Leaf(leaf) => Step(st, Slot(leaf, prefix, parentMatches, level))
    case RouteList(listModule, routers, outcome) =>
      if parentMatches && outcome.ListThrows? then st.(uncaught := Some(outcome.error))
      else
        var next := |st.records|;
        var after := VisitAll(routers, prefix + listModule, ChildMatches(parentMatches, outcome), level + 1, st);
        if after.uncaught.Some? then after
        else after.(records := SetGutters(after.records, next, level))
  }

  /** The `foreach` over a list's routers; an escaping exception ends it. */
  function VisitAll(rs: seq<Router>, prefix: string, parentMatches: bool, level: int, st: State): (res: State)
    ensures |res.records| >= |st.records|
    ensures st.matched.Some? ==> res.matched == st.matched
    decreases rs
  {
    if |rs| == 0 then st
    else
      var first := Visit(rs[0], prefix, parentMatches, level, st);
      if first.uncaught.Some? then first
      else VisitAll(rs[1..], prefix, parentMatches, level, first)
  }

  /** The panel for a router tree: the walk from the root at level -1 with
      an empty module, then the source of the winning parameters. */
  function Analyse(root: Router, factory: Factory): (p: Panel)
    ensures p.source.Some? ==> p.matched.Some?
    ensures p.source.None? <==> p.matched.None? || TextOr(p.matched.value, PresenterKey) !in factory
  {
    var st := Visit(root, "", true, -1, Fresh);
    Panel(st.records, st.matched, if st.matched.Some? then FindSource(factory, st.matched.value) else None, st.uncaught)
  }
}
