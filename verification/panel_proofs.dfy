/**
 Properties of the routing panel's walk. The recursive walk is related to a
 flat reference run (`Scan`) over the depth-first list of leaves, and the
 flat run is characterised leaf by leaf: the first leaf that matches wins,
 every later match is "may", and a leaf that was not asked or did not match
 is "no".
 */
module PanelProofs {
  import opened Values
  import opened Routers
  import opened Presenters
  import opened RoutingPanel

  /* ---------- The flat reference run ---------- */

  /** The leaves visited one after another, with no tree around them. */
  function Scan(slots: seq<Slot>, st: State): State
    decreases |slots|
  {
    if |slots| == 0 then st else Scan(slots[1..], Step(st, slots[0]))
  }

  /** The index of the first leaf whose match succeeds. */
  function FirstIndex(slots: seq<Slot>): (r: Option<nat>)
    ensures r.Some? ==> r.value < |slots|
  {
    if |slots| == 0 then None
    else if Succeeds(slots[0]) then Some(0)
    else match FirstIndex(slots[1..])
      case None => None
      case Some(k) => Some(k + 1)
  }

  /** The parameters of the first leaf whose match succeeds. */
  function FirstParams(slots: seq<Slot>): Option<Params> {
    match FirstIndex(slots)
    case None => None
    case Some(k) => Try(slots[k]).params
  }

  /** The status leaf `i` should get when `matched` is the winner so far. */
  function Expected(slots: seq<Slot>, i: nat, matched: Option<Params>): Status
    requires i < |slots|
  {
    if !Succeeds(slots[i]) then No
    else if matched.None? && FirstIndex(slots) == Some(i) then Yes
    else May
  }

  function StripAll(rs: seq<Record>): (r: seq<Record>)
    ensures |r| == |rs|
    ensures forall i :: 0 <= i < |rs| ==> r[i] == Strip(rs[i])
  {
    seq(|rs|, i requires 0 <= i < |rs| => Strip(rs[i]))
  }

  /** A state with every record's gutters cleared. */
  function Stripped(st: State): State {
    st.(records := StripAll(st.records))
  }

  /** `FirstIndex` names exactly the first successful leaf. */
  lemma {:induction false} FirstIndexIsFirst(slots: seq<Slot>)
    ensures forall k: nat :: FirstIndex(slots) == Some(k) <==>
              (k < |slots| && Succeeds(slots[k]) && forall j :: 0 <= j < k ==> !Succeeds(slots[j]))
    ensures FirstIndex(slots).None? <==> forall j :: 0 <= j < |slots| ==> !Succeeds(slots[j])
  {
    if |slots| > 0 {
      var rest := slots[1..];
      FirstIndexIsFirst(rest);
      assert forall j :: 1 <= j < |slots| ==> slots[j] == rest[j - 1];
      if !Succeeds(slots[0]) {
        forall k: nat
          ensures FirstIndex(slots) == Some(k) <==>
                  (k < |slots| && Succeeds(slots[k]) && forall j :: 0 <= j < k ==> !Succeeds(slots[j]))
        {
          if 0 < k < |slots| {
            assert (forall j :: 0 <= j < k ==> !Succeeds(slots[j])) <==>
                   (forall j :: 0 <= j < k - 1 ==> !Succeeds(rest[j]));
          }
        }
      }
    }
  }

  lemma {:induction false} ScanAppend(a: seq<Slot>, b: seq<Slot>, st: State)
    ensures Scan(a + b, st) == Scan(b, Scan(a, st))
    decreases |a|
  {
    if |a| == 0 {
      assert a + b == b;
    } else {
      assert (a + b)[0] == a[0];
      assert (a + b)[1..] == a[1..] + b;
      ScanAppend(a[1..], b, Step(st, a[0]));
    }
  }

  /** The flat run keeps the earlier records and adds one per slot. */
  lemma {:induction false} ScanShape(slots: seq<Slot>, st: State)
    ensures Scan(slots, st).uncaught == st.uncaught
    ensures |Scan(slots, st).records| == |st.records| + |slots|
    ensures Scan(slots, st).records[..|st.records|] == st.records
    ensures st.matched.Some? ==> Scan(slots, st).matched == st.matched
    decreases |slots|
  {
    if |slots| > 0 {
      var st1 := Step(st, slots[0]);
      ScanShape(slots[1..], st1);
      var res := Scan(slots, st);
      assert res.records[..|st.records|] == res.records[..|st1.records|][..|st.records|];
    }
  }

  /** Passing the first slot shifts the expected statuses by one. */
  lemma ExpectedShift(slots: seq<Slot>, i: nat, st: State)
    requires 1 <= i < |slots|
    ensures Expected(slots[1..], i - 1, Step(st, slots[0]).matched) == Expected(slots, i, st.matched)
  {
    assert slots[1..][i - 1] == slots[i];
  }

  /** The record a step appends, with the status the winner so far allows. */
  lemma StepRecord(st: State, slot: Slot)
    ensures Step(st, slot).records[|st.records|] ==
            LeafRecord(slot, if !Succeeds(slot) then No else if st.matched.None? then Yes else May)
  {
  }

  /** The flat run from any state: leaf `i` gets the record its slot and
      `Expected` status describe. */
  lemma {:induction false} ScanRecordAt(slots: seq<Slot>, st: State, i: nat)
    requires i < |slots|
    ensures |Scan(slots, st).records| == |st.records| + |slots|
    ensures Scan(slots, st).records[|st.records| + i] == LeafRecord(slots[i], Expected(slots, i, st.matched))
    decreases i
  {
    ScanShape(slots, st);
    var st1 := Step(st, slots[0]);
    var n := |st.records|;
    ScanShape(slots[1..], st1);
    if i == 0 {
      StepRecord(st, slots[0]);
      assert Scan(slots, st).records[n] == Scan(slots, st).records[..n + 1][n];
    } else {
      ScanRecordAt(slots[1..], st1, i - 1);
      ExpectedShift(slots, i, st);
      assert slots[1..][i - 1] == slots[i];
    }
  }

  /** The flat run's winner is the first success, unless one was set before. */
  lemma {:induction false} ScanMatched(slots: seq<Slot>, st: State)
    ensures Scan(slots, st).matched == (if st.matched.Some? then st.matched else FirstParams(slots))
    decreases |slots|
  {
    ScanShape(slots, st);
    if |slots| > 0 {
      var rest := slots[1..];
      ScanMatched(rest, Step(st, slots[0]));
      if st.matched.None? && !Succeeds(slots[0]) {
        assert FirstParams(slots) == FirstParams(rest);
      }
    }
  }

  lemma StripAppend(rs: seq<Record>, r: Record)
    ensures StripAll(rs + [r]) == StripAll(rs) + [Strip(r)]
  {
    assert forall i :: 0 <= i < |rs| ==> (rs + [r])[i] == rs[i];
  }

  /** Clearing gutters commutes with visiting a leaf. */
  lemma StepStripped(st: State, slot: Slot)
    ensures Stripped(Step(st, slot)) == Step(Stripped(st), slot)
  {
    var a := Try(slot);
    var status := if a.params.None? then No else if st.matched.None? then Yes else May;
    StripAppend(st.records, LeafRecord(slot, status));
  }

  /* ---------- The walk against the flat run ---------- */

  /** When no route list's own match throws, the walk leaves, gutters aside,
      exactly what the flat run over the depth-first leaves leaves. */
  lemma {:induction false} VisitIsScan(r: Router, prefix: string, parentMatches: bool, level: int, st: State)
    requires st.uncaught.None?
    requires EscapeFree(r, parentMatches)
    ensures Visit(r, prefix, parentMatches, level, st).uncaught.None?
    ensures Stripped(Visit(r, prefix, parentMatches, level, st)) == Scan(Flatten(r, prefix, parentMatches, level), Stripped(st))
    decreases r, 1
  {
    match r
    case Leaf(leaf) =>
      StepStripped(st, Slot(leaf, prefix, parentMatches, level));
    case RouteList(listModule, routers, outcome) =>
      var child := ChildMatches(parentMatches, outcome);
      VisitAllIsScan(routers, prefix + listModule, child, level + 1, st);
      var after := VisitAll(routers, prefix + listModule, child, level + 1, st);
      assert StripAll(SetGutters(after.records, |st.records|, level)) == StripAll(after.records);
  }

  lemma {:induction false} VisitAllIsScan(rs: seq<Router>, prefix: string, parentMatches: bool, level: int, st: State)
    requires st.uncaught.None?
    requires EscapeFreeAll(rs, parentMatches)
    ensures VisitAll(rs, prefix, parentMatches, level, st).uncaught.None?
    ensures Stripped(VisitAll(rs, prefix, parentMatches, level, st)) == Scan(FlattenAll(rs, prefix, parentMatches, level), Stripped(st))
    decreases rs, 0
  {
    if |rs| > 0 {
      VisitIsScan(rs[0], prefix, parentMatches, level, st);
      var first := Visit(rs[0], prefix, parentMatches, level, st);
      VisitAllIsScan(rs[1..], prefix, parentMatches, level, first);
      ScanAppend(Flatten(rs[0], prefix, parentMatches, level), FlattenAll(rs[1..], prefix, parentMatches, level), Stripped(st));
    }
  }

  /** An exception escapes the walk exactly when some route list whose own
      match is consulted throws; a leaf's exception never escapes. */
  lemma {:induction false} EscapeIff(r: Router, prefix: string, parentMatches: bool, level: int, st: State)
    requires st.uncaught.None?
    ensures Visit(r, prefix, parentMatches, level, st).uncaught.None? <==> EscapeFree(r, parentMatches)
    decreases r, 1
  {
    match r
    case Leaf(_) =>
    case RouteList(listModule, routers, outcome) =>
      if !(parentMatches && outcome.ListThrows?) {
        EscapeIffAll(routers, prefix + listModule, ChildMatches(parentMatches, outcome), level + 1, st);
      }
  }

  lemma {:induction false} EscapeIffAll(rs: seq<Router>, prefix: string, parentMatches: bool, level: int, st: State)
    requires st.uncaught.None?
    ensures VisitAll(rs, prefix, parentMatches, level, st).uncaught.None? <==> EscapeFreeAll(rs, parentMatches)
    decreases rs, 0
  {
    if |rs| > 0 {
      EscapeIff(rs[0], prefix, parentMatches, level, st);
      var first := Visit(rs[0], prefix, parentMatches, level, st);
      if first.uncaught.None? {
        EscapeIffAll(rs[1..], prefix, parentMatches, level, first);
      }
    }
  }

  /* ---------- The tree's leaves ---------- */

  /** One slot per leaf. */
  lemma {:induction false} FlattenCount(r: Router, prefix: string, parentMatches: bool, level: int)
    ensures |Flatten(r, prefix, parentMatches, level)| == LeafCount(r)
    decreases r, 1
  {
    match r
    case Leaf(_) =>
    case RouteList(listModule, routers, outcome) =>
      FlattenAllCount(routers, prefix + listModule, ChildMatches(parentMatches, outcome), level + 1);
  }

  lemma {:induction false} FlattenAllCount(rs: seq<Router>, prefix: string, parentMatches: bool, level: int)
    ensures |FlattenAll(rs, prefix, parentMatches, level)| == LeafCountAll(rs)
    decreases rs, 0
  {
    if |rs| > 0 {
      FlattenCount(rs[0], prefix, parentMatches, level);
      FlattenAllCount(rs[1..], prefix, parentMatches, level);
    }
  }

  /** Every leaf below a point of the walk inherits its module as a prefix,
      is asked only if the walk there was still matching, and sits at least
      that deep; below a route list, strictly deeper and under the list's
      module too. */
  lemma {:induction false} FlattenContext(r: Router, prefix: string, parentMatches: bool, level: int)
    ensures forall s :: s in Flatten(r, prefix, parentMatches, level) ==>
              prefix <= s.prefix && (s.parentMatches ==> parentMatches) && level <= s.level
    ensures r.RouteList? ==> forall s :: s in Flatten(r, prefix, parentMatches, level) ==>
              prefix + r.moduleName <= s.prefix && level < s.level
              && (s.parentMatches ==> r.outcome == ListMatch)
    decreases r, 1
  {
    match r
    case Leaf(_) =>
    case RouteList(listModule, routers, outcome) =>
      FlattenAllContext(routers, prefix + listModule, ChildMatches(parentMatches, outcome), level + 1);
  }

  lemma {:induction false} FlattenAllContext(rs: seq<Router>, prefix: string, parentMatches: bool, level: int)
    ensures forall s :: s in FlattenAll(rs, prefix, parentMatches, level) ==>
              prefix <= s.prefix && (s.parentMatches ==> parentMatches) && level <= s.level
    decreases rs, 0
  {
    if |rs| > 0 {
      FlattenContext(rs[0], prefix, parentMatches, level);
      FlattenAllContext(rs[1..], prefix, parentMatches, level);
    }
  }

  /** Below a failed parent no route list's match is consulted, so nothing
      can escape. */
  lemma {:induction false} NoEscapeBelowFailure(r: Router)
    ensures EscapeFree(r, false)
    decreases r, 1
  {
    match r
    case Leaf(_) =>
    case RouteList(_, routers, _) => NoEscapeBelowFailureAll(routers);
  }

  lemma {:induction false} NoEscapeBelowFailureAll(rs: seq<Router>)
    ensures EscapeFreeAll(rs, false)
    decreases rs, 0
  {
    if |rs| > 0 {
      NoEscapeBelowFailure(rs[0]);
      NoEscapeBelowFailureAll(rs[1..]);
    }
  }

  /* ---------- Properties of one walk ---------- */

  /** A flat run over leaves that are never asked appends only "no"
      records without params or error and leaves the winner alone. */
  lemma {:induction false} ScanUnasked(slots: seq<Slot>, st: State)
    requires forall s :: s in slots ==> !s.parentMatches
    ensures Scan(slots, st).matched == st.matched
    ensures forall i :: |st.records| <= i < |Scan(slots, st).records| ==>
              var rec := Scan(slots, st).records[i];
              rec.status == No && rec.params.None? && rec.error.None?
    decreases |slots|
  {
    ScanShape(slots, st);
    if |slots| > 0 {
      var st1 := Step(st, slots[0]);
      assert slots[0] in slots;
      assert forall s :: s in slots[1..] ==> s in slots;
      ScanUnasked(slots[1..], st1);
      ScanShape(slots[1..], st1);
      StepRecord(st, slots[0]);
      var res := Scan(slots, st);
      assert res.records[|st.records|] == res.records[..|st1.records|][|st.records|];
    }
  }

  /** Once a parent list failed, every leaf beneath it is recorded as "no",
      with no params and no error (its match is never asked), and the
      winner is untouched. */
  lemma ParentFailure(r: Router, prefix: string, level: int, st: State)
    requires st.uncaught.None?
    ensures Visit(r, prefix, false, level, st).uncaught.None?
    ensures Visit(r, prefix, false, level, st).matched == st.matched
    ensures |Visit(r, prefix, false, level, st).records| == |st.records| + LeafCount(r)
    ensures forall i :: |st.records| <= i < |Visit(r, prefix, false, level, st).records| ==>
              var rec := Visit(r, prefix, false, level, st).records[i];
              rec.status == No && rec.params.None? && rec.error.None?
  {
    NoEscapeBelowFailure(r);
    VisitIsScan(r, prefix, false, level, st);
    FlattenCount(r, prefix, false, level);
    FlattenContext(r, prefix, false, level);
    var slots := Flatten(r, prefix, false, level);
    ScanShape(slots, Stripped(st));
    ScanUnasked(slots, Stripped(st));
    var res := Visit(r, prefix, false, level, st);
    forall i | |st.records| <= i < |res.records|
      ensures res.records[i].status == No && res.records[i].params.None? && res.records[i].error.None?
    {
      assert Strip(res.records[i]) == Stripped(res).records[i];
    }
  }

  /** The walk only rewrites gutters of records it did not add: all but the
      last earlier record are untouched, and the last keeps everything but
      `gutterBottom` (an empty route list sets it on the record before). */
  lemma {:induction false} EarlierRecordsKept(r: Router, prefix: string, parentMatches: bool, level: int, st: State)
    ensures var res := Visit(r, prefix, parentMatches, level, st);
            && (forall i :: 0 <= i < |st.records| - 1 ==> res.records[i] == st.records[i])
            && (|st.records| > 0 ==>
                  var last := |st.records| - 1;
                  Strip(res.records[last]) == Strip(st.records[last])
                  && res.records[last].gutterTop == st.records[last].gutterTop)
    decreases r, 1
  {
    match r
    case Leaf(leaf) =>
    case RouteList(listModule, routers, outcome) =>
      if !(parentMatches && outcome.ListThrows?) {
        EarlierRecordsKeptAll(routers, prefix + listModule, ChildMatches(parentMatches, outcome), level + 1, st);
      }
  }

  lemma {:induction false} EarlierRecordsKeptAll(rs: seq<Router>, prefix: string, parentMatches: bool, level: int, st: State)
    ensures var res := VisitAll(rs, prefix, parentMatches, level, st);
            && (forall i :: 0 <= i < |st.records| - 1 ==> res.records[i] == st.records[i])
            && (|st.records| > 0 ==>
                  var last := |st.records| - 1;
                  Strip(res.records[last]) == Strip(st.records[last])
                  && res.records[last].gutterTop == st.records[last].gutterTop)
    decreases rs, 0
  {
    if |rs| > 0 {
      EarlierRecordsKept(rs[0], prefix, parentMatches, level, st);
      var first := Visit(rs[0], prefix, parentMatches, level, st);
      if first.uncaught.None? {
        EarlierRecordsKeptAll(rs[1..], prefix, parentMatches, level, first);
      }
    }
  }

  /** After a route list's children, the first record the list added carries
      `gutterTop` and the last record of all carries `gutterBottom`, each the
      distance between the list's shown level and the record's level. */
  lemma ListGutters(r: Router, prefix: string, parentMatches: bool, level: int, st: State)
    requires r.RouteList?
    requires Visit(r, prefix, parentMatches, level, st).uncaught.None?
    ensures var res := Visit(r, prefix, parentMatches, level, st);
            var n := |st.records|;
            && (n < |res.records| ==> res.records[n].gutterTop == Some(Gutter(level, res.records[n].level)))
            && (|res.records| > 0 ==>
                  res.records[|res.records| - 1].gutterBottom == Some(Gutter(level, res.records[|res.records| - 1].level)))
  {
    var after := VisitAll(r.routers, prefix + r.moduleName, ChildMatches(parentMatches, r.outcome), level + 1, st);
    var res := Visit(r, prefix, parentMatches, level, st);
    assert res.records == SetGutters(after.records, |st.records|, level);
    if |st.records| < |res.records| {
      assert Strip(res.records[|st.records|]) == Strip(after.records[|st.records|]);
    }
    if |res.records| > 0 {
      assert Strip(res.records[|res.records| - 1]) == Strip(after.records[|res.records| - 1]);
    }
  }

  /* ---------- The single winner ---------- */

  /** `w` is the one record with status "yes", and it holds the winner. */
  predicate IsWinner(records: seq<Record>, w: nat, matched: Option<Params>) {
    && w < |records|
    && records[w].status == Yes
    && records[w].params == matched
    && forall i :: 0 <= i < |records| && i != w ==> records[i].status != Yes
  }

  /** No "yes" before a winner is set; exactly one, holding it, after. */
  predicate WinnerInvariant(st: State) {
    && (st.matched.None? ==> forall i :: 0 <= i < |st.records| ==> st.records[i].status != Yes)
    && (st.matched.Some? ==> exists w :: 0 <= w < |st.records| && IsWinner(st.records, w, st.matched))
  }

  lemma StepKeepsWinner(st: State, slot: Slot)
    requires WinnerInvariant(st)
    ensures WinnerInvariant(Step(st, slot))
  {
    var res := Step(st, slot);
    var n := |st.records|;
    assert forall i :: 0 <= i < n ==> res.records[i] == res.records[..n][i] == st.records[i];
    if st.matched.Some? {
      var w: nat :| w < n && IsWinner(st.records, w, st.matched);
      assert IsWinner(res.records, w, res.matched);
    } else if res.matched.Some? {
      StepRecord(st, slot);
      assert IsWinner(res.records, n, res.matched);
    }
  }

  lemma GuttersKeepWinner(st: State, next: nat, level: int)
    requires WinnerInvariant(st)
    ensures WinnerInvariant(st.(records := SetGutters(st.records, next, level)))
  {
    var res := st.(records := SetGutters(st.records, next, level));
    forall i | 0 <= i < |st.records|
      ensures res.records[i].status == st.records[i].status && res.records[i].params == st.records[i].params
    {
      assert Strip(res.records[i]) == Strip(st.records[i]);
    }
    if st.matched.Some? {
      var w: nat :| w < |st.records| && IsWinner(st.records, w, st.matched);
      assert IsWinner(res.records, w, res.matched);
    }
  }

  /** Every step of the walk, including one cut short by an escaping
      exception, keeps the single-winner invariant. */
  lemma {:induction false} VisitKeepsWinner(r: Router, prefix: string, parentMatches: bool, level: int, st: State)
    requires WinnerInvariant(st)
    ensures WinnerInvariant(Visit(r, prefix, parentMatches, level, st))
    decreases r, 1
  {
    match r
    case Leaf(leaf) =>
      StepKeepsWinner(st, Slot(leaf, prefix, parentMatches, level));
    case RouteList(listModule, routers, outcome) =>
      if !(parentMatches && outcome.ListThrows?) {
        VisitAllKeepsWinner(routers, prefix + listModule, ChildMatches(parentMatches, outcome), level + 1, st);
        var after := VisitAll(routers, prefix + listModule, ChildMatches(parentMatches, outcome), level + 1, st);
        GuttersKeepWinner(after, |st.records|, level);
      }
  }

  lemma {:induction false} VisitAllKeepsWinner(rs: seq<Router>, prefix: string, parentMatches: bool, level: int, st: State)
    requires WinnerInvariant(st)
    ensures WinnerInvariant(VisitAll(rs, prefix, parentMatches, level, st))
    decreases rs, 0
  {
    if |rs| > 0 {
      VisitKeepsWinner(rs[0], prefix, parentMatches, level, st);
      var first := Visit(rs[0], prefix, parentMatches, level, st);
      if first.uncaught.None? {
        VisitAllKeepsWinner(rs[1..], prefix, parentMatches, level, first);
      }
    }
  }

  /** Whatever the tree, the panel shows at most one "yes", it shows one
      exactly when there are winning parameters, and that record holds them. */
  lemma AtMostOneYes(root: Router, factory: Factory)
    ensures var p := Analyse(root, factory);
            forall i, j ::
              (0 <= i < |p.records| && 0 <= j < |p.records| && p.records[i].status == Yes && p.records[j].status == Yes)
              ==> i == j
    ensures var p := Analyse(root, factory);
            p.matched.Some? <==> exists i :: 0 <= i < |p.records| && p.records[i].status == Yes
    ensures var p := Analyse(root, factory);
            forall i :: 0 <= i < |p.records| && p.records[i].status == Yes ==> p.records[i].params == p.matched
  {
    VisitKeepsWinner(root, "", true, -1, Fresh);
    var st := Visit(root, "", true, -1, Fresh);
    WinnerMeaning(st);
    var p := Analyse(root, factory);
    assert p.records == st.records && p.matched == st.matched;
  }

  /** The single-winner invariant spelled out on the records. */
  lemma WinnerMeaning(st: State)
    requires WinnerInvariant(st)
    ensures forall i, j ::
              (0 <= i < |st.records| && 0 <= j < |st.records| && st.records[i].status == Yes && st.records[j].status == Yes)
              ==> i == j
    ensures st.matched.Some? <==> exists i :: 0 <= i < |st.records| && st.records[i].status == Yes
    ensures forall i :: 0 <= i < |st.records| && st.records[i].status == Yes ==> st.records[i].params == st.matched
  {
    if st.matched.Some? {
      var w: nat :| w < |st.records| && IsWinner(st.records, w, st.matched);
      assert st.records[w].status == Yes;
    }
  }

  /** A walk that starts where an earlier one left a winner, as a second
      `getTab` on the same panel does, keeps that winner, and none of the
      records it adds is "yes". */
  lemma WalkAfterWinner(root: Router, st: State)
    requires WinnerInvariant(st) && st.matched.Some?
    ensures var res := Visit(root, "", true, -1, st);
            && res.matched == st.matched
            && forall i :: |st.records| <= i < |res.records| ==> res.records[i].status != Yes
  {
    VisitKeepsWinner(root, "", true, -1, st);
    EarlierRecordsKept(root, "", true, -1, st);
    var res := Visit(root, "", true, -1, st);
    var w0: nat :| w0 < |st.records| && IsWinner(st.records, w0, st.matched);
    assert res.records[w0].status == Strip(res.records[w0]).status == Strip(st.records[w0]).status;
    var w: nat :| w < |res.records| && IsWinner(res.records, w, res.matched);
    assert w == w0;
  }

  /** Analysing the same tree twice on one panel. The panel keeps the first
      walk's records and winner; an exception that escaped the first walk is
      not kept, so the second walk starts with none in flight. That walk
      keeps the first walk's winner, and none of the records it adds is
      "yes". */
  lemma SecondTab(root: Router)
    ensures var first := Visit(root, "", true, -1, Fresh);
            var kept := first.(uncaught := None);
            var second := Visit(root, "", true, -1, kept);
            first.matched.Some? ==>
              && second.matched == first.matched
              && forall i :: |first.records| <= i < |second.records| ==> second.records[i].status != Yes
  {
    VisitKeepsWinner(root, "", true, -1, Fresh);
    var first := Visit(root, "", true, -1, Fresh);
    var kept := first.(uncaught := None);
    if first.matched.Some? {
      assert WinnerInvariant(kept);
      WalkAfterWinner(root, kept);
    }
  }

  /** `rec` shows `slot`'s leaf and match attempt with the given status:
      defaults for a `Route` or `SimpleRouter` only, a mask for a `Route`
      only. */
  predicate RecordShows(rec: Record, slot: Slot, status: Status) {
    && rec.status == status
    && rec.level == Shown(slot.level)
    && rec.className == slot.leaf.kind.className
    && rec.moduleName == RTrimColons(slot.prefix)
    && rec.params == Try(slot).params
    && rec.error == Try(slot).error
    && rec.defaults == (if slot.leaf.kind.OtherKind? then map[] else slot.leaf.defaults)
    && rec.mask == (if slot.leaf.kind.RouteKind? then Some(slot.leaf.mask) else None)
  }

  lemma StrippedRecordShows(rec: Record, slot: Slot, status: Status)
    requires Strip(rec) == LeafRecord(slot, status)
    ensures RecordShows(rec, slot, status)
  {
    assert rec.status == Strip(rec).status;
  }

  /** The expected status of leaf `i` on a fresh walk, spelled out. */
  predicate ExpectedMeaning(slots: seq<Slot>, i: nat)
    requires i < |slots|
  {
    && (Expected(slots, i, None) == Yes <==> Succeeds(slots[i]) && forall j :: 0 <= j < i ==> !Succeeds(slots[j]))
    && (Expected(slots, i, None) == May <==> Succeeds(slots[i]) && exists j :: 0 <= j < i && Succeeds(slots[j]))
    && (Expected(slots, i, None) == No <==> !Succeeds(slots[i]))
  }

  lemma ExpectedIsFirstSuccess(slots: seq<Slot>, i: nat)
    requires i < |slots|
    ensures ExpectedMeaning(slots, i)
  {
    FirstIndexIsFirst(slots);
  }

  lemma FirstParamsMeaning(slots: seq<Slot>)
    ensures FirstParams(slots).Some? <==> exists i :: 0 <= i < |slots| && Succeeds(slots[i])
  {
    FirstIndexIsFirst(slots);
    if FirstIndex(slots).Some? {
      assert Succeeds(slots[FirstIndex(slots).value]);
    }
  }

  /** A walked record whose gutter-free form is the flat run's record `i`
      shows slot `i`. */
  lemma WalkedRecordShows(rec: Record, slots: seq<Slot>, i: nat)
    requires i < |slots| && i < |Scan(slots, Fresh).records|
    requires Strip(rec) == Scan(slots, Fresh).records[i]
    ensures RecordShows(rec, slots[i], Expected(slots, i, None))
  {
    ScanRecordAt(slots, Fresh, i);
    StrippedRecordShows(rec, slots[i], Expected(slots, i, None));
  }

  /** The walk from the root, record by record, against the flat run. */
  lemma WalkShowsSlots(root: Router)
    requires EscapeFree(root, true)
    ensures var st := Visit(root, "", true, -1, Fresh);
            var slots := Flatten(root, "", true, -1);
            && st.uncaught.None?
            && |st.records| == |slots|
            && (forall i :: 0 <= i < |slots| ==> RecordShows(st.records[i], slots[i], Expected(slots, i, None)))
            && st.matched == FirstParams(slots)
  {
    var slots := Flatten(root, "", true, -1);
    var res := Visit(root, "", true, -1, Fresh);
    VisitIsScan(root, "", true, -1, Fresh);
    assert Stripped(Fresh) == Fresh;
    ScanShape(slots, Fresh);
    ScanMatched(slots, Fresh);
    forall i | 0 <= i < |slots|
      ensures RecordShows(res.records[i], slots[i], Expected(slots, i, None))
    {
      assert Strip(res.records[i]) == Stripped(res).records[i];
      WalkedRecordShows(res.records[i], slots, i);
    }
  }

  /** The panel for a tree whose route lists never throw: one record per
      leaf in depth-first order, each showing its leaf's class, level,
      module and match attempt; the first leaf whose match succeeds under
      matching parents is "yes", later successes are "may", everything else
      is "no"; and the winning parameters are the first success's. */
  lemma FirstMatchWins(root: Router, factory: Factory)
    requires EscapeFree(root, true)
    ensures var p := Analyse(root, factory);
            var slots := Flatten(root, "", true, -1);
            && p.uncaught.None?
            && |p.records| == |slots| == LeafCount(root)
            && (forall i :: 0 <= i < |slots| ==> RecordShows(p.records[i], slots[i], Expected(slots, i, None)))
            && (forall i :: 0 <= i < |slots| ==> ExpectedMeaning(slots, i))
            && (p.matched.Some? <==> exists i :: 0 <= i < |slots| && Succeeds(slots[i]))
            && p.matched == FirstParams(slots)
  {
    var slots := Flatten(root, "", true, -1);
    WalkShowsSlots(root);
    FlattenCount(root, "", true, -1);
    FirstParamsMeaning(slots);
    forall i | 0 <= i < |slots|
      ensures ExpectedMeaning(slots, i)
    {
      ExpectedIsFirstSuccess(slots, i);
    }
  }

  /** A leaf whose match throws is recorded as "no" with the exception and
      no params, and the walk goes on to its next sibling. */
  lemma LeafThrowContained(rs: seq<Router>, prefix: string, level: int, st: State)
    requires |rs| > 0 && rs[0].Leaf? && rs[0].leaf.outcome.Throws?
    requires st.uncaught.None?
    ensures var first := Visit(rs[0], prefix, true, level, st);
            && first.uncaught.None?
            && first.matched == st.matched
            && first.records[..|st.records|] == st.records
            && first.records[|st.records|].status == No
            && first.records[|st.records|].params.None?
            && first.records[|st.records|].error == Some(rs[0].leaf.outcome.error)
            && VisitAll(rs, prefix, true, level, st) == VisitAll(rs[1..], prefix, true, level, first)
  {
  }

  /* ---------- Resolving the source ---------- */

  /** The first of `names` that is in `methods`. */
  function FirstPresent(names: seq<string>, methods: set<string>): (r: Option<string>)
    ensures r.Some? ==> r.value in names && r.value in methods
    ensures r.None? ==> forall k :: 0 <= k < |names| ==> names[k] !in methods
  {
    if |names| == 0 then None
    else if names[0] in methods then Some(names[0])
    else FirstPresent(names[1..], methods)
  }

  /** `findSource` points to the first of the presenter's preferred methods
      (the signal method; or the action method, then the render method)
      that the class has, and to the class when it has none of them. */
  lemma SourceIsFirstPresentMethod(factory: Factory, params: Params)
    requires TextOr(params, PresenterKey) in factory
    ensures var c := factory[TextOr(params, PresenterKey)];
            FindSource(factory, params) ==
              Some(match FirstPresent(Preferences(c, params), c.methods)
                   case Some(m) => MethodSource(c.name, m)
                   case None => ClassSource(c.name))
  {
  }

  /** An unresolvable presenter leaves the source unset, whatever else the
      winning parameters say. */
  lemma UnknownPresenterHasNoSource(root: Router, factory: Factory)
    requires Analyse(root, factory).matched.Some?
    requires TextOr(Analyse(root, factory).matched.value, PresenterKey) !in factory
    ensures Analyse(root, factory).source.None?
  {
  }

  /** On a UI presenter a signal decides the source even when an action is
      also given. */
  lemma SignalBeatsAction(factory: Factory, params: Params)
    requires TextOr(params, PresenterKey) in factory
    requires factory[TextOr(params, PresenterKey)].isUiPresenter
    requires IsSet(params, SignalKey)
    ensures var c := factory[TextOr(params, PresenterKey)];
            var signal := c.naming.signalMethod(params[SignalKey].text);
            FindSource(factory, params) ==
              Some(if signal in c.methods then MethodSource(c.name, signal) else ClassSource(c.name))
  {
  }

  /** Without a signal, the action method is chosen if the class has it, the
      render method of the same action otherwise, and the class if it has
      neither. */
  lemma ActionFallsBackToRender(factory: Factory, params: Params)
    requires TextOr(params, PresenterKey) in factory
    requires factory[TextOr(params, PresenterKey)].isUiPresenter
    requires !IsSet(params, SignalKey) && IsSet(params, ActionKey)
    ensures var c := factory[TextOr(params, PresenterKey)];
            var action := c.naming.actionMethod(params[ActionKey].text);
            var render := c.naming.renderMethod(params[ActionKey].text);
            FindSource(factory, params) ==
              Some(if action in c.methods then MethodSource(c.name, action)
                   else if render in c.methods then MethodSource(c.name, render)
                   else ClassSource(c.name))
  {
  }
}
