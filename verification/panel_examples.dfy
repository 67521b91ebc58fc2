/**
 Concrete router trees and what the panel shows for them.
 */
module PanelExamples {
  import opened Values
  import opened Routers
  import opened Presenters
  import opened RoutingPanel

  const RouteClass := "Nette\\Application\\Routers\\Route"

  /** A `Route` whose match always yields the given parameters. */
  function Matching(params: Params): LeafRouter {
    LeafRouter(RouteKind(RouteClass), Match(params), map[], "<presenter>/<action>")
  }

  const Refusing := LeafRouter(SimpleRouterKind("Nette\\Application\\Routers\\SimpleRouter"), NoMatch, map["presenter" := Scalar("Home")], "")

  /** The walk over `[r] + rest`: `r` first, then the rest unless an
      exception escaped. */
  lemma VisitAllCons(r: Router, rest: seq<Router>, prefix: string, parentMatches: bool, level: int, st: State)
    ensures VisitAll([r] + rest, prefix, parentMatches, level, st) ==
            var first := Visit(r, prefix, parentMatches, level, st);
            if first.uncaught.Some? then first else VisitAll(rest, prefix, parentMatches, level, first)
  {
    assert ([r] + rest)[0] == r;
    assert ([r] + rest)[1..] == rest;
  }

  const Broken := Failure("Nette\\InvalidStateException", "broken route")

  const EditParams: Params := map["presenter" := Scalar("Edit"), "action" := Scalar("default")]

  /** Lists with modules "Admin:" and "Users:" around a leaf matching
      presenter "Edit". */
  const AdminTree :=
    RouteList("", [RouteList("Admin:", [RouteList("Users:", [Leaf(Matching(EditParams))], ListMatch)], ListMatch)], ListMatch)

  const AdminSlot := Slot(Matching(EditParams), "Admin:Users:", true, 2)

  /** The walk over `AdminTree` leaves the record the leaf's step made,
      with gutters added. */
  lemma AdminWalk()
    ensures var st := Visit(AdminTree, "", true, -1, Fresh);
            |st.records| == 1 && Strip(st.records[0]) == Strip(Step(Fresh, AdminSlot).records[0])
  {
    var leaf := Matching(EditParams);
    var users := RouteList("Users:", [Leaf(leaf)], ListMatch);
    var admin := RouteList("Admin:", [users], ListMatch);
    assert "" + "" == "" && "" + "Admin:" == "Admin:" && "Admin:" + "Users:" == "Admin:Users:";
    assert ChildMatches(true, ListMatch);
    var s1 := Step(Fresh, AdminSlot);
    VisitAllCons(Leaf(leaf), [], "Admin:Users:", true, 2, Fresh);
    assert [Leaf(leaf)] + [] == [Leaf(leaf)];
    var s2 := s1.(records := SetGutters(s1.records, 0, 1));
    assert Visit(users, "Admin:", true, 1, Fresh) == s2;
    VisitAllCons(users, [], "Admin:", true, 1, Fresh);
    assert [users] + [] == [users];
    var s3 := s2.(records := SetGutters(s2.records, 0, 0));
    assert Visit(admin, "", true, 0, Fresh) == s3;
    VisitAllCons(admin, [], "", true, 0, Fresh);
    assert [admin] + [] == [admin];
    var s4 := s3.(records := SetGutters(s3.records, 0, -1));
    assert Visit(AdminTree, "", true, -1, Fresh) == s4;
  }

  /** The record of the "Edit" leaf inside the two modules. */
  lemma AdminRecord()
    ensures var rec := Step(Fresh, AdminSlot).records[0];
            && rec.status == Yes
            && rec.params.Some?
            && PresenterKey in rec.params.value && ActionKey in rec.params.value
            && rec.params.value[PresenterKey] == Scalar("Admin:Users:Edit")
            && rec.params.value[ActionKey] == Scalar("default")
            && rec.moduleName == "Admin:Users"
            && rec.level == 2
            && rec.mask == Some("<presenter>/<action>")
  {
    assert Truthy("Admin:Users:");
    var params := WithModule(EditParams, "Admin:Users:");
    assert Try(AdminSlot).params == Some(params);
    assert Step(Fresh, AdminSlot).records[0] == LeafRecord(AdminSlot, Yes);
    assert params[PresenterKey] == Scalar("Admin:Users:" + "Edit");
    assert "Admin:Users:" + "Edit" == "Admin:Users:Edit";
    assert RTrimColons("Admin:Users:") == "Admin:Users" by {
      assert "Admin:Users:"[..11] == "Admin:Users";
      assert RTrimColons("Admin:Users") == "Admin:Users";
    }
  }

  /** Module prefixes concatenate from the root down: the presenter becomes
      "Admin:Users:Edit" and the record shows the module without its final
      colon, two levels below the root's children. */
  lemma NestedModulesConcatenate(factory: Factory)
    ensures var p := Analyse(AdminTree, factory);
            && |p.records| == 1
            && p.records[0].status == Yes
            && p.records[0].params.Some?
            && PresenterKey in p.records[0].params.value
            && p.records[0].params.value[PresenterKey] == Scalar("Admin:Users:Edit")
            && p.records[0].moduleName == "Admin:Users"
            && p.records[0].level == 2
  {
    AdminWalk();
    AdminRecord();
    var rec := Analyse(AdminTree, factory).records[0];
    assert rec.status == Strip(rec).status && rec.params == Strip(rec).params;
    assert rec.moduleName == Strip(rec).moduleName && rec.level == Strip(rec).level;
  }

  /** A leaf directly in the root list sits at level 0, as does the root
      list itself, so both of its gutters are 0. */
  lemma RootListGutters()
    ensures var p := Analyse(RouteList("", [Leaf(Matching(EditParams))], ListMatch), map[]);
            |p.records| == 1 && p.records[0].gutterTop == Some(0) && p.records[0].gutterBottom == Some(0)
  {
    var leaf := Matching(EditParams);
    var s1 := Step(Fresh, Slot(leaf, "", true, 0));
    VisitAllCons(Leaf(leaf), [], "", true, 0, Fresh);
    assert [Leaf(leaf)] + [] == [Leaf(leaf)];
    assert s1.records[0].level == 0;
    assert "" + "" == "";
    assert ChildMatches(true, ListMatch);
    assert Visit(RouteList("", [Leaf(leaf)], ListMatch), "", true, -1, Fresh).records == SetGutters(s1.records, 0, -1);
  }

  /** A list at level 0 holding one leaf at level 1 gives it gutters of 1. */
  lemma NestedListGutters()
    ensures var p := Analyse(RouteList("", [RouteList("", [Leaf(Matching(EditParams))], ListMatch)], ListMatch), map[]);
            |p.records| == 1 && p.records[0].gutterTop == Some(1) && p.records[0].gutterBottom == Some(1)
  {
    var leaf := Matching(EditParams);
    var inner := RouteList("", [Leaf(leaf)], ListMatch);
    assert "" + "" == "";
    assert ChildMatches(true, ListMatch);
    var s1 := Step(Fresh, Slot(leaf, "", true, 1));
    VisitAllCons(Leaf(leaf), [], "", true, 1, Fresh);
    assert [Leaf(leaf)] + [] == [Leaf(leaf)];
    assert s1.records[0].level == 1;
    var s2 := s1.(records := SetGutters(s1.records, 0, 0));
    assert Visit(inner, "", true, 0, Fresh) == s2;
    VisitAllCons(inner, [], "", true, 0, Fresh);
    assert [inner] + [] == [inner];
    assert s2.records[0].level == 1;
    assert Visit(RouteList("", [inner], ListMatch), "", true, -1, Fresh).records == SetGutters(s2.records, 0, -1);
  }

  const Unmatched := Slot(Refusing, "", true, 0)

  /** The empty list, visited after one leaf, gives that leaf's record a
      bottom gutter and adds nothing. */
  lemma EmptyListAfterLeaf()
    ensures var st := Visit(RouteList("", [], ListMatch), "", true, 0, Step(Fresh, Unmatched));
            |st.records| == 1 && st.uncaught.None? && st.records[0].gutterBottom == Some(0)
  {
    var s1 := Step(Fresh, Unmatched);
    assert s1.records[0].level == 0;
    assert ChildMatches(true, ListMatch);
    assert Visit(RouteList("", [], ListMatch), "", true, 0, s1) == s1.(records := SetGutters(s1.records, 1, 0));
  }

  /** The root list's children around the empty list, walked one by one. */
  lemma EmptyListWalk()
    ensures var s2 := Visit(RouteList("", [], ListMatch), "", true, 0, Step(Fresh, Unmatched));
            VisitAll([Leaf(Refusing), RouteList("", [], ListMatch), Leaf(Refusing)], "", true, 0, Fresh)
              == Step(s2, Unmatched)
  {
    var a := Leaf(Refusing);
    var empty := RouteList("", [], ListMatch);
    assert [a, empty, a] == [a] + ([empty] + ([a] + []));
    var s1 := Step(Fresh, Unmatched);
    VisitAllCons(a, [empty, a], "", true, 0, Fresh);
    assert [empty, a] == [empty] + [a];
    EmptyListAfterLeaf();
    var s2 := Visit(empty, "", true, 0, s1);
    VisitAllCons(empty, [a], "", true, 0, s1);
    VisitAllCons(a, [], "", true, 0, s2);
    assert [a] + [] == [a];
  }

  /** An empty route list sets `gutterBottom` on the record before it, which
      no list of its own encloses. */
  lemma EmptyListMarksPreviousRecord()
    ensures var p := Analyse(RouteList("", [Leaf(Refusing), RouteList("", [], ListMatch), Leaf(Refusing)], ListMatch), map[]);
            |p.records| == 2 && p.records[0].gutterBottom == Some(0)
  {
    assert "" + "" == "";
    assert ChildMatches(true, ListMatch);
    EmptyListWalk();
    EmptyListAfterLeaf();
    var s2 := Visit(RouteList("", [], ListMatch), "", true, 0, Step(Fresh, Unmatched));
    var s3 := Step(s2, Unmatched);
    assert s3.records[0] == s3.records[..1][0] == s2.records[0];
  }

  /** Without the empty list, the first of two leaves gets no bottom gutter. */
  lemma NoEmptyListNoBottomGutter()
    ensures var p := Analyse(RouteList("", [Leaf(Refusing), Leaf(Refusing)], ListMatch), map[]);
            |p.records| == 2 && p.records[0].gutterBottom.None?
  {
    var a := Leaf(Refusing);
    assert "" + "" == "";
    assert ChildMatches(true, ListMatch);
    assert [a, a] == [a] + ([a] + []);
    var s1 := Step(Fresh, Unmatched);
    assert s1.records[0].gutterBottom.None?;
    var t1 := Step(s1, Unmatched);
    VisitAllCons(a, [a], "", true, 0, Fresh);
    VisitAllCons(a, [], "", true, 0, s1);
    assert [a] + [] == [a];
    assert VisitAll([a, a], "", true, 0, Fresh) == t1;
    assert t1.records[0] == t1.records[..1][0] == s1.records[0];
  }

  const Hidden := RouteList("", [Leaf(Matching(EditParams))], ListNoMatch)
  const ParentSlot := Slot(Matching(EditParams), "", true, 0)
  const EmptySlot := Slot(Matching(map[]), "", true, 0)

  /** The list that does not match contributes one "no" record. */
  lemma HiddenWalk()
    ensures var st := Visit(Hidden, "", true, 0, Fresh);
            && |st.records| == 1 && st.uncaught.None? && st.matched.None?
            && st.records[0].status == No && st.records[0].params.None?
  {
    var inner := Leaf(Matching(EditParams));
    assert "" + "" == "";
    assert !ChildMatches(true, ListNoMatch);
    var sA := Step(Fresh, Slot(Matching(EditParams), "", false, 1));
    VisitAllCons(inner, [], "", false, 1, Fresh);
    assert [inner] + [] == [inner];
    assert Visit(Hidden, "", true, 0, Fresh) == sA.(records := SetGutters(sA.records, 0, 0));
  }

  /** The three children in order: "no", the winner, then a "may". */
  lemma ThreeChildrenWalk()
    ensures var st := VisitAll([Hidden, Leaf(Matching(EditParams)), Leaf(Matching(map[]))], "", true, 0, Fresh);
            && |st.records| == 3 && st.uncaught.None?
            && st.records[0].status == No && st.records[0].params.None?
            && st.records[1].status == Yes
            && st.records[2].status == May && st.records[2].params == Some(map[])
            && st.matched == Some(EditParams)
  {
    var b := Leaf(Matching(EditParams));
    var c := Leaf(Matching(map[]));
    assert [Hidden, b, c] == [Hidden] + ([b] + ([c] + []));
    HiddenWalk();
    var sL := Visit(Hidden, "", true, 0, Fresh);
    var sB := Step(sL, ParentSlot);
    assert Try(ParentSlot).params == Some(EditParams);
    var sC := Step(sB, EmptySlot);
    assert Try(EmptySlot).params == Some(map[]);
    StepRecordParams(sB, EmptySlot);
    VisitAllCons(Hidden, [b, c], "", true, 0, Fresh);
    assert [b, c] == [b] + [c];
    VisitAllCons(b, [c], "", true, 0, sL);
    VisitAllCons(c, [], "", true, 0, sB);
    assert [c] + [] == [c];
    assert VisitAll([Hidden, b, c], "", true, 0, Fresh) == sC;
    assert sC.records[0] == sC.records[..2][0] == sB.records[0] == sB.records[..1][0] == sL.records[0];
    assert sC.records[1] == sC.records[..2][1] == sB.records[1];
  }

  /** The params a step records are the leaf's attempt. */
  lemma StepRecordParams(st: State, slot: Slot)
    ensures Step(st, slot).records[|st.records|].params == Try(slot).params
  {
  }

  /** A leaf that would match under a list that does not is "no"; the next
      matching leaf wins and the one after it is only "may". */
  lemma FailedParentThenFirstMatch()
    ensures var p := Analyse(
              RouteList("", [Hidden, Leaf(Matching(EditParams)), Leaf(Matching(map[]))], ListMatch), map[]);
            && |p.records| == 3
            && p.records[0].status == No && p.records[0].params.None?
            && p.records[1].status == Yes
            && p.records[2].status == May && p.records[2].params == Some(map[])
            && p.matched == Some(EditParams)
  {
    assert "" + "" == "";
    assert ChildMatches(true, ListMatch);
    ThreeChildrenWalk();
    var sC := VisitAll([Hidden, Leaf(Matching(EditParams)), Leaf(Matching(map[]))], "", true, 0, Fresh);
    var sR := sC.(records := SetGutters(sC.records, 0, -1));
    assert Visit(RouteList("", [Hidden, Leaf(Matching(EditParams)), Leaf(Matching(map[]))], ListMatch), "", true, -1, Fresh) == sR;
    assert forall i :: 0 <= i < 3 ==> sR.records[i].status == Strip(sR.records[i]).status == Strip(sC.records[i]).status;
    assert sR.records[2].params == Strip(sR.records[2]).params == Strip(sC.records[2]).params;
    assert sR.records[0].params == Strip(sR.records[0]).params == Strip(sC.records[0]).params;
  }

  /** A leaf whose match throws is "no" with the exception, and its sibling
      is still tried. */
  lemma LeafThrowIsRecorded()
    ensures var p := Analyse(
              RouteList("", [
                Leaf(LeafRouter(OtherKind("App\\BrokenRouter"), Throws(Broken), map[], "")),
                Leaf(Matching(EditParams))], ListMatch), map[]);
            && p.uncaught.None?
            && |p.records| == 2
            && p.records[0].status == No && p.records[0].error == Some(Broken)
            && p.records[0].defaults == map[] && p.records[0].mask.None?
            && p.records[1].status == Yes
  {
    var broken := LeafRouter(OtherKind("App\\BrokenRouter"), Throws(Broken), map[], "");
    var b := Leaf(Matching(EditParams));
    assert "" + "" == "";
    assert ChildMatches(true, ListMatch);
    var slotA := Slot(broken, "", true, 0);
    var sA := Step(Fresh, slotA);
    assert Try(slotA) == Attempt(None, Some(Broken));
    assert sA.records[0] == LeafRecord(slotA, No);
    var slotB := Slot(Matching(EditParams), "", true, 0);
    var sB := Step(sA, slotB);
    assert Try(slotB).params.Some?;
    VisitAllCons(Leaf(broken), [b], "", true, 0, Fresh);
    VisitAllCons(b, [], "", true, 0, sA);
    assert [Leaf(broken), b] == [Leaf(broken)] + ([b] + []);
    assert [b] + [] == [b];
    assert VisitAll([Leaf(broken), b], "", true, 0, Fresh) == sB;
    assert sB.records[0] == sA.records[0];
    var sR := sB.(records := SetGutters(sB.records, 0, -1));
    assert forall i :: 0 <= i < 2 ==> Strip(sR.records[i]) == Strip(sB.records[i]);
  }

  /** A route list whose own match throws ends the walk: the exception
      escapes and later leaves are never recorded. */
  lemma ListThrowEscapes()
    ensures var p := Analyse(
              RouteList("", [
                Leaf(Matching(EditParams)),
                RouteList("", [Leaf(Matching(EditParams))], ListThrows(Broken)),
                Leaf(Matching(EditParams))], ListMatch), map[]);
            && p.uncaught == Some(Broken)
            && |p.records| == 1
            && p.records[0].status == Yes
  {
    var a := Leaf(Matching(EditParams));
    var throwing := RouteList("", [a], ListThrows(Broken));
    assert "" + "" == "";
    assert ChildMatches(true, ListMatch);
    assert [a, throwing, a] == [a] + ([throwing] + [a]);
    var slot := Slot(Matching(EditParams), "", true, 0);
    var s1 := Step(Fresh, slot);
    assert Try(slot).params.Some?;
    VisitAllCons(a, [throwing, a], "", true, 0, Fresh);
    VisitAllCons(throwing, [a], "", true, 0, s1);
    assert Visit(throwing, "", true, 0, s1) == s1.(uncaught := Some(Broken));
    assert VisitAll([a, throwing, a], "", true, 0, Fresh) == s1.(uncaught := Some(Broken));
  }

  /** The naming these examples use: the handler prefix followed by the name
      with its first letter in upper case. Method names are compared exactly
      (see the README on method-name case). */
  function UpperFirst(s: string): (r: string)
  {
    if |s| > 0 && 'a' <= s[0] <= 'z' then [(s[0] as int - 32) as char] + s[1..] else s
  }

  const ExampleNaming := Naming(
    s => "handle" + UpperFirst(s),
    a => "action" + UpperFirst(a),
    v => "render" + UpperFirst(v))

  const Home := PresenterClass("App\\HomePresenter", true, {"renderDefault", "handleLogout"}, ExampleNaming)

  /** Action "default" on a presenter with `renderDefault` but no
      `actionDefault` points to `renderDefault`. */
  lemma RenderFallback()
    ensures FindSource(map["Home" := Home], map[PresenterKey := Scalar("Home"), ActionKey := Scalar("default")])
            == Some(MethodSource("App\\HomePresenter", "renderDefault"))
  {
    assert UpperFirst("default") == "Default";
    assert "action" + "Default" == "actionDefault";
    assert "render" + "Default" == "renderDefault";
  }

  /** A signal wins over the action. */
  lemma SignalFirst()
    ensures FindSource(map["Home" := Home],
                       map[PresenterKey := Scalar("Home"), ActionKey := Scalar("default"), SignalKey := Scalar("logout")])
            == Some(MethodSource("App\\HomePresenter", "handleLogout"))
  {
    assert UpperFirst("logout") == "Logout";
    assert "handle" + "Logout" == "handleLogout";
  }

  /** An unknown presenter leaves the source unset. */
  lemma UnknownPresenter()
    ensures FindSource(map["Home" := Home], map[PresenterKey := Scalar("Unknown")]).None?
  {
  }
}
