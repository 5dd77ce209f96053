/**
 The order within one array: entries of DEPENDS and of IMPORTS are initialised from the
 first to the last, except where an earlier entry leads to a later one.
 */
module ToolkitOrder {
  import opened ToolkitInit
  import opened Wrappers

  /** `x` occurs, and before any occurrence of `y`. */
  ghost predicate FirstBefore(list: seq<Api>, x: Api, y: Api) {
    exists k :: 0 <= k < |list| && list[k] == x && y !in list[..k + 1]
  }

  /** None of the entries up to the i-th leads to `y`. */
  ghost predicate NoneLeads(g: Graph, list: seq<Api>, i: nat, y: Api) {
    forall k :: 0 <= k <= i && k < |list| ==> !Leads(g, list[k], y)
  }

  /** A list of imports is done piece by piece. */
  lemma {:induction false} InitAllSplit(g: Graph, s: Registry, apis: seq<Api>, bound: nat, i: nat)
    requires WellFormed(g) && Within(g, s) && i <= |apis|
    requires forall a :: a in apis ==> a in g.universe && g.height(a) < bound
    ensures InitAll(g, s, apis, bound) == InitAll(g, InitAll(g, s, apis[..i], bound), apis[i..], bound)
    decreases i
  {
    if i > 0 {
      var s1 := Init(g, s, apis[0]);
      assert apis[..i][1..] == apis[1..][..i - 1] && apis[1..][i - 1..] == apis[i..];
      InitAllSplit(g, s1, apis[1..], bound, i - 1);
    }
  }

  /** Everything registered has run. */
  ghost predicate HasRun(s: Registry) {
    forall x :: x in s.apis ==> x in s.runs
  }

  /** What is registered first runs first. */
  lemma RegisteredFirst(s: Registry, s': Registry, x: Api, y: Api)
    requires Grows(s, s') && x in s.apis && y !in s.apis
    ensures FirstBefore(s'.apis, x, y)
  {
    var k :| 0 <= k < |s.apis| && s.apis[k] == x;
    assert s'.apis[k] == x && s'.apis[..k + 1] == s.apis[..k + 1];
  }

  lemma RunFirst(s: Registry, s': Registry, x: Api, y: Api)
    requires Grows(s, s') && x in s.runs && y !in s.runs
    ensures FirstBefore(s'.runs, x, y)
  {
    var k :| 0 <= k < |s.runs| && s.runs[k] == x;
    assert s'.runs[k] == x && s'.runs[..k + 1] == s.runs[..k + 1];
  }

  lemma LoggedHasRun(s: Registry)
    requires Logged(s)
    ensures HasRun(s)
  {
    forall x | x in s.apis ensures x in s.runs {
      assert x in multiset(s.apis) && x in multiset(s.runs);
    }
  }

  /**
   The entries of one array: if nothing up to the i-th leads to the j-th, and that is new, the
   i-th is registered before it and its body runs before it.
   */
  lemma ArrayInOrder(g: Graph, s: Registry, apis: seq<Api>, bound: nat, i: nat, j: nat) returns (s1: Registry)
    requires WellFormed(g) && Within(g, s) && Logged(s) && OnlyLogged(s) && i < j < |apis|
    requires forall a :: a in apis ==> a in g.universe && g.height(a) < bound
    requires apis[j] !in s.apis && NoneLeads(g, apis, i, apis[j])
    ensures Within(g, s1) && Grows(s1, InitAll(g, s, apis, bound))
    ensures apis[i] in s1.apis && apis[i] in s1.runs && apis[j] !in s1.apis && apis[j] !in s1.runs
  {
    var i': nat := i + 1;
    var front := apis[..i'];
    forall a | a in front ensures a in g.universe && g.height(a) < bound {
      assert a in apis;
    }
    s1 := InitAll(g, s, front, bound);
    InitAllSplit(g, s, apis, bound, i');
    InitLogs(g, s, front, bound);
    LoggedHasRun(s1);
    InitKeepsLog(g, s, front, bound, apis[j]);
    assert front[i] == apis[i] && apis[i] in front;
    FrontAvoids(g, s, apis, bound, i, front, apis[j]);
  }

  lemma FrontAvoids(g: Graph, s: Registry, apis: seq<Api>, bound: nat, i: nat, front: seq<Api>, y: Api)
    requires WellFormed(g) && Within(g, s) && i < |apis| && front == apis[..i + 1]
    requires forall a :: a in front ==> a in g.universe && g.height(a) < bound
    requires y !in s.apis && NoneLeads(g, apis, i, y)
    ensures y !in InitAll(g, s, front, bound).apis
  {
    forall a | a in front ensures !Leads(g, a, y) {
      var k: nat :| k < |front| && front[k] == a;
      assert apis[k] == a;
    }
    InitAllAccounted(g, s, front, bound);
  }

  /** DEPENDS: the array of `a` is walked from its first entry to its last. */
  lemma DependsInOrder(g: Graph, s: Registry, a: Api, i: nat, j: nat)
    requires WellFormed(g) && Within(g, s) && Logged(s) && OnlyLogged(s) && a in g.universe && a !in s.apis
    requires i < j < |g.depends(a)| && g.depends(a)[j] !in s.apis && NoneLeads(g, g.depends(a), i, g.depends(a)[j])
    ensures FirstBefore(Init(g, s, a).apis, g.depends(a)[i], g.depends(a)[j])
    ensures FirstBefore(Init(g, s, a).runs, g.depends(a)[i], g.depends(a)[j])
  {
    var list := g.depends(a);
    var s1 := ArrayInOrder(g, s, list, g.height(a), i, j);
    var s2 := InitAll(g, s, list, g.height(a));
    var s' := Init(g, s, a);
    GrowsOn(s1, s2, s');
    RegisteredFirst(s1, s', list[i], list[j]);
    RunFirst(s1, s', list[i], list[j]);
  }

  lemma GrowsOn(s: Registry, s1: Registry, s2: Registry)
    requires Grows(s, s1) && Grows(s1, s2)
    ensures Grows(s, s2)
  {
  }

  /** The registry when the imports of `a` begin. */
  ghost function BeforeImports(g: Graph, s: Registry, a: Api): (s': Registry)
    requires WellFormed(g) && Within(g, s) && a in g.universe
    ensures Within(g, s')
  {
    Register(InitAll(g, s, g.depends(a), g.height(a)), a)
  }

  /**
   IMPORTS: likewise, for entries that `a` has not brought in by way of DEPENDS, and after the
   body of `a` has run.
   */
  lemma ImportsInOrder(g: Graph, s: Registry, a: Api, i: nat, j: nat)
    requires WellFormed(g) && Within(g, s) && Logged(s) && OnlyLogged(s) && a in g.universe && a !in s.apis
    requires i < j < |g.imports(a)| && g.imports(a)[j] !in s.apis && NoneLeads(g, g.imports(a), i, g.imports(a)[j])
    requires g.imports(a)[j] != a && NoneLeads(g, g.depends(a), |g.depends(a)|, g.imports(a)[j])
    ensures FirstBefore(Init(g, s, a).apis, g.imports(a)[i], g.imports(a)[j])
    ensures FirstBefore(Init(g, s, a).runs, g.imports(a)[i], g.imports(a)[j])
    ensures FirstBefore(Init(g, s, a).apis, a, g.imports(a)[j]) && FirstBefore(Init(g, s, a).runs, a, g.imports(a)[j])
  {
    var list, y := g.imports(a), g.imports(a)[j];
    var s2 := BeforeImports(g, s, a);
    var s' := Init(g, s, a);
    LoggedBeforeImports(g, s, a, y);
    var s1 := ArrayInOrder(g, s2, list, g.top, i, j);
    RegisteredFirst(s1, s', list[i], y);
    RunFirst(s1, s', list[i], y);
    assert Grows(s2, s') && a in s2.apis && a in s2.runs;
    RegisteredFirst(s2, s', a, y);
    RunFirst(s2, s', a, y);
  }

  lemma LoggedBeforeImports(g: Graph, s: Registry, a: Api, y: Api)
    requires WellFormed(g) && Within(g, s) && Logged(s) && OnlyLogged(s) && a in g.universe && a !in s.apis
    requires y !in s.apis && y != a && NoneLeads(g, g.depends(a), |g.depends(a)|, y)
    ensures var s2 := BeforeImports(g, s, a); Logged(s2) && OnlyLogged(s2) && y !in s2.apis && y !in s2.runs
    ensures a in BeforeImports(g, s, a).apis && a in BeforeImports(g, s, a).runs
  {
    var list := g.depends(a);
    var s1 := InitAll(g, s, list, g.height(a));
    InitLogs(g, s, list, g.height(a));
    InitKeepsLog(g, s, list, g.height(a), y);
    forall d | d in list ensures !Leads(g, d, y) {
      var k: nat :| k < |list| && list[k] == d;
    }
    InitAllAccounted(g, s, list, g.height(a));
  }

  // ---------------------------------------------------------------- why only then

  const TOP: Api := 0
  const FIRST: Api := 1
  const SECOND: Api := 2
  const THIRD: Api := 3

  /** TOP depends on FIRST, SECOND and THIRD; FIRST depends on THIRD. */
  ghost function Dragging(): Graph {
    Graph({TOP, FIRST, SECOND, THIRD},
          a => if a == TOP then [FIRST, SECOND, THIRD] else if a == FIRST then [THIRD] else [],
          a => [],
          a => if a == TOP then 2 else if a == FIRST then 1 else 0,
          3)
  }

  lemma InitAllFirst(g: Graph, s: Registry, apis: seq<Api>, bound: nat, a: Api, rest: seq<Api>)
    requires WellFormed(g) && Within(g, s) && apis == [a] + rest
    requires forall x :: x in apis ==> x in g.universe && g.height(x) < bound
    ensures a in apis && (forall x :: x in rest ==> x in apis)
    ensures InitAll(g, s, apis, bound) == InitAll(g, Init(g, s, a), rest, bound)
  {
    assert apis[0] == a && apis[1..] == rest;
  }

  /** An API without IMPORTS comes right behind its DEPENDS. */
  lemma InitLast(g: Graph, s: Registry, a: Api, s1: Registry)
    requires WellFormed(g) && Within(g, s) && a in g.universe && a !in s.apis && g.imports(a) == []
    requires s1 == InitAll(g, s, g.depends(a), g.height(a))
    ensures Init(g, s, a) == Register(s1, a)
  {
  }

  lemma InitLeaf(g: Graph, s: Registry, a: Api)
    requires WellFormed(g) && Within(g, s) && a in g.universe && a !in s.apis && g.depends(a) == [] == g.imports(a)
    ensures Init(g, s, a) == Register(s, a)
  {
    InitLast(g, s, a, s);
  }

  /** The edges of `Dragging`, spelled out. */
  ghost predicate Drags(g: Graph) {
    && WellFormed(g) && g.universe == {TOP, FIRST, SECOND, THIRD}
    && g.depends(TOP) == [FIRST, SECOND, THIRD] && g.depends(FIRST) == [THIRD]
    && g.depends(SECOND) == [] == g.depends(THIRD)
    && g.imports(TOP) == [] == g.imports(FIRST) && g.imports(SECOND) == [] == g.imports(THIRD)
  }

  lemma InitsFirst(g: Graph)
    requires Drags(g)
    ensures Init(g, Registry([], []), FIRST) == Registry([THIRD, FIRST], [THIRD, FIRST])
  {
    var s, s1 := Registry([], []), Registry([THIRD], [THIRD]);
    InitLeaf(g, s, THIRD);
    assert Register(s, THIRD) == s1;
    InitAllFirst(g, s, [THIRD], g.height(FIRST), THIRD, []);
    InitLast(g, s, FIRST, s1);
    assert Register(s1, FIRST) == Registry([THIRD, FIRST], [THIRD, FIRST]);
  }

  lemma InitsOthers(g: Graph, s: Registry, bound: nat)
    requires Drags(g) && g.height(SECOND) < bound && g.height(THIRD) < bound
    requires s == Registry([THIRD, FIRST], [THIRD, FIRST])
    ensures InitAll(g, s, [SECOND, THIRD], bound).apis == [THIRD, FIRST, SECOND]
  {
    var s3 := Registry([THIRD, FIRST, SECOND], [THIRD, FIRST, SECOND]);
    InitLeaf(g, s, SECOND);
    assert Register(s, SECOND) == s3;
    InitAllFirst(g, s, [SECOND, THIRD], bound, SECOND, [THIRD]);
    InitAllFirst(g, s3, [THIRD], bound, THIRD, []);
  }

  lemma InitsDepends(g: Graph, s: Registry, list: seq<Api>) returns (s3: Registry)
    requires Drags(g) && s == Registry([], []) && list == g.depends(TOP)
    ensures s3 == InitAll(g, s, list, g.height(TOP)) && s3.apis == [THIRD, FIRST, SECOND]
  {
    InitsFirst(g);
    assert SECOND in list && THIRD in list;
    InitAllFirst(g, s, list, g.height(TOP), FIRST, [SECOND, THIRD]);
    InitsOthers(g, Registry([THIRD, FIRST], [THIRD, FIRST]), g.height(TOP));
    s3 := InitAll(g, s, list, g.height(TOP));
  }

  lemma InitsTop(g: Graph)
    requires Drags(g)
    ensures Init(g, Registry([], []), TOP).apis == [THIRD, FIRST, SECOND, TOP]
  {
    var s := Registry([], []);
    var s3 := InitsDepends(g, s, g.depends(TOP));
    InitLast(g, s, TOP, s3);
  }

  lemma LeafLeadsNowhere(g: Graph, p: seq<Api>)
    requires Drags(g) && Walk(g, p) && p[0] == SECOND
    ensures |p| == 1
  {
    assert |p| > 1 ==> Edge(g, p[0], p[1]);
  }

  lemma DraggingDrags() returns (g: Graph)
    ensures Drags(g)
  {
    g := Dragging();
  }

  /** An entry before both can bring the later one in first, though the earlier one does not lead to it. */
  lemma EarlierEntryDrags() returns (g: Graph)
    ensures WellFormed(g) && TOP in g.universe && g.depends(TOP) == [FIRST, SECOND, THIRD] && !Leads(g, SECOND, THIRD)
    ensures Init(g, Registry([], []), TOP).apis == [THIRD, FIRST, SECOND, TOP]
  {
    g := DraggingDrags();
    InitsTop(g);
    forall p | Walk(g, p) && p[0] == SECOND ensures p[|p| - 1] != THIRD {
      LeafLeadsNowhere(g, p);
    }
  }
}
