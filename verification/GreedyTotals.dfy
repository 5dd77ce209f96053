/**
 A search that reports more than its path costs. Greedy search closes `DEAR` by way of an
 expensive transition, finds `BEST` behind it, and then finds a cheap way to `DEAR`; when the
 budget ends before `DEAR` is expanded again, `BEST` still has its old cost.
 */
module GreedyTotals {
  import opened Folds
  import opened PathGraph
  import opened SearchModel
  import opened SearchInvariant
  import opened SearchTheorems
  import opened Wrappers

  const START: Word := 0
  const DEAR: Word := 1
  const CHEAP: Word := 2
  const BEST: Word := 3

  const TO_DEAR: Transition := Transition(DEAR, 10, 0)
  const TO_CHEAP: Transition := Transition(CHEAP, 0, 0)
  const TO_BEST: Transition := Transition(BEST, 1, 0)
  const BACK: Transition := Transition(DEAR, 1, 0)

  function Emitted(state: Word): seq<Option<Transition>> {
    if state == START then [Some(TO_DEAR), Some(TO_CHEAP)]
    else if state == DEAR then [Some(TO_BEST)]
    else if state == CHEAP then [Some(BACK)]
    else []
  }

  function Rank(state: Word): Word {
    if state <= BEST then BEST - state else 0
  }

  /** Three expansions, no goal, and the state's number as its heuristic. */
  function Request(): Config {
    Config(
      Adapter({Neighbors, Goal, Heuristic, PartialRank}, Emitted, (s: Word) => true, false, (s: Word) => false,
              (s: Word) => s, Rank, (poll: nat) => false),
      Options(GreedyBestFirst, 3, 0, 0, 0, true),
      START)
  }

  function NodeOf(state: Word, cost: Word, parent: Option<nat>, sequence: nat, closed: bool): Node {
    Node(state, cost, state, state, 0, parent, sequence, closed)
  }

  /** A running search; the counters that no budget looks at are left open. */
  ghost predicate Runs(s: Search, nodes: seq<Node>, open: set<nat>, expanded: nat, best: nat) {
    && s.nodes == nodes && s.open == open && s.expanded == expanded && s.stop.None?
    && s.best.Some? && s.best.value.node == best && best < |nodes| && s.best.value.rank == Rank(nodes[best].state)
    && Indexed(s)
  }

  // ---------------------------------------------------------------- single steps

  lemma Discovers(s: Search, a: nat, t: Transition, nodes: seq<Node>, open: set<nat>, expanded: nat, best: nat)
      returns (s': Search)
    requires Runs(s, nodes, open, expanded, best) && a < |nodes| && nodes[a].cost + t.cost <= UINT64_MAX
    requires forall i :: 0 <= i < |nodes| ==> nodes[i].state != t.state
    requires t.data == 0 && Rank(t.state) < Rank(nodes[best].state)
    ensures s' == Emit(Request(), s, a, Some(t))
    ensures Runs(s', nodes + [NodeOf(t.state, nodes[a].cost + t.cost, Some(a), |nodes|, false)],
                 open + {|nodes|}, expanded, |nodes|)
  {
    s' := Emit(Request(), s, a, Some(t));
  }

  lemma Lowers(s: Search, a: nat, v: nat, t: Transition, nodes: seq<Node>, open: set<nat>, expanded: nat, best: nat)
      returns (s': Search)
    requires Runs(s, nodes, open, expanded, best) && a < |nodes| && v < |nodes|
    requires nodes[a].cost + t.cost < nodes[v].cost
    requires forall i :: 0 <= i < |nodes| && nodes[i].state == t.state ==> i == v
    requires nodes[v] == NodeOf(t.state, nodes[v].cost, nodes[v].parent, v, true)
    requires t.data == 0 && Rank(t.state) > Rank(nodes[best].state)
    ensures s' == Emit(Request(), s, a, Some(t))
    ensures Runs(s', nodes[v := NodeOf(t.state, nodes[a].cost + t.cost, Some(a), v, false)], open + {v}, expanded, best)
  {
    s' := Emit(Request(), s, a, Some(t));
  }

  lemma PopsLeast(s: Search, n: nat, nodes: seq<Node>, open: set<nat>, expanded: nat, best: nat)
    requires Runs(s, nodes, open, expanded, best) && expanded < 3 && n in open && IsLeast(nodes, open, n)
    ensures Indexed(s) && n < |s.nodes| && Step(Request(), s) == Expand(Request(), s.(polls := s.polls + 1), n)
  {
    var m := Least(nodes, open);
    assert m == n;
  }

  lemma ExpandEmits(s: Search, n: nat, es: seq<Option<Transition>>)
    requires Indexed(s) && n < |s.nodes| && es == Emitted(s.nodes[n].state)
    ensures Expand(Request(), s, n) == Fold(Emitter(Request(), n), Close(s, n), es, |es|)
  {
  }

  /** The least open node is closed and its transitions are emitted. */
  lemma Turns(s: Search, n: nat, nodes: seq<Node>, open: set<nat>, expanded: nat, best: nat)
      returns (s0: Search, es: seq<Option<Transition>>)
    requires Runs(s, nodes, open, expanded, best) && expanded < 3 && n in open && IsLeast(nodes, open, n)
    ensures es == Emitted(nodes[n].state)
    ensures Runs(s0, nodes[n := nodes[n].(closed := true)], open - {n}, expanded + 1, best)
    ensures Step(Request(), s) == Fold(Emitter(Request(), n), s0, es, |es|)
  {
    PopsLeast(s, n, nodes, open, expanded, best);
    var polled := s.(polls := s.polls + 1);
    s0 := Close(polled, n);
    es := Emitted(nodes[n].state);
    ExpandEmits(polled, n, es);
  }

  lemma FoldOne(f: (Search, Option<Transition>) -> Search, s: Search, e: Option<Transition>)
    ensures Fold(f, s, [e], 1) == f(s, e)
  {
    assert Fold(f, s, [e], 0) == s;
  }

  lemma FoldTwo(f: (Search, Option<Transition>) -> Search, s: Search, e: Option<Transition>, e': Option<Transition>)
    ensures Fold(f, s, [e, e'], 2) == f(f(s, e), e')
  {
    assert Fold(f, s, [e, e'], 0) == s;
    assert Fold(f, s, [e, e'], 1) == f(s, e);
  }

  // ---------------------------------------------------------------- the run

  function Nodes0(): seq<Node> {
    [NodeOf(START, 0, None, 0, false)]
  }

  function Nodes1(): seq<Node> {
    [NodeOf(START, 0, None, 0, true), NodeOf(DEAR, 10, Some(0), 1, false), NodeOf(CHEAP, 0, Some(0), 2, false)]
  }

  function Nodes2(): seq<Node> {
    [NodeOf(START, 0, None, 0, true), NodeOf(DEAR, 10, Some(0), 1, true), NodeOf(CHEAP, 0, Some(0), 2, false),
     NodeOf(BEST, 11, Some(1), 3, false)]
  }

  function Nodes3(): seq<Node> {
    [NodeOf(START, 0, None, 0, true), NodeOf(DEAR, 1, Some(2), 1, false), NodeOf(CHEAP, 0, Some(0), 2, true),
     NodeOf(BEST, 11, Some(1), 3, false)]
  }

  lemma FirstEmissions(s: Search, es: seq<Option<Transition>>) returns (s': Search)
    requires Runs(s, [NodeOf(START, 0, None, 0, true)], {}, 1, 0) && es == [Some(TO_DEAR), Some(TO_CHEAP)]
    ensures s' == Fold(Emitter(Request(), 0), s, es, 2) && Runs(s', Nodes1(), {1, 2}, 1, 2)
  {
    var nodes := [NodeOf(START, 0, None, 0, true)];
    var s1 := Discovers(s, 0, TO_DEAR, nodes, {}, 1, 0);
    var nodes1 := nodes + [NodeOf(DEAR, 10, Some(0), 1, false)];
    assert {} + {1} == {1};
    s' := Discovers(s1, 0, TO_CHEAP, nodes1, {1}, 1, 1);
    assert {1} + {2} == {1, 2} && nodes1 + [NodeOf(CHEAP, 0, Some(0), 2, false)] == Nodes1();
    FoldTwo(Emitter(Request(), 0), s, Some(TO_DEAR), Some(TO_CHEAP));
  }

  lemma FirstTurn(s: Search) returns (s': Search)
    requires Runs(s, Nodes0(), {0}, 0, 0)
    ensures s' == Step(Request(), s) && Runs(s', Nodes1(), {1, 2}, 1, 2)
  {
    var s0, es := Turns(s, 0, Nodes0(), {0}, 0, 0);
    assert Nodes0()[0 := Nodes0()[0].(closed := true)] == [NodeOf(START, 0, None, 0, true)] && {0} - {0} == {};
    s' := FirstEmissions(s0, es);
  }

  lemma SecondTurn(s: Search) returns (s': Search)
    requires Runs(s, Nodes1(), {1, 2}, 1, 2)
    ensures s' == Step(Request(), s) && Runs(s', Nodes2(), {2, 3}, 2, 3)
  {
    var s0, es := Turns(s, 1, Nodes1(), {1, 2}, 1, 2);
    var nodes := Nodes1()[1 := Nodes1()[1].(closed := true)];
    assert {1, 2} - {1} == {2} && {2} + {3} == {2, 3};
    s' := Discovers(s0, 1, TO_BEST, nodes, {2}, 2, 2);
    assert nodes + [NodeOf(BEST, 11, Some(1), 3, false)] == Nodes2();
    FoldOne(Emitter(Request(), 1), s0, Some(TO_BEST));
  }

  lemma ThirdEmission(s: Search, es: seq<Option<Transition>>, nodes: seq<Node>) returns (s': Search)
    requires nodes == Nodes2()[2 := Nodes2()[2].(closed := true)]
    requires Runs(s, nodes, {3}, 3, 3) && es == [Some(BACK)]
    ensures s' == Fold(Emitter(Request(), 2), s, es, 1) && Runs(s', Nodes3(), {1, 3}, 3, 3)
  {
    s' := Lowers(s, 2, 1, BACK, nodes, {3}, 3, 3);
    assert {3} + {1} == {1, 3};
    assert nodes[1 := NodeOf(DEAR, 1, Some(2), 1, false)] == Nodes3();
    FoldOne(Emitter(Request(), 2), s, Some(BACK));
  }

  lemma ThirdTurn(s: Search) returns (s': Search)
    requires Runs(s, Nodes2(), {2, 3}, 2, 3)
    ensures s' == Step(Request(), s) && Runs(s', Nodes3(), {1, 3}, 3, 3)
  {
    var s0, es := Turns(s, 2, Nodes2(), {2, 3}, 2, 3);
    assert {2, 3} - {2} == {3};
    s' := ThirdEmission(s0, es, Nodes2()[2 := Nodes2()[2].(closed := true)]);
  }

  lemma LastTurn(s: Search) returns (s': Search)
    requires Runs(s, Nodes3(), {1, 3}, 3, 3)
    ensures s' == Step(Request(), s) && s'.nodes == Nodes3() && s'.best == s.best
    ensures s'.stop == Some(Stop(LimitReached, AtLimit, None))
  {
    s' := Step(Request(), s);
  }

  lemma WholeRun() returns (s: Search)
    ensures s == After(Request(), 4) && s.nodes == Nodes3() && s.best.Some? && s.best.value.node == 3
    ensures s.stop == Some(Stop(LimitReached, AtLimit, None))
  {
    var f, s0 := Stepper(Request()), Initial(Request());
    assert Runs(s0, Nodes0(), {0}, 0, 0);
    var s1 := FirstTurn(s0);
    assert Iterate(f, s0, 0) == s0;
    assert Iterate(f, s0, 1) == s1;
    var s2 := SecondTurn(s1);
    assert Iterate(f, s0, 2) == s2;
    var s3 := ThirdTurn(s2);
    assert Iterate(f, s0, 3) == s3;
    s := LastTurn(s3);
    assert Iterate(f, s0, 4) == s;
  }

  // ---------------------------------------------------------------- its result

  lemma {:induction false} DepthUnique(nodes: seq<Node>, v: nat, d: nat, e: nat)
    requires Rooted(nodes, v, d) && Rooted(nodes, v, e)
    ensures d == e
    decreases d
  {
    if d > 0 && e > 0 {
      DepthUnique(nodes, nodes[v].parent.value, d - 1, e - 1);
    }
  }

  /** The path that is reported is the one over `CHEAP`. */
  lemma ReportedSteps()
    ensures HasDepth(Nodes3(), 3)
    ensures PathTo(Nodes3(), 3) == Steps()
  {
    var nodes := Nodes3();
    assert Rooted(nodes, 0, 0) && Rooted(nodes, 2, 1) && Rooted(nodes, 1, 2) && Rooted(nodes, 3, 3);
    DepthUnique(nodes, 3, Depth(nodes, 3), 3);
    assert ChainSteps(nodes, 0, 0) == [PathStep(START, 0)];
    assert ChainSteps(nodes, 2, 1) == [PathStep(START, 0), PathStep(CHEAP, 0)];
    assert ChainSteps(nodes, 1, 2) == [PathStep(START, 0), PathStep(CHEAP, 0), PathStep(DEAR, 0)];
  }

  lemma CheapPath(ts: seq<Transition>)
    requires ts == [TO_CHEAP, BACK, TO_BEST]
    ensures IsPath(Request(), START, ts) && PathCost(Request(), ts) == 2
  {
    var c := Request();
    assert ts[1..] == [BACK, TO_BEST] && ts[1..][1..] == [TO_BEST] && ts[1..][1..][1..] == [];
    assert Emitted(START)[1] == Some(TO_CHEAP) && Emitted(CHEAP)[0] == Some(BACK) && Emitted(DEAR)[0] == Some(TO_BEST);
    assert IsPath(c, DEAR, [TO_BEST]) && PathCost(c, [TO_BEST]) == 1;
    assert IsPath(c, CHEAP, [BACK, TO_BEST]) && PathCost(c, [BACK, TO_BEST]) == 2;
  }

  function Steps(): seq<PathStep> {
    [PathStep(START, 0), PathStep(CHEAP, 0), PathStep(DEAR, 0), PathStep(BEST, 0)]
  }

  lemma PartialResult(s: Search) returns (r: Result)
    requires Inv(Request(), s) && s.nodes == Nodes3() && s.best.Some? && s.best.value.node == 3
    requires s.stop == Some(Stop(LimitReached, AtLimit, None))
    ensures r == Finish(Request(), s) && r.status == Partial && r.steps == Steps() && r.totalCost == 11
  {
    ReportedSteps();
    r := Finish(Request(), s);
  }

  lemma RequestEnds() returns (r: Result)
    ensures Outcome(Request(), r) && r.status == Partial && r.steps == Steps() && r.totalCost == 11
  {
    var s := WholeRun();
    AlwaysInv(Request(), 4);
    r := PartialResult(s);
    assert StopsWith(Request(), 4, r);
  }

  /** The partial result of a greedy search says 11 of a path that costs 2. */
  lemma GreedyOverstates() returns (c: Config, r: Result, ts: seq<Transition>)
    ensures c.options.algorithm == GreedyBestFirst && ValidRequest(c)
    ensures Outcome(c, r) && r.status == Partial
    ensures IsPath(c, c.start, ts) && Shows(c, r.steps, ts)
    ensures PathCost(c, ts) == 2 && r.totalCost == 11
  {
    c := Request();
    r := RequestEnds();
    ts := [TO_CHEAP, BACK, TO_BEST];
    CheapPath(ts);
  }
}
