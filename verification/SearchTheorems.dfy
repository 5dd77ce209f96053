/**
 What a finished search means: optimality, genuine paths, exact completeness,
 best partial results, and termination in spite of reopening.
 */
module SearchTheorems {
  import opened Folds
  import opened PathGraph
  import opened SearchModel
  import opened SearchInvariant
  import opened Wrappers

  // ---------------------------------------------------------------- optimality

  /**
   From a node whose state starts a path to a goal, some open node continues the
   path at no greater total cost.
   */
  lemma {:induction false} OpenNodeOnPath(
      c: Config, nodes: seq<Node>, open: set<nat>, u: nat, ts: seq<Transition>)
      returns (m: nat, rest: seq<Transition>)
    requires Frontier(c, nodes, open) && u < |nodes|
    requires GoalPath(c, nodes[u].state, ts)
    ensures m in open && GoalPath(c, nodes[m].state, rest)
    ensures nodes[m].cost + PathCost(c, rest) <= nodes[u].cost + PathCost(c, ts)
    decreases |ts|
  {
    if u in open {
      m, rest := u, ts;
    } else {
      assert Placed(c, nodes, open, u) && Settled(c, nodes, u);
      var es := c.adapter.neighbors(nodes[u].state);
      var j :| 0 <= j < |es| && es[j] == Some(ts[0]);
      assert RelaxedAt(c, nodes, u, j);
      var v :| 0 <= v < |nodes| && nodes[v].state == ts[0].state
               && nodes[v].cost <= nodes[u].cost + StepCost(c, ts[0]);
      assert End(nodes[u].state, ts) == End(ts[0].state, ts[1..]);
      m, rest := OpenNodeOnPath(c, nodes, open, v, ts[1..]);
    }
  }

  /** Priorities that accumulate cost: all algorithms but greedy. */
  predicate CostGuided(c: Config) {
    c.options.algorithm != GreedyBestFirst
  }

  /**
   A goal popped from the heap costs no more than any path from the start to any
   goal, saturated priorities and reopened nodes notwithstanding.
   */
  lemma FoundIsOptimal(c: Config, n: nat, v: nat, ts: seq<Transition>)
    requires CostGuided(c) && Admissible(c)
    requires After(c, n).stop == Some(Stop(Found, AtGoal, Some(v)))
    requires GoalPath(c, c.start, ts)
    ensures v < |After(c, n).nodes| && After(c, n).nodes[v].cost <= PathCost(c, ts)
  {
    AlwaysInv(c, n);
    var s := After(c, n);
    assert Linked(c, s.nodes, 0);
    var m, rest := OpenNodeOnPath(c, s.nodes, s.open + {v}, 0, ts);
    var goal := s.nodes[v];
    var open := s.nodes[m];
    assert GoalPath(c, goal.state, []);
    assert Score(c, goal.state) <= PathCost(c, []);
    assert Score(c, open.state) <= PathCost(c, rest);
    assert ScoredAt(c, s.nodes, v) && ScoredAt(c, s.nodes, m);
    assert goal.priority == goal.cost;
    assert m != v ==> Before(goal, open);
  }

  // ---------------------------------------------------------------- paths

  datatype PathStep = PathStep(state: Word, data: Word)

  /** The steps found by following `d` parent links from `v`; the first carries no data. */
  ghost function ChainSteps(nodes: seq<Node>, v: nat, d: nat): (r: seq<PathStep>)
    requires Rooted(nodes, v, d)
    ensures |r| == d + 1
    decreases d
  {
    if d == 0 then [PathStep(nodes[v].state, 0)]
    else ChainSteps(nodes, nodes[v].parent.value, d - 1) + [PathStep(nodes[v].state, nodes[v].data)]
  }

  lemma {:induction false} ChainHead(nodes: seq<Node>, v: nat, d: nat)
    requires Rooted(nodes, v, d)
    ensures ChainSteps(nodes, v, d)[0].data == 0
    decreases d
  {
    if d > 0 {
      ChainHead(nodes, nodes[v].parent.value, d - 1);
    }
  }

  /** `steps` shows the start followed by what the transitions `ts` lead to and carry. */
  ghost predicate Shows(c: Config, steps: seq<PathStep>, ts: seq<Transition>) {
    && |steps| == |ts| + 1
    && steps[0] == PathStep(c.start, 0)
    && forall i :: 0 <= i < |ts| ==> steps[i + 1] == PathStep(ts[i].state, ts[i].data)
  }

  /** A chain of parent links is a path of emitted transitions, no dearer than the node. */
  lemma {:induction false} ChainIsPath(c: Config, nodes: seq<Node>, v: nat, d: nat) returns (ts: seq<Transition>)
    requires AllLinked(c, nodes) && Rooted(nodes, v, d)
    ensures IsPath(c, c.start, ts) && End(c.start, ts) == nodes[v].state && |ts| == d
    ensures PathCost(c, ts) <= nodes[v].cost
    ensures Shows(c, ChainSteps(nodes, v, d), ts)
    decreases d
  {
    assert Linked(c, nodes, v);
    if d == 0 {
      ts := [];
    } else {
      var p := nodes[v].parent.value;
      var front := ChainIsPath(c, nodes, p, d - 1);
      var t :| Link(c, nodes, v, t);
      PathSnoc(c, c.start, front, t);
      ts := front + [t];
    }
  }

  ghost function Depth(nodes: seq<Node>, v: nat): (d: nat)
    requires HasDepth(nodes, v)
    ensures Rooted(nodes, v, d)
  {
    var d: nat :| Rooted(nodes, v, d);
    d
  }

  /** What the caller of a search receives. */
  datatype Result = Result(
    status: Status,
    termination: Termination,
    steps: seq<PathStep>,
    expanded: nat,
    generated: nat,
    examined: nat,
    totalCost: Word)

  ghost function PathTo(nodes: seq<Node>, v: nat): (r: seq<PathStep>)
    requires HasDepth(nodes, v)
  {
    ChainSteps(nodes, v, Depth(nodes, v))
  }

  predicate AllowsPartial(termination: Termination) {
    termination == Exhausted || termination == AtLimit || termination == WasCancelled
  }

  /** Which node's path is reported, and under which status. */
  ghost function Reported(c: Config, s: Search): (r: (Status, Option<nat>))
    requires s.stop.Some?
  {
    var stop := s.stop.value;
    if stop.node.Some? then (stop.status, stop.node)
    else if c.options.returnPartial && s.best.Some? && AllowsPartial(stop.termination) then
      (Partial, Some(s.best.value.node))
    else (stop.status, None)
  }

  ghost function Finish(c: Config, s: Search): (r: Result)
    requires s.stop.Some? && Inv(c, s)
  {
    var (status, node) := Reported(c, s);
    var r := Result(status, s.stop.value.termination, [], s.expanded, |s.nodes|, s.examined, 0);
    if node.Some? && node.value < |s.nodes| then
      assert HasDepth(s.nodes, node.value);
      r.(steps := PathTo(s.nodes, node.value), totalCost := s.nodes[node.value].cost)
    else r
  }

  /** `r` is the outcome of the search `c`. */
  ghost predicate Outcome(c: Config, r: Result) {
    exists n :: StopsWith(c, n, r)
  }

  ghost predicate StopsWith(c: Config, n: nat, r: Result) {
    After(c, n).stop.Some? && Inv(c, After(c, n)) && r == Finish(c, After(c, n))
  }

  /**
   Every reported path, found or partial, starts at the start, follows emitted
   transitions with their own data, and costs at most the reported total.
   */
  lemma ReportedPathIsGenuine(c: Config, r: Result) returns (ts: seq<Transition>)
    requires Outcome(c, r) && r.steps != []
    ensures IsPath(c, c.start, ts) && Shows(c, r.steps, ts)
    ensures PathCost(c, ts) <= r.totalCost
    ensures r.status == Found ==> c.adapter.goal(End(c.start, ts))
  {
    var n: nat :| StopsWith(c, n, r);
    var s := After(c, n);
    var v := Reported(c, s).1.value;
    assert HasDepth(s.nodes, v);
    ts := ChainIsPath(c, s.nodes, v, Depth(s.nodes, v));
  }

  /** Which stops a run can come to. */
  ghost predicate LegalStop(stop: Stop) {
    match stop
    case Stop(Found, AtGoal, Some(_)) => true
    case Stop(NoPath, Exhausted, None) => true
    case Stop(LimitReached, AtLimit, None) => true
    case Stop(Cancelled, WasCancelled, None) => true
    case Stop(AdapterError, AdapterFailed, None) => true
    case Stop(CostOverflow, Overflowed, None) => true
    case _ => false
  }

  ghost predicate StopsLegally(s: Search) {
    s.stop.Some? ==> LegalStop(s.stop.value)
  }

  lemma RelaxStops(c: Config, s: Search, a: nat, t: Transition)
    requires Indexed(s) && a < |s.nodes| && s.stop.None?
    ensures StopsLegally(Relax(c, s, a, t))
  {
  }

  lemma EmitStops(c: Config, s: Search, a: nat, e: Option<Transition>)
    requires Indexed(s) && a < |s.nodes| && StopsLegally(s)
    ensures StopsLegally(Emit(c, s, a, e))
  {
    if s.stop.None? && Admit(c, s, e).stop.None? {
      RelaxStops(c, Admit(c, s, e), a, e.value);
    }
  }

  lemma EmissionStops(c: Config, s: Search, a: nat, es: seq<Option<Transition>>)
    requires StopsLegally(s)
    ensures StopsLegally(Fold(Emitter(c, a), s, es, |es|))
  {
    var P := (s1: Search, j: nat) => StopsLegally(s1);
    forall s1: Search, j: nat | j < |es| && P(s1, j) ensures P(Emitter(c, a)(s1, es[j]), j + 1) {
      if Indexed(s1) && a < |s1.nodes| {
        EmitStops(c, s1, a, es[j]);
      }
    }
    FoldKeeps(Emitter(c, a), s, es, |es|, P);
  }

  lemma ExpandStops(c: Config, s: Search, n: nat) returns (s': Search)
    requires Indexed(s) && n < |s.nodes| && s.stop.None?
    ensures s' == Expand(c, s, n) && StopsLegally(s')
  {
    var es := c.adapter.neighbors(s.nodes[n].state);
    EmissionStops(c, Close(s, n), n, es);
    s' := Fold(Emitter(c, n), Close(s, n), es, |es|);
    if s'.stop.None? && !c.adapter.enumerates(s.nodes[n].state) {
      s' := Halt(s', AdapterError, AdapterFailed);
    }
  }

  lemma StepStops(c: Config, s: Search) returns (s': Search)
    requires Indexed(s) && StopsLegally(s)
    ensures s' == Step(c, s) && StopsLegally(s')
  {
    var polled := s.(polls := s.polls + 1);
    if s.stop.Some? {
      s' := s;
    } else if s.open == {} {
      s' := Halt(s, NoPath, Exhausted);
    } else if c.adapter.cancelled(s.polls) {
      s' := Halt(polled, Cancelled, WasCancelled);
    } else {
      var n := Least(s.nodes, s.open);
      if c.adapter.goal(s.nodes[n].state) {
        s' := polled.(open := s.open - {n}, stop := Some(Stop(Found, AtGoal, Some(n))));
      } else if LimitHit(c.options.maxExpanded, s.expanded) {
        s' := Halt(polled.(open := s.open - {n}), LimitReached, AtLimit);
      } else {
        s' := ExpandStops(c, polled, n);
      }
    }
  }

  lemma EveryStopIsLegal(c: Config, n: nat)
    ensures StopsLegally(After(c, n))
  {
    var P := (s: Search) => StopsLegally(s);
    forall s | P(s) ensures P(Stepper(c)(s)) {
      if Indexed(s) {
        var s' := StepStops(c, s);
      }
    }
    IterateKeeps(Stepper(c), Initial(c), n, P);
  }

  /** A found result reports the popped goal. */
  lemma FoundReports(c: Config, n: nat, r: Result) returns (v: nat)
    requires StopsWith(c, n, r) && r.status == Found
    ensures v < |After(c, n).nodes| && After(c, n).stop == Some(Stop(Found, AtGoal, Some(v)))
    ensures r.steps != [] && r.totalCost == After(c, n).nodes[v].cost
  {
    EveryStopIsLegal(c, n);
    v := After(c, n).stop.value.node.value;
  }

  /**
   Dijkstra, breadth-first search and A* with an admissible heuristic report the
   least cost of any path from the start to any goal, and a path of exactly that cost.
   */
  lemma FoundIsShortest(c: Config, r: Result) returns (ts: seq<Transition>)
    requires CostGuided(c) && Admissible(c)
    requires Outcome(c, r) && r.status == Found
    ensures GoalPath(c, c.start, ts) && Shows(c, r.steps, ts)
    ensures PathCost(c, ts) == r.totalCost
    ensures forall other :: GoalPath(c, c.start, other) ==> r.totalCost <= PathCost(c, other)
  {
    var n: nat :| StopsWith(c, n, r);
    var v := FoundReports(c, n, r);
    ts := ReportedPathIsGenuine(c, r);
    forall other | GoalPath(c, c.start, other)
      ensures r.totalCost <= PathCost(c, other)
    {
      FoundIsOptimal(c, n, v, other);
    }
  }

  /** Breadth-first search finds a path with the fewest transitions. */
  lemma BreadthFirstIsFewest(c: Config, r: Result)
    requires c.options.algorithm == BreadthFirst
    requires Outcome(c, r) && r.status == Found
    ensures r.totalCost == |r.steps| - 1
    ensures forall other :: GoalPath(c, c.start, other) ==> |r.steps| - 1 <= |other|
  {
    UninformedIsAdmissible(c);
    var ts := FoundIsShortest(c, r);
    UnitPathCost(c, ts);
    forall other | GoalPath(c, c.start, other)
      ensures |r.steps| - 1 <= |other|
    {
      UnitPathCost(c, other);
    }
  }

  // ---------------------------------------------------------------- completeness

  /** An exhausted search has closed every state reachable from the start. */
  lemma {:induction false} ExhaustedCovers(c: Config, nodes: seq<Node>, u: nat, ts: seq<Transition>) returns (v: nat)
    requires Frontier(c, nodes, {}) && u < |nodes|
    requires IsPath(c, nodes[u].state, ts)
    ensures v < |nodes| && nodes[v].closed && nodes[v].state == End(nodes[u].state, ts)
    decreases |ts|
  {
    assert Placed(c, nodes, {}, u) && Settled(c, nodes, u);
    if ts == [] {
      v := u;
    } else {
      var es := c.adapter.neighbors(nodes[u].state);
      var j :| 0 <= j < |es| && es[j] == Some(ts[0]);
      assert RelaxedAt(c, nodes, u, j);
      var w :| 0 <= w < |nodes| && nodes[w].state == ts[0].state
               && nodes[w].cost <= nodes[u].cost + StepCost(c, ts[0]);
      v := ExhaustedCovers(c, nodes, w, ts[1..]);
    }
  }

  /** NoPath, or a partial result of an exhausted search, means no goal is reachable. */
  lemma ExhaustedMeansUnreachable(c: Config, r: Result, goal: Word)
    requires Outcome(c, r) && r.termination == Exhausted
    requires Reachable(c, c.start, goal)
    ensures !c.adapter.goal(goal)
  {
    var n: nat :| StopsWith(c, n, r);
    EveryStopIsLegal(c, n);
    var s := After(c, n);
    var ts :| IsPath(c, c.start, ts) && End(c.start, ts) == goal;
    assert Linked(c, s.nodes, 0);
    var v := ExhaustedCovers(c, s.nodes, 0, ts);
    assert Placed(c, s.nodes, {}, v);
  }

  /** A search that was not cut short decides reachability of a goal, for all four algorithms. */
  lemma DecidesReachability(c: Config, r: Result)
    requires Outcome(c, r) && (r.termination == AtGoal || r.termination == Exhausted)
    ensures r.termination == AtGoal <==> exists goal :: Reachable(c, c.start, goal) && c.adapter.goal(goal)
  {
    if r.termination == AtGoal {
      var n: nat :| StopsWith(c, n, r);
      EveryStopIsLegal(c, n);
      var v := FoundReports(c, n, r);
      var ts := ReportedPathIsGenuine(c, r);
      assert Reachable(c, c.start, End(c.start, ts));
    } else if exists goal :: Reachable(c, c.start, goal) && c.adapter.goal(goal) {
      var goal :| Reachable(c, c.start, goal) && c.adapter.goal(goal);
      ExhaustedMeansUnreachable(c, r, goal);
    }
  }

  // ---------------------------------------------------------------- partial results

  /** Node `i` is further down than `b`: by rank, then by cost, then by discovery. */
  ghost predicate NotBetter(c: Config, nodes: seq<Node>, i: nat, b: nat)
    requires i < |nodes| && b < |nodes|
  {
    var ri, rb := c.adapter.partialRank(nodes[i].state), c.adapter.partialRank(nodes[b].state);
    rb < ri || (rb == ri && (nodes[b].cost < nodes[i].cost || (nodes[b].cost == nodes[i].cost && b <= i)))
  }

  /**
   A partial result leads to a generated state that no other generated state beats
   on rank, then on cost, then on order of discovery.
   */
  lemma PartialIsBest(c: Config, n: nat, r: Result) returns (b: nat)
    requires StopsWith(c, n, r) && r.status == Partial
    ensures var nodes := After(c, n).nodes;
      && b < |nodes| && r.steps != [] && r.steps[|r.steps| - 1].state == nodes[b].state
      && r.totalCost == nodes[b].cost
      && forall i :: 0 <= i < |nodes| ==> NotBetter(c, nodes, i, b)
  {
    EveryStopIsLegal(c, n);
    var s := After(c, n);
    b := s.best.value.node;
    assert s.nodes[b].sequence == b;
    forall i | 0 <= i < |s.nodes| ensures NotBetter(c, s.nodes, i, b) {
      assert NotPreferable(c, s.nodes, s.best.value, i) && s.nodes[i].sequence == i;
    }
  }

  // ---------------------------------------------------------------- determinism

  lemma StoppedStays(c: Config, n: nat, m: nat)
    requires n <= m && After(c, n).stop.Some?
    ensures After(c, m) == After(c, n)
  {
    IterateStays(Stepper(c), Initial(c), n, m);
  }

  /** A request has one outcome. */
  lemma OutcomeIsUnique(c: Config, r: Result, r': Result)
    requires Outcome(c, r) && Outcome(c, r')
    ensures r == r'
  {
    var n: nat :| StopsWith(c, n, r);
    var m: nat :| StopsWith(c, m, r');
    if n <= m {
      StoppedStays(c, n, m);
    } else {
      StoppedStays(c, m, n);
    }
  }
}
