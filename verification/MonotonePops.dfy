/**
 With a consistent score, and as long as no expanded node's priority saturates,
 popped priorities never decrease and no state is expanded twice.
 */
module MonotonePops {
  import opened Folds
  import opened PathGraph
  import opened SearchModel
  import opened SearchInvariant
  import opened SearchTheorems
  import opened Wrappers

  /** Open nodes lie on or above the floor `f`, closed ones on or below it. */
  ghost predicate SidedAt(nodes: seq<Node>, open: set<nat>, f: nat, i: nat)
    requires i < |nodes|
  {
    && (i in open ==> nodes[i].priority >= f)
    && (nodes[i].closed ==> nodes[i].cost + nodes[i].heuristic <= f)
  }

  ghost predicate Sided(nodes: seq<Node>, open: set<nat>, f: nat) {
    forall i :: 0 <= i < |nodes| ==> SidedAt(nodes, open, f, i)
  }

  ghost predicate StillClosed(nodes: seq<Node>, nodes': seq<Node>) {
    |nodes| <= |nodes'| && forall i :: 0 <= i < |nodes| && nodes[i].closed ==> nodes'[i] == nodes[i]
  }

  /** Without saturation the priority of a node that is at least `f` apart stays at least `f`. */
  lemma PriorityAtLeast(c: Config, cost: Word, heuristic: Word, f: Word)
    requires CostGuided(c) && (UsesHeuristic(c.options.algorithm) || heuristic == 0)
    requires cost + heuristic >= f
    ensures Priority(c.options.algorithm, cost, heuristic) >= f
  {
  }

  /** Relaxing neither sinks below the floor nor reopens anything. */
  ghost predicate KeepsSided(s: Search, s': Search, f: nat) {
    Sided(s'.nodes, s'.open, f) && StillClosed(s.nodes, s'.nodes)
  }

  lemma RediscoverSided(c: Config, s: Search, a: nat, v: nat, t: Transition, g: Word, f: Word) returns (s': Search)
    requires CostGuided(c) && Structure(c, s) && Sided(s.nodes, s.open, f) && v < |s.nodes|
    requires g + s.nodes[v].heuristic >= f
    ensures s' == Rediscover(c, s, a, v, t, g) && KeepsSided(s, s', f)
  {
    assert ScoredAt(c, s.nodes, v) && SidedAt(s.nodes, s.open, f, v);
    PriorityAtLeast(c, g, s.nodes[v].heuristic, f);
    s' := Rediscover(c, s, a, v, t, g);
    forall i | 0 <= i < |s'.nodes| ensures SidedAt(s'.nodes, s'.open, f, i) {
      assert SidedAt(s.nodes, s.open, f, i);
    }
  }

  lemma DiscoverSided(c: Config, s: Search, a: nat, t: Transition, g: Word, f: Word) returns (s': Search)
    requires CostGuided(c) && Structure(c, s) && Sided(s.nodes, s.open, f)
    requires g + Score(c, t.state) >= f
    ensures s' == Discover(c, s, a, t, g) && KeepsSided(s, s', f)
  {
    PriorityAtLeast(c, g, Score(c, t.state), f);
    s' := Discover(c, s, a, t, g);
    forall i | 0 <= i < |s'.nodes| ensures SidedAt(s'.nodes, s'.open, f, i) {
      assert i < |s.nodes| ==> SidedAt(s.nodes, s.open, f, i);
    }
  }

  /** Relaxing out of a node that sits on the floor. */
  lemma RelaxSided(c: Config, s: Search, a: nat, t: Transition, f: Word) returns (s': Search)
    requires CostGuided(c) && Consistent(c)
    requires Structure(c, s) && s.stop.None? && Sided(s.nodes, s.open, f)
    requires a < |s.nodes| && s.nodes[a].closed && s.nodes[a].cost + s.nodes[a].heuristic == f
    requires Edge(c, s.nodes[a].state, t)
    ensures s' == Relax(c, s, a, t) && KeepsSided(s, s', f)
  {
    var g := s.nodes[a].cost + StepCost(c, t);
    var known := Find(s.nodes, t.state);
    assert ScoredAt(c, s.nodes, a);
    assert g + Score(c, t.state) >= f;
    if g > UINT64_MAX {
      s' := Halt(s, CostOverflow, Overflowed);
    } else if known.Some? {
      assert ScoredAt(c, s.nodes, known.value);
      s' := RediscoverSided(c, s, a, known.value, t, g, f);
    } else if Crowded(c, s) {
      s' := Halt(s, LimitReached, AtLimit);
    } else {
      s' := DiscoverSided(c, s, a, t, g, f);
    }
  }

  ghost predicate SidedRun(c: Config, s0: Search, s: Search, a: nat, node: Node, f: nat, k: nat) {
    Enumerated(c, s, a, node, k) && Sided(s.nodes, s.open, f) && StillClosed(s0.nodes, s.nodes)
  }

  lemma EmitSided(c: Config, s0: Search, s: Search, a: nat, node: Node, f: Word, k: nat, e: Option<Transition>)
    requires CostGuided(c) && Consistent(c) && node.closed && node.cost + node.heuristic == f
    requires SidedRun(c, s0, s, a, node, f, k) && s.stop.None?
    requires k < |c.adapter.neighbors(node.state)| && e == c.adapter.neighbors(node.state)[k]
    ensures SidedRun(c, s0, Emit(c, s, a, e), a, node, f, k + 1)
  {
    var s2 := EmitKeeps(c, s, a, k, e);
    var s1 := Admit(c, s, e);
    if s1.stop.None? {
      var s3 := RelaxSided(c, s1, a, e.value, f);
    }
  }

  lemma EmissionsSided(c: Config, s: Search, a: nat, es: seq<Option<Transition>>, f: Word) returns (s': Search)
    requires CostGuided(c) && Consistent(c)
    requires Structure(c, s) && s.stop.None? && Expanding(c, s.nodes, s.open, a, 0)
    requires s.nodes[a].cost + s.nodes[a].heuristic == f && Sided(s.nodes, s.open, f)
    requires es == c.adapter.neighbors(s.nodes[a].state)
    ensures s' == Fold(Emitter(c, a), s, es, |es|)
    ensures Sided(s'.nodes, s'.open, f) && StillClosed(s.nodes, s'.nodes)
  {
    var node := s.nodes[a];
    var step := Emitter(c, a);
    var P := (s1: Search, j: nat) => SidedRun(c, s, s1, a, node, f, j);
    forall s1, j | 0 <= j < |es| && P(s1, j)
      ensures P(step(s1, es[j]), j + 1)
    {
      if s1.stop.None? {
        EmitSided(c, s, s1, a, node, f, j, es[j]);
      }
    }
    FoldKeeps(step, s, es, |es|, P);
    s' := Fold(step, s, es, |es|);
  }

  /** The node popped lies on the floor once it is closed. */
  lemma ClosedSided(c: Config, s: Search, n: nat, f: nat) returns (s0: Search)
    requires CostGuided(c) && Structure(c, s) && s.stop.None? && Frontier(c, s.nodes, s.open)
    requires IsLeast(s.nodes, s.open, n) && !c.adapter.goal(s.nodes[n].state)
    requires Sided(s.nodes, s.open, f) && s.nodes[n].cost + s.nodes[n].heuristic <= UINT64_MAX
    ensures s0 == Close(s, n) && Structure(c, s0) && Expanding(c, s0.nodes, s0.open, n, 0)
    ensures f <= s.nodes[n].priority == s.nodes[n].cost + s.nodes[n].heuristic
    ensures Sided(s0.nodes, s0.open, s.nodes[n].priority) && StillClosed(s.nodes, s0.nodes)
  {
    s0 := Close(s, n);
    assert ScoredAt(c, s.nodes, n) && SidedAt(s.nodes, s.open, f, n) && Placed(c, s.nodes, s.open, n);
    forall i | 0 <= i < |s0.nodes| ensures SidedAt(s0.nodes, s0.open, s.nodes[n].priority, i) {
      assert SidedAt(s.nodes, s.open, f, i);
    }
    CloseKeepsTable(c, s.nodes, s.best, n);
    CloseKeepsFrontier(c, s.nodes, s.open, n);
  }

  lemma ExpandSided(c: Config, s: Search, n: nat, f: nat) returns (s': Search)
    requires CostGuided(c) && Consistent(c)
    requires Structure(c, s) && s.stop.None? && Frontier(c, s.nodes, s.open)
    requires IsLeast(s.nodes, s.open, n) && !c.adapter.goal(s.nodes[n].state)
    requires Sided(s.nodes, s.open, f) && s.nodes[n].cost + s.nodes[n].heuristic <= UINT64_MAX
    ensures s' == Expand(c, s, n)
    ensures f <= s.nodes[n].priority && Sided(s'.nodes, s'.open, s.nodes[n].priority)
    ensures StillClosed(s.nodes, s'.nodes) && s'.nodes[n].closed
  {
    var s0 := ClosedSided(c, s, n, f);
    var s1 := EmissionsSided(c, s0, n, c.adapter.neighbors(s.nodes[n].state), s.nodes[n].priority);
    s' := Expand(c, s, n);
  }

  // ---------------------------------------------------------------- one iteration

  /** A table position keeps its state for the rest of the run. */
  ghost predicate SameStates(nodes: seq<Node>, nodes': seq<Node>) {
    |nodes| <= |nodes'| && forall v :: 0 <= v < |nodes| ==> nodes'[v].state == nodes[v].state
  }

  lemma RediscoverStates(c: Config, s: Search, a: nat, v: nat, t: Transition, g: Word) returns (s': Search)
    requires Indexed(s) && v < |s.nodes|
    ensures s' == Rediscover(c, s, a, v, t, g) && SameStates(s.nodes, s'.nodes)
  {
    s' := Rediscover(c, s, a, v, t, g);
  }

  lemma DiscoverStates(c: Config, s: Search, a: nat, t: Transition, g: Word) returns (s': Search)
    requires Indexed(s)
    ensures s' == Discover(c, s, a, t, g) && SameStates(s.nodes, s'.nodes)
  {
    s' := Discover(c, s, a, t, g);
  }

  lemma RelaxStates(c: Config, s: Search, a: nat, t: Transition) returns (s': Search)
    requires Indexed(s) && a < |s.nodes|
    ensures s' == Relax(c, s, a, t) && SameStates(s.nodes, s'.nodes)
  {
    var g := s.nodes[a].cost + StepCost(c, t);
    var known := Find(s.nodes, t.state);
    if g > UINT64_MAX {
      s' := Halt(s, CostOverflow, Overflowed);
    } else if known.Some? {
      s' := RediscoverStates(c, s, a, known.value, t, g);
    } else if Crowded(c, s) {
      s' := Halt(s, LimitReached, AtLimit);
    } else {
      s' := DiscoverStates(c, s, a, t, g);
    }
  }

  lemma EmitStates(c: Config, s: Search, a: nat, e: Option<Transition>) returns (s': Search)
    requires Indexed(s) && a < |s.nodes|
    ensures s' == Emit(c, s, a, e) && SameStates(s.nodes, s'.nodes)
  {
    s' := Emit(c, s, a, e);
    if s.stop.None? && Admit(c, s, e).stop.None? {
      var s2 := RelaxStates(c, Admit(c, s, e), a, e.value);
    }
  }

  lemma ExpandStates(c: Config, s: Search, n: nat) returns (s': Search)
    requires Indexed(s) && n < |s.nodes|
    ensures s' == Expand(c, s, n) && SameStates(s.nodes, s'.nodes)
  {
    var s0 := Close(s, n);
    var es := c.adapter.neighbors(s.nodes[n].state);
    var f := Emitter(c, n);
    var P := (s1: Search, j: nat) => SameStates(s0.nodes, s1.nodes);
    forall s1: Search, j: nat | j < |es| && P(s1, j) ensures P(f(s1, es[j]), j + 1) {
      if Indexed(s1) && n < |s1.nodes| {
        var s2 := EmitStates(c, s1, n, es[j]);
      }
    }
    FoldKeeps(f, s0, es, |es|, P);
    s' := Expand(c, s, n);
  }

  /** The next iteration pops a node from the heap. */
  ghost predicate Pops(c: Config, s: Search) {
    Indexed(s) && s.stop.None? && s.open != {} && !c.adapter.cancelled(s.polls)
  }

  ghost function Popped(s: Search): (n: nat)
    requires Indexed(s) && s.open != {}
    ensures n < |s.nodes|
  {
    Least(s.nodes, s.open)
  }

  ghost function PoppedNode(s: Search): Node
    requires Indexed(s) && s.open != {}
  {
    s.nodes[Popped(s)]
  }

  /** The popped node's cost and score fit in 64 bits. */
  ghost predicate Fits(c: Config, s: Search) {
    Pops(c, s) ==> PoppedNode(s).cost + PoppedNode(s).heuristic <= UINT64_MAX
  }

  /** An iteration after which the run goes on has popped a node, which is now closed. */
  lemma StepSided(c: Config, s: Search, f: nat, s': Search)
    requires CostGuided(c) && Consistent(c) && Fits(c, s) && Inv(c, s)
    requires Sided(s.nodes, s.open, f) && s' == Step(c, s) && s'.stop.None?
    ensures Pops(c, s) && f <= PoppedNode(s).priority
    ensures Sided(s'.nodes, s'.open, PoppedNode(s).priority)
    ensures SameStates(s.nodes, s'.nodes) && StillClosed(s.nodes, s'.nodes)
    ensures s'.nodes[Popped(s)].closed
  {
    var n := Popped(s);
    var polled := s.(polls := s.polls + 1);
    var s0 := StepExpands(c, s);
    var s1 := ExpandSided(c, polled, n, f);
    var s2 := ExpandStates(c, polled, n);
  }

  // ---------------------------------------------------------------- runs

  /** Until iteration `j` no popped node's cost and score overflow 64 bits. */
  ghost predicate Unsaturated(c: Config, run: nat -> Search, j: nat) {
    forall i: nat :: i < j ==> Fits(c, run(i))
  }

  lemma {:induction false} RanBefore(c: Config, run: nat -> Search, i: nat, j: nat)
    requires IsRun(c, run) && i <= j && run(j).stop.None?
    ensures run(i).stop.None?
    decreases j - i
  {
    if i < j {
      RanBefore(c, run, i + 1, j);
      assert Steady(c, run, i);
    }
  }

  lemma RunSided(c: Config, run: nat -> Search, k: nat, f: nat)
    requires CostGuided(c) && Consistent(c)
    requires IsRun(c, run) && Unsaturated(c, run, k + 1) && run(k + 1).stop.None?
    requires Sided(run(k).nodes, run(k).open, f)
    ensures Pops(c, run(k)) && f <= PoppedNode(run(k)).priority
    ensures Sided(run(k + 1).nodes, run(k + 1).open, PoppedNode(run(k)).priority)
    ensures SameStates(run(k).nodes, run(k + 1).nodes) && StillClosed(run(k).nodes, run(k + 1).nodes)
    ensures run(k + 1).nodes[Popped(run(k))].closed
  {
    assert Steady(c, run, k) && Fits(c, run(k));
    StepSided(c, run(k), f, run(k + 1));
  }

  lemma {:induction false} AlwaysSided(c: Config, run: nat -> Search, k: nat) returns (f: nat)
    requires CostGuided(c) && Consistent(c)
    requires IsRun(c, run) && Unsaturated(c, run, k) && run(k).stop.None?
    ensures Sided(run(k).nodes, run(k).open, f)
  {
    if k == 0 {
      f := 0;
    } else {
      RanBefore(c, run, k - 1, k);
      var g := AlwaysSided(c, run, k - 1);
      RunSided(c, run, k - 1, g);
      f := PoppedNode(run(k - 1)).priority;
    }
  }

  /** What was popped at iteration `i` stays closed below the floor of all later pops. */
  lemma {:induction false} SidedSince(c: Config, run: nat -> Search, i: nat, k: nat) returns (f: nat)
    requires CostGuided(c) && Consistent(c)
    requires IsRun(c, run) && Unsaturated(c, run, k) && run(k).stop.None?
    requires i < k && Pops(c, run(i))
    ensures Sided(run(k).nodes, run(k).open, f) && PoppedNode(run(i)).priority <= f
    ensures SameStates(run(i).nodes, run(k).nodes) && run(k).nodes[Popped(run(i))].closed
    decreases k
  {
    RanBefore(c, run, k - 1, k);
    var g;
    if i == k - 1 {
      g := AlwaysSided(c, run, i);
    } else {
      g := SidedSince(c, run, i, k - 1);
    }
    RunSided(c, run, k - 1, g);
    f := PoppedNode(run(k - 1)).priority;
  }

  /** Later pops have no smaller priority and are of different states. */
  lemma PopsAreMonotone(c: Config, run: nat -> Search, i: nat, j: nat)
    requires CostGuided(c) && Consistent(c)
    requires IsRun(c, run) && Unsaturated(c, run, j)
    requires i < j && Pops(c, run(i)) && Pops(c, run(j))
    ensures PoppedNode(run(i)).priority <= PoppedNode(run(j)).priority
    ensures PoppedNode(run(i)).state != PoppedNode(run(j)).state
  {
    var f := SidedSince(c, run, i, j);
    var s := run(j);
    var m, n := Popped(run(i)), Popped(s);
    assert Steady(c, run, j);
    assert SidedAt(s.nodes, s.open, f, n) && Placed(c, s.nodes, s.open, m);
    assert if m < n then Differ(s.nodes, m, n) else Differ(s.nodes, n, m);
  }

  /** Without scores nothing saturates, and the score is consistent. */
  lemma UninformedFits(c: Config, run: nat -> Search, j: nat)
    requires !UsesHeuristic(c.options.algorithm) && IsRun(c, run)
    ensures CostGuided(c) && Consistent(c) && Unsaturated(c, run, j)
  {
    forall k: nat | k < j ensures Fits(c, run(k)) {
      assert Steady(c, run, k);
      if Pops(c, run(k)) {
        assert ScoredAt(c, run(k).nodes, Popped(run(k)));
      }
    }
  }

  /** Dijkstra and breadth-first search need no condition on scores or saturation. */
  lemma UninformedPopsAreMonotone(c: Config, run: nat -> Search, i: nat, j: nat)
    requires !UsesHeuristic(c.options.algorithm)
    requires IsRun(c, run) && i < j && Pops(c, run(i)) && Pops(c, run(j))
    ensures PoppedNode(run(i)).priority <= PoppedNode(run(j)).priority
    ensures PoppedNode(run(i)).state != PoppedNode(run(j)).state
  {
    UninformedFits(c, run, j);
    PopsAreMonotone(c, run, i, j);
  }
}
