/**
 When a reported path costs exactly the reported total. As long as no closed node is
 lowered, every stored cost is that of the chain of parent links; without that a path can
 turn out cheaper than its total says.
 */
module ExactPaths {
  import opened Folds
  import opened PathGraph
  import opened SearchModel
  import opened SearchInvariant
  import opened SearchTheorems
  import opened MonotonePops
  import opened Wrappers

  /** The parent of `v` is closed, and `t` leads from it to `v` at exactly the cost of `v`. */
  ghost predicate ExactLink(c: Config, nodes: seq<Node>, v: nat, t: Transition)
    requires v < |nodes| && nodes[v].parent.Some? && nodes[v].parent.value < |nodes|
  {
    var p := nodes[nodes[v].parent.value];
    && p.closed && Edge(c, p.state, t)
    && t.state == nodes[v].state && t.data == nodes[v].data
    && p.cost + StepCost(c, t) == nodes[v].cost
  }

  ghost predicate ExactAt(c: Config, nodes: seq<Node>, v: nat)
    requires v < |nodes|
  {
    if v == 0 then nodes[v].parent.None? && nodes[v].state == c.start && nodes[v].cost == 0
    else
      && nodes[v].parent.Some? && nodes[v].parent.value < |nodes|
      && exists t :: ExactLink(c, nodes, v, t)
  }

  ghost predicate Exact(c: Config, nodes: seq<Node>) {
    |nodes| > 0 && forall v :: 0 <= v < |nodes| ==> ExactAt(c, nodes, v)
  }

  /** The node is the same but for being closed. */
  predicate SameButClosed(n: Node, n': Node) {
    n' == n.(closed := n'.closed)
  }

  /** A link stays exact while its two ends stay what they are. */
  lemma ExactStays(c: Config, nodes: seq<Node>, nodes': seq<Node>, v: nat)
    requires StillClosed(nodes, nodes') && v < |nodes| && ExactAt(c, nodes, v) && SameButClosed(nodes[v], nodes'[v])
    ensures ExactAt(c, nodes', v)
  {
    if v != 0 {
      var t :| ExactLink(c, nodes, v, t);
      assert ExactLink(c, nodes', v, t);
    }
  }

  lemma RediscoverExact(c: Config, s: Search, a: nat, v: nat, t: Transition, g: Word) returns (s': Search)
    requires Indexed(s) && Exact(c, s.nodes) && a < |s.nodes| && v < |s.nodes| && s.nodes[a].closed
    requires Edge(c, s.nodes[a].state, t) && g == s.nodes[a].cost + StepCost(c, t) && s.nodes[v].state == t.state
    requires StillClosed(s.nodes, Rediscover(c, s, a, v, t, g).nodes)
    ensures s' == Rediscover(c, s, a, v, t, g) && Exact(c, s'.nodes)
  {
    s' := Rediscover(c, s, a, v, t, g);
    assert ExactAt(c, s.nodes, v);
    forall u | 0 <= u < |s'.nodes| ensures ExactAt(c, s'.nodes, u) {
      assert ExactAt(c, s.nodes, u);
      if s'.nodes[u] == s.nodes[u] {
        ExactStays(c, s.nodes, s'.nodes, u);
      } else {
        assert u == v && ExactLink(c, s'.nodes, v, t);
      }
    }
  }

  lemma DiscoverExact(c: Config, s: Search, a: nat, t: Transition, g: Word) returns (s': Search)
    requires Indexed(s) && Exact(c, s.nodes) && a < |s.nodes| && s.nodes[a].closed
    requires Edge(c, s.nodes[a].state, t) && g == s.nodes[a].cost + StepCost(c, t)
    ensures s' == Discover(c, s, a, t, g) && Exact(c, s'.nodes)
  {
    s' := Discover(c, s, a, t, g);
    var v := |s.nodes|;
    forall u | 0 <= u < |s'.nodes| ensures ExactAt(c, s'.nodes, u) {
      if u < v {
        assert ExactAt(c, s.nodes, u);
        ExactStays(c, s.nodes, s'.nodes, u);
      } else {
        assert ExactLink(c, s'.nodes, v, t);
      }
    }
  }

  lemma RelaxExact(c: Config, s: Search, a: nat, t: Transition) returns (s': Search)
    requires Indexed(s) && Exact(c, s.nodes) && a < |s.nodes| && s.nodes[a].closed
    requires Edge(c, s.nodes[a].state, t) && StillClosed(s.nodes, Relax(c, s, a, t).nodes)
    ensures s' == Relax(c, s, a, t) && Exact(c, s'.nodes)
  {
    var g := s.nodes[a].cost + StepCost(c, t);
    var known := Find(s.nodes, t.state);
    if g > UINT64_MAX {
      s' := Halt(s, CostOverflow, Overflowed);
    } else if known.Some? {
      s' := RediscoverExact(c, s, a, known.value, t, g);
    } else if Crowded(c, s) {
      s' := Halt(s, LimitReached, AtLimit);
    } else {
      s' := DiscoverExact(c, s, a, t, g);
    }
  }

  ghost predicate ExactRun(c: Config, s0: Search, s: Search, a: nat, node: Node, f: nat, k: nat) {
    SidedRun(c, s0, s, a, node, f, k) && Exact(c, s.nodes)
  }

  lemma EmitExact(c: Config, s0: Search, s: Search, a: nat, node: Node, f: Word, k: nat, e: Option<Transition>)
    requires CostGuided(c) && Consistent(c) && node.closed && node.cost + node.heuristic == f
    requires ExactRun(c, s0, s, a, node, f, k) && s.stop.None?
    requires k < |c.adapter.neighbors(node.state)| && e == c.adapter.neighbors(node.state)[k]
    ensures ExactRun(c, s0, Emit(c, s, a, e), a, node, f, k + 1)
  {
    EmitSided(c, s0, s, a, node, f, k, e);
    var s1 := Admit(c, s, e);
    if s1.stop.None? {
      var s2 := RelaxSided(c, s1, a, e.value, f);
      var s3 := RelaxExact(c, s1, a, e.value);
    }
  }

  lemma EmissionsExact(c: Config, s: Search, a: nat, es: seq<Option<Transition>>, f: Word) returns (s': Search)
    requires CostGuided(c) && Consistent(c)
    requires Structure(c, s) && s.stop.None? && Expanding(c, s.nodes, s.open, a, 0)
    requires s.nodes[a].cost + s.nodes[a].heuristic == f && Sided(s.nodes, s.open, f) && Exact(c, s.nodes)
    requires es == c.adapter.neighbors(s.nodes[a].state)
    ensures s' == Fold(Emitter(c, a), s, es, |es|) && Exact(c, s'.nodes)
  {
    var node := s.nodes[a];
    var step := Emitter(c, a);
    var P := (s1: Search, j: nat) => ExactRun(c, s, s1, a, node, f, j);
    forall s1, j | 0 <= j < |es| && P(s1, j)
      ensures P(step(s1, es[j]), j + 1)
    {
      if s1.stop.None? {
        EmitExact(c, s, s1, a, node, f, j, es[j]);
      }
    }
    FoldKeeps(step, s, es, |es|, P);
    s' := Fold(step, s, es, |es|);
  }

  lemma CloseExact(c: Config, nodes: seq<Node>, n: nat)
    requires Exact(c, nodes) && n < |nodes|
    ensures Exact(c, nodes[n := nodes[n].(closed := true)])
  {
    var nodes' := nodes[n := nodes[n].(closed := true)];
    forall v | 0 <= v < |nodes'| ensures ExactAt(c, nodes', v) {
      assert ExactAt(c, nodes, v);
      ExactStays(c, nodes, nodes', v);
    }
  }

  lemma ExpandExact(c: Config, s: Search, n: nat, f: nat) returns (s': Search)
    requires CostGuided(c) && Consistent(c)
    requires Structure(c, s) && s.stop.None? && Frontier(c, s.nodes, s.open)
    requires IsLeast(s.nodes, s.open, n) && !c.adapter.goal(s.nodes[n].state)
    requires Sided(s.nodes, s.open, f) && s.nodes[n].cost + s.nodes[n].heuristic <= UINT64_MAX && Exact(c, s.nodes)
    ensures s' == Expand(c, s, n) && Exact(c, s'.nodes)
  {
    var s0 := ClosedSided(c, s, n, f);
    CloseExact(c, s.nodes, n);
    var es := c.adapter.neighbors(s.nodes[n].state);
    s' := EmissionsExact(c, s0, n, es, s.nodes[n].priority);
    if s'.stop.None? && !c.adapter.enumerates(s.nodes[n].state) {
      s' := Halt(s', AdapterError, AdapterFailed);
    }
  }

  /** Exactness survives an iteration, even one that stops the search half way. */
  lemma StepExact(c: Config, s: Search, f: nat) returns (s': Search)
    requires CostGuided(c) && Consistent(c) && Fits(c, s) && Inv(c, s) && s.stop.None?
    requires Sided(s.nodes, s.open, f) && Exact(c, s.nodes)
    ensures s' == Step(c, s) && Exact(c, s'.nodes)
  {
    s' := StepExpands(c, s);
    if Expands(c, s, s') {
      var s1 := ExpandExact(c, s.(polls := s.polls + 1), Least(s.nodes, s.open), f);
    }
  }

  lemma InitialExact(c: Config)
    ensures Exact(c, Initial(c).nodes)
  {
    assert ExactAt(c, Initial(c).nodes, 0);
  }

  lemma {:induction false} RunExact(c: Config, run: nat -> Search, k: nat)
    requires CostGuided(c) && Consistent(c) && IsRun(c, run) && Unsaturated(c, run, k)
    ensures Exact(c, run(k).nodes)
  {
    if k == 0 {
      InitialExact(c);
    } else {
      RunExact(c, run, k - 1);
      assert Steady(c, run, k - 1) && Fits(c, run(k - 1));
      if run(k - 1).stop.None? {
        var f := AlwaysSided(c, run, k - 1);
        var s' := StepExact(c, run(k - 1), f);
      }
    }
  }

  // ---------------------------------------------------------------- reported paths

  /** An exact chain of parent links is a path of exactly the node's cost. */
  lemma {:induction false} ExactChain(c: Config, nodes: seq<Node>, v: nat, d: nat) returns (ts: seq<Transition>)
    requires Exact(c, nodes) && Rooted(nodes, v, d)
    ensures IsPath(c, c.start, ts) && End(c.start, ts) == nodes[v].state
    ensures PathCost(c, ts) == nodes[v].cost && Shows(c, ChainSteps(nodes, v, d), ts)
    decreases d
  {
    assert ExactAt(c, nodes, v);
    if d == 0 {
      ts := [];
    } else {
      var front := ExactChain(c, nodes, nodes[v].parent.value, d - 1);
      var t :| ExactLink(c, nodes, v, t);
      PathSnoc(c, c.start, front, t);
      ts := front + [t];
    }
  }

  lemma {:induction false} RunIsAfter(c: Config, run: nat -> Search, k: nat)
    requires IsRun(c, run)
    ensures run(k) == After(c, k)
  {
    if k > 0 {
      RunIsAfter(c, run, k - 1);
      assert Steady(c, run, k - 1);
    }
  }

  /**
   With a consistent score, and as long as no popped node's cost and score overflow, what is
   reported - a partial result included - costs exactly the reported total.
   */
  lemma ReportedCostsTotal(c: Config, run: nat -> Search, n: nat, r: Result) returns (ts: seq<Transition>)
    requires CostGuided(c) && Consistent(c) && IsRun(c, run) && Unsaturated(c, run, n)
    requires StopsWith(c, n, r) && r.steps != []
    ensures IsPath(c, c.start, ts) && Shows(c, r.steps, ts) && PathCost(c, ts) == r.totalCost
  {
    RunIsAfter(c, run, n);
    RunExact(c, run, n);
    var s := After(c, n);
    var v := Reported(c, s).1.value;
    assert HasDepth(s.nodes, v);
    ts := ExactChain(c, s.nodes, v, Depth(s.nodes, v));
  }

  /** Dijkstra and breadth-first search report no path that costs less than they say. */
  lemma UninformedReportsCost(c: Config, r: Result) returns (ts: seq<Transition>)
    requires !UsesHeuristic(c.options.algorithm) && Outcome(c, r) && r.steps != []
    ensures IsPath(c, c.start, ts) && Shows(c, r.steps, ts) && PathCost(c, ts) == r.totalCost
  {
    var n: nat :| StopsWith(c, n, r);
    var run := (k: nat) => After(c, k);
    AfterIsRun(c);
    UninformedFits(c, run, n);
    ts := ReportedCostsTotal(c, run, n, r);
  }
}
