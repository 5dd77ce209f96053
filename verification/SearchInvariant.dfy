/**
 What every step of a search keeps: the shape of the node table (distinct states,
 genuine parent links that never form a cycle, best partial candidate) and the
 frontier property (every node is open or closed, and every transition out of a
 closed node has been relaxed).
 */
module SearchInvariant {
  import opened Folds
  import opened PathGraph
  import opened SearchModel
  import opened Wrappers

  ghost predicate Differ(nodes: seq<Node>, i: nat, j: nat)
    requires i < |nodes| && j < |nodes|
  {
    nodes[i].state != nodes[j].state
  }

  ghost predicate Distinct(nodes: seq<Node>) {
    forall i, j :: 0 <= i < j < |nodes| ==> Differ(nodes, i, j)
  }

  /** Scores and priorities are what the algorithm prescribes for state and cost. */
  ghost predicate ScoredAt(c: Config, nodes: seq<Node>, i: nat)
    requires i < |nodes|
  {
    && nodes[i].heuristic == Score(c, nodes[i].state)
    && nodes[i].priority == Priority(c.options.algorithm, nodes[i].cost, nodes[i].heuristic)
  }

  ghost predicate Scored(c: Config, nodes: seq<Node>) {
    forall i :: 0 <= i < |nodes| ==> ScoredAt(c, nodes, i)
  }

  /** `t` justifies the parent link of node `v`: an emitted transition, with its own data. */
  ghost predicate Link(c: Config, nodes: seq<Node>, v: nat, t: Transition)
    requires v < |nodes| && nodes[v].parent.Some? && nodes[v].parent.value < |nodes|
  {
    var p := nodes[nodes[v].parent.value];
    && Edge(c, p.state, t)
    && t.state == nodes[v].state
    && t.data == nodes[v].data
    && p.cost + StepCost(c, t) <= nodes[v].cost
  }

  ghost predicate Linked(c: Config, nodes: seq<Node>, v: nat)
    requires v < |nodes|
  {
    if v == 0 then
      nodes[v].parent.None? && nodes[v].state == c.start && nodes[v].cost == 0 && nodes[v].data == 0
    else
      && nodes[v].parent.Some?
      && nodes[v].parent.value < |nodes|
      && exists t :: Link(c, nodes, v, t)
  }

  ghost predicate AllLinked(c: Config, nodes: seq<Node>) {
    |nodes| > 0 && forall v :: 0 <= v < |nodes| ==> Linked(c, nodes, v)
  }

  /** Following `d` parent links from `v` ends in the root. */
  ghost predicate Rooted(nodes: seq<Node>, v: nat, d: nat)
    decreases d
  {
    && v < |nodes|
    && if d == 0 then v == 0
       else v != 0 && nodes[v].parent.Some? && Rooted(nodes, nodes[v].parent.value, d - 1)
  }

  ghost predicate HasDepth(nodes: seq<Node>, v: nat) {
    exists d :: Rooted(nodes, v, d)
  }

  /** Every chain of parent links is finite. */
  ghost predicate Acyclic(nodes: seq<Node>) {
    forall v :: 0 <= v < |nodes| ==> HasDepth(nodes, v)
  }

  ghost predicate NotPreferable(c: Config, nodes: seq<Node>, best: Best, i: nat)
    requires i < |nodes| && best.node < |nodes|
  {
    !Preferable(c.adapter.partialRank(nodes[i].state), nodes[i], best.rank, nodes[best.node])
  }

  /** No node is preferable to the recorded partial candidate. */
  ghost predicate BestPartial(c: Config, nodes: seq<Node>, best: Option<Best>) {
    if !c.options.returnPartial then best.None?
    else
      && best.Some?
      && best.value.node < |nodes|
      && best.value.rank == c.adapter.partialRank(nodes[best.value.node].state)
      && forall i :: 0 <= i < |nodes| ==> NotPreferable(c, nodes, best.value, i)
  }

  ghost predicate Table(c: Config, nodes: seq<Node>, best: Option<Best>) {
    && Distinct(nodes)
    && Scored(c, nodes)
    && AllLinked(c, nodes)
    && Acyclic(nodes)
    && BestPartial(c, nodes, best)
  }

  ghost predicate Structure(c: Config, s: Search) {
    Indexed(s) && Table(c, s.nodes, s.best)
  }

  /** Some node holds `state` at cost at most `bound`. */
  ghost predicate Reached(nodes: seq<Node>, state: Word, bound: nat) {
    exists v :: 0 <= v < |nodes| && nodes[v].state == state && nodes[v].cost <= bound
  }

  /** The `j`-th emission of node `u` is a transition and has been relaxed. */
  ghost predicate RelaxedAt(c: Config, nodes: seq<Node>, u: nat, j: nat)
    requires u < |nodes| && j < |c.adapter.neighbors(nodes[u].state)|
  {
    var e := c.adapter.neighbors(nodes[u].state)[j];
    e.Some? && Reached(nodes, e.value.state, nodes[u].cost + StepCost(c, e.value))
  }

  /** The first `k` emissions of node `u` have been relaxed. */
  ghost predicate Relaxed(c: Config, nodes: seq<Node>, u: nat, k: nat)
    requires u < |nodes|
  {
    && k <= |c.adapter.neighbors(nodes[u].state)|
    && forall j :: 0 <= j < k ==> RelaxedAt(c, nodes, u, j)
  }

  ghost predicate FullyRelaxed(c: Config, nodes: seq<Node>, u: nat)
    requires u < |nodes|
  {
    Relaxed(c, nodes, u, |c.adapter.neighbors(nodes[u].state)|)
  }

  /** Node `i` is open or closed, not both, and a goal is never closed. */
  ghost predicate Placed(c: Config, nodes: seq<Node>, open: set<nat>, i: nat)
    requires i < |nodes|
  {
    && (nodes[i].closed <==> i !in open)
    && (nodes[i].closed ==> !c.adapter.goal(nodes[i].state))
  }

  ghost predicate Settled(c: Config, nodes: seq<Node>, i: nat)
    requires i < |nodes|
  {
    nodes[i].closed ==> FullyRelaxed(c, nodes, i)
  }

  ghost predicate Partitioned(c: Config, nodes: seq<Node>, open: set<nat>) {
    && (forall i :: i in open ==> i < |nodes|)
    && (forall i :: 0 <= i < |nodes| ==> Placed(c, nodes, open, i))
  }

  /** Open and closed partition the table; closed nodes are relaxed non-goals. */
  ghost predicate Frontier(c: Config, nodes: seq<Node>, open: set<nat>) {
    && Partitioned(c, nodes, open)
    && forall i :: 0 <= i < |nodes| ==> Settled(c, nodes, i)
  }

  /** The frontier while node `a` is being expanded and `k` emissions are done. */
  ghost predicate Expanding(c: Config, nodes: seq<Node>, open: set<nat>, a: nat, k: nat) {
    && a < |nodes| && nodes[a].closed
    && Partitioned(c, nodes, open)
    && (forall i :: 0 <= i < |nodes| && i != a ==> Settled(c, nodes, i))
    && Relaxed(c, nodes, a, k)
  }

  /** The invariant of the main loop, including what the two decisive stops leave behind. */
  ghost predicate Inv(c: Config, s: Search) {
    && Structure(c, s)
    && match s.stop
       case None => Frontier(c, s.nodes, s.open)
       case Some(Stop(Found, _, Some(n))) =>
         && n < |s.nodes| && n !in s.open
         && c.adapter.goal(s.nodes[n].state)
         && IsLeast(s.nodes, s.open + {n}, n)
         && Frontier(c, s.nodes, s.open + {n})
       case Some(Stop(Found, _, None)) => false
       case Some(Stop(NoPath, _, _)) => s.open == {} && Frontier(c, s.nodes, {})
       case _ => true
  }

  // ---------------------------------------------------------------- growth

  /** The table only grows, states stay put and costs only drop. */
  ghost predicate Cheaper(nodes: seq<Node>, nodes': seq<Node>) {
    && |nodes| <= |nodes'|
    && forall i :: 0 <= i < |nodes| ==>
         nodes'[i].state == nodes[i].state && nodes'[i].cost <= nodes[i].cost
  }

  /** Moreover a node that is closed afterwards was not touched at all. */
  ghost predicate Advances(nodes: seq<Node>, nodes': seq<Node>) {
    && Cheaper(nodes, nodes')
    && (forall i :: 0 <= i < |nodes'| && nodes'[i].closed ==> i < |nodes| && nodes'[i] == nodes[i])
  }

  lemma ReachedAdvances(nodes: seq<Node>, nodes': seq<Node>, state: Word, bound: nat)
    requires Cheaper(nodes, nodes') && Reached(nodes, state, bound)
    ensures Reached(nodes', state, bound)
  {
    var v :| 0 <= v < |nodes| && nodes[v].state == state && nodes[v].cost <= bound;
    assert nodes'[v].state == state && nodes'[v].cost <= bound;
  }

  /** Relaxed emissions of a node that keeps its state and cost stay relaxed. */
  lemma RelaxedAdvances(c: Config, nodes: seq<Node>, nodes': seq<Node>, u: nat, k: nat)
    requires Cheaper(nodes, nodes') && u < |nodes|
    requires nodes'[u].state == nodes[u].state && nodes'[u].cost == nodes[u].cost
    requires Relaxed(c, nodes, u, k)
    ensures Relaxed(c, nodes', u, k)
  {
    var es := c.adapter.neighbors(nodes[u].state);
    forall j | 0 <= j < k
      ensures RelaxedAt(c, nodes', u, j)
    {
      assert RelaxedAt(c, nodes, u, j);
      ReachedAdvances(nodes, nodes', es[j].value.state, nodes[u].cost + StepCost(c, es[j].value));
    }
  }

  // ---------------------------------------------------------------- acyclicity

  /** Costs never increase towards the root. */
  lemma {:induction false} CheapChainSurvives(
      c: Config, nodes: seq<Node>, nodes': seq<Node>, v: nat, i: nat, d: nat)
    requires AllLinked(c, nodes) && v < |nodes| && |nodes'| == |nodes|
    requires forall j :: 0 <= j < |nodes| && j != v ==> nodes'[j].parent == nodes[j].parent
    requires Rooted(nodes, i, d) && nodes[i].cost < nodes[v].cost
    ensures Rooted(nodes', i, d)
    decreases d
  {
    if d > 0 {
      assert Linked(c, nodes, i);
      CheapChainSurvives(c, nodes, nodes', v, nodes[i].parent.value, d - 1);
    }
  }

  lemma {:induction false} ChainSurvives(nodes: seq<Node>, nodes': seq<Node>, v: nat, i: nat, d: nat)
    requires v < |nodes| && |nodes'| == |nodes|
    requires forall j :: 0 <= j < |nodes| && j != v ==> nodes'[j].parent == nodes[j].parent
    requires HasDepth(nodes', v)
    requires Rooted(nodes, i, d)
    ensures HasDepth(nodes', i)
    decreases d
  {
    if i == v {
    } else if d == 0 {
      assert Rooted(nodes', i, 0);
    } else {
      var p := nodes[i].parent.value;
      ChainSurvives(nodes, nodes', v, p, d - 1);
      var d': nat :| Rooted(nodes', p, d');
      assert Rooted(nodes', i, d' + 1);
    }
  }

  /**
   Giving `v` a new parent that is strictly cheaper than `v` was cannot close a
   cycle, even when every transition on the way costs zero.
   */
  lemma ReparentKeepsAcyclic(c: Config, nodes: seq<Node>, nodes': seq<Node>, v: nat, a: nat)
    requires AllLinked(c, nodes) && Acyclic(nodes)
    requires 0 < v < |nodes| && a < |nodes| && |nodes'| == |nodes|
    requires nodes[a].cost < nodes[v].cost
    requires nodes'[v].parent == Some(a)
    requires forall j :: 0 <= j < |nodes| && j != v ==> nodes'[j].parent == nodes[j].parent
    ensures Acyclic(nodes')
  {
    assert HasDepth(nodes, a);
    var d: nat :| Rooted(nodes, a, d);
    CheapChainSurvives(c, nodes, nodes', v, a, d);
    assert Rooted(nodes', v, d + 1);
    forall i | 0 <= i < |nodes'|
      ensures HasDepth(nodes', i)
    {
      assert HasDepth(nodes, i);
      var e: nat :| Rooted(nodes, i, e);
      ChainSurvives(nodes, nodes', v, i, e);
    }
  }

  lemma {:induction false} ChainInPrefix(nodes: seq<Node>, node: Node, i: nat, d: nat)
    requires Rooted(nodes, i, d)
    ensures Rooted(nodes + [node], i, d)
    decreases d
  {
    if d > 0 {
      ChainInPrefix(nodes, node, nodes[i].parent.value, d - 1);
    }
  }

  lemma AppendKeepsAcyclic(nodes: seq<Node>, node: Node)
    requires Acyclic(nodes) && |nodes| > 0
    requires node.parent.Some? && node.parent.value < |nodes|
    ensures Acyclic(nodes + [node])
  {
    var nodes' := nodes + [node];
    forall i | 0 <= i < |nodes'|
      ensures HasDepth(nodes', i)
    {
      var j := if i < |nodes| then i else node.parent.value;
      assert HasDepth(nodes, j);
      var d: nat :| Rooted(nodes, j, d);
      ChainInPrefix(nodes, node, j, d);
      if i == |nodes| {
        assert Rooted(nodes', i, d + 1);
      }
    }
  }

  // ---------------------------------------------------------------- links

  /** A parent link stays justified when other nodes get cheaper. */
  lemma LinkedAdvances(c: Config, nodes: seq<Node>, nodes': seq<Node>, i: nat)
    requires Cheaper(nodes, nodes') && i < |nodes|
    requires nodes'[i].parent == nodes[i].parent && nodes'[i].data == nodes[i].data
    requires nodes'[i].cost == nodes[i].cost
    requires Linked(c, nodes, i)
    ensures Linked(c, nodes', i)
  {
    if i != 0 {
      var t :| Link(c, nodes, i, t);
      assert Link(c, nodes', i, t);
    }
  }

  // ---------------------------------------------------------------- one emission

  lemma ConsiderKeeps(c: Config, s: Search, s0: Search, v: nat)
    requires Indexed(s) && Indexed(s0) && v < |s.nodes|
    requires s.best == s0.best && BestPartial(c, s0.nodes, s0.best)
    requires |s0.nodes| <= |s.nodes|
    requires forall i :: 0 <= i < |s.nodes| && i != v ==> i < |s0.nodes| && s.nodes[i] == s0.nodes[i]
    requires v < |s0.nodes| ==> s.nodes[v].state == s0.nodes[v].state && s.nodes[v].cost <= s0.nodes[v].cost
    ensures BestPartial(c, s.nodes, Consider(c, s, v).best)
    ensures Consider(c, s, v).(best := s.best) == s
  {
    if c.options.returnPartial {
      var b := Consider(c, s, v).best.value;
      var b0 := s0.best.value;
      forall i | 0 <= i < |s.nodes|
        ensures NotPreferable(c, s.nodes, b, i)
      {
        assert i < |s0.nodes| ==> NotPreferable(c, s0.nodes, b0, i);
        assert v < |s0.nodes| ==> NotPreferable(c, s0.nodes, b0, v);
      }
    }
  }

  /** Scores and distinctness survive a change confined to node `v`. */
  lemma TouchKeeps(c: Config, nodes: seq<Node>, nodes': seq<Node>, v: nat)
    requires Distinct(nodes) && Scored(c, nodes)
    requires v < |nodes'| && (|nodes'| == |nodes| || (v == |nodes| && |nodes'| == |nodes| + 1))
    requires forall i :: 0 <= i < |nodes| && i != v ==> nodes'[i] == nodes[i]
    requires forall i :: 0 <= i < |nodes| && i != v ==> nodes'[v].state != nodes[i].state
    requires ScoredAt(c, nodes', v)
    ensures Distinct(nodes') && Scored(c, nodes')
  {
    forall i | 0 <= i < |nodes'| ensures ScoredAt(c, nodes', i) {
      if i != v {
        assert ScoredAt(c, nodes, i);
      }
    }
    forall i, j | 0 <= i < j < |nodes'| ensures Differ(nodes', i, j) {
      if i != v && j != v {
        assert Differ(nodes, i, j);
      }
    }
  }

  lemma DiscoverKeeps(c: Config, s: Search, a: nat, t: Transition, g: Word) returns (s': Search)
    requires Structure(c, s) && a < |s.nodes|
    requires Edge(c, s.nodes[a].state, t) && g == s.nodes[a].cost + StepCost(c, t)
    requires forall i :: 0 <= i < |s.nodes| ==> s.nodes[i].state != t.state
    ensures s' == Discover(c, s, a, t, g)
    ensures Structure(c, s') && Advances(s.nodes, s'.nodes) && Reached(s'.nodes, t.state, g)
  {
    var h := Score(c, t.state);
    var v := |s.nodes|;
    var node := Node(t.state, g, h, Priority(c.options.algorithm, g, h), t.data, Some(a), v, false);
    var s1 := s.(nodes := s.nodes + [node], open := s.open + {v});
    ConsiderKeeps(c, s1, s, v);
    AppendKeepsAcyclic(s.nodes, node);
    TouchKeeps(c, s.nodes, s1.nodes, v);
    assert Link(c, s1.nodes, v, t);
    forall i | 0 <= i < v
      ensures Linked(c, s1.nodes, i)
    {
      LinkedAdvances(c, s.nodes, s1.nodes, i);
    }
    assert s1.nodes[v].state == t.state;
    s' := Consider(c, s1, v);
  }

  lemma LowerKeeps(c: Config, s: Search, a: nat, v: nat, t: Transition, g: Word) returns (s': Search)
    requires Structure(c, s) && a < |s.nodes| && v < |s.nodes|
    requires Edge(c, s.nodes[a].state, t) && g == s.nodes[a].cost + StepCost(c, t)
    requires s.nodes[v].state == t.state && g < s.nodes[v].cost
    ensures s' == Lower(c, s, a, v, t, g)
    ensures Structure(c, s') && Advances(s.nodes, s'.nodes) && Reached(s'.nodes, t.state, g)
  {
    var n := s.nodes[v];
    var node := n.(cost := g, priority := Priority(c.options.algorithm, g, n.heuristic),
                   data := t.data, parent := Some(a), closed := false);
    var s1 := s.(nodes := s.nodes[v := node], open := if n.closed then s.open + {v} else s.open);
    assert Linked(c, s.nodes, v) && v != 0 && ScoredAt(c, s.nodes, v);
    forall i | 0 <= i < |s.nodes| && i != v ensures s.nodes[i].state != node.state {
      assert if i < v then Differ(s.nodes, i, v) else Differ(s.nodes, v, i);
    }
    TouchKeeps(c, s.nodes, s1.nodes, v);
    ConsiderKeeps(c, s1, s, v);
    ReparentKeepsAcyclic(c, s.nodes, s1.nodes, v, a);
    assert Link(c, s1.nodes, v, t);
    forall i | 0 <= i < |s.nodes| && i != v
      ensures Linked(c, s1.nodes, i)
    {
      LinkedAdvances(c, s.nodes, s1.nodes, i);
    }
    assert s1.nodes[v].state == t.state;
    s' := Consider(c, s1, v);
  }

  lemma ExpandingAdvances(c: Config, nodes: seq<Node>, open: set<nat>, nodes': seq<Node>, open': set<nat>, a: nat,
                          k: nat)
    requires Expanding(c, nodes, open, a, k)
    requires Advances(nodes, nodes') && nodes'[a] == nodes[a]
    requires Partitioned(c, nodes', open')
    requires k < |c.adapter.neighbors(nodes[a].state)| && RelaxedAt(c, nodes', a, k)
    ensures Expanding(c, nodes', open', a, k + 1)
  {
    forall i | 0 <= i < |nodes'| && i != a
      ensures Settled(c, nodes', i)
    {
      if nodes'[i].closed {
        assert Settled(c, nodes, i);
        RelaxedAdvances(c, nodes, nodes', i, |c.adapter.neighbors(nodes[i].state)|);
      }
    }
    RelaxedAdvances(c, nodes, nodes', a, k);
  }

  /** A stop that decides nothing about the graph. */
  ghost predicate Undecided(s: Search) {
    s.stop.Some? && s.stop.value.status != Found && s.stop.value.status != NoPath && s.stop.value.node.None?
  }

  /** The active node of an expansion is left alone by what it emits. */
  ghost predicate Progress(c: Config, s: Search, s': Search, a: nat)
    requires a < |s.nodes|
  {
    && Structure(c, s')
    && Advances(s.nodes, s'.nodes)
    && s'.nodes[a] == s.nodes[a]
    && (s'.stop.Some? ==> Undecided(s'))
  }

  /** What relaxing a transition out of node `a` at cost `g` comes to. */
  ghost predicate Relaxes(c: Config, s: Search, s': Search, a: nat, t: Transition, g: nat)
    requires a < |s.nodes|
  {
    Progress(c, s, s', a) && (s'.stop.None? ==> Reached(s'.nodes, t.state, g))
  }

  lemma HaltProgress(c: Config, s: Search, a: nat, status: Status, termination: Termination) returns (s': Search)
    requires Structure(c, s) && a < |s.nodes| && status != Found && status != NoPath
    ensures s' == Halt(s, status, termination) && Progress(c, s, s', a) && s'.stop.Some?
  {
    s' := Halt(s, status, termination);
  }

  lemma LowerProgress(c: Config, s: Search, a: nat, v: nat, t: Transition, g: Word) returns (s': Search)
    requires Structure(c, s) && s.stop.None? && a < |s.nodes| && v < |s.nodes|
    requires Edge(c, s.nodes[a].state, t) && g == s.nodes[a].cost + StepCost(c, t)
    requires s.nodes[v].state == t.state && g < s.nodes[v].cost
    ensures s' == Lower(c, s, a, v, t, g) && Relaxes(c, s, s', a, t, g)
  {
    s' := LowerKeeps(c, s, a, v, t, g);
  }

  lemma DiscoverProgress(c: Config, s: Search, a: nat, t: Transition, g: Word) returns (s': Search)
    requires Structure(c, s) && s.stop.None? && a < |s.nodes|
    requires Edge(c, s.nodes[a].state, t) && g == s.nodes[a].cost + StepCost(c, t)
    requires forall i :: 0 <= i < |s.nodes| ==> s.nodes[i].state != t.state
    ensures s' == Discover(c, s, a, t, g) && Relaxes(c, s, s', a, t, g)
  {
    s' := DiscoverKeeps(c, s, a, t, g);
  }

  lemma RediscoverProgress(c: Config, s: Search, a: nat, v: nat, t: Transition, g: Word) returns (s': Search)
    requires Structure(c, s) && s.stop.None? && a < |s.nodes| && v < |s.nodes|
    requires Edge(c, s.nodes[a].state, t) && g == s.nodes[a].cost + StepCost(c, t)
    requires s.nodes[v].state == t.state
    ensures s' == Rediscover(c, s, a, v, t, g) && Relaxes(c, s, s', a, t, g)
  {
    if g >= s.nodes[v].cost {
      assert Reached(s.nodes, t.state, g);
      s' := s;
    } else if s.nodes[v].closed && LimitHit(c.options.maxFrontier, |s.open|) {
      s' := HaltProgress(c, s, a, LimitReached, AtLimit);
    } else {
      s' := LowerProgress(c, s, a, v, t, g);
    }
  }

  lemma RelaxProgress(c: Config, s: Search, a: nat, t: Transition) returns (s': Search)
    requires Structure(c, s) && s.stop.None? && a < |s.nodes|
    requires Edge(c, s.nodes[a].state, t)
    ensures s' == Relax(c, s, a, t)
    ensures Relaxes(c, s, s', a, t, s.nodes[a].cost + StepCost(c, t))
  {
    var g := s.nodes[a].cost + StepCost(c, t);
    var known := Find(s.nodes, t.state);
    if g > UINT64_MAX {
      s' := HaltProgress(c, s, a, CostOverflow, Overflowed);
    } else if known.Some? {
      s' := RediscoverProgress(c, s, a, known.value, t, g);
    } else if Crowded(c, s) {
      s' := HaltProgress(c, s, a, LimitReached, AtLimit);
    } else {
      s' := DiscoverProgress(c, s, a, t, g);
    }
  }

  lemma RediscoverPartitions(c: Config, s: Search, a: nat, v: nat, t: Transition, g: Word) returns (s': Search)
    requires Indexed(s) && v < |s.nodes| && Partitioned(c, s.nodes, s.open)
    ensures s' == Rediscover(c, s, a, v, t, g) && Partitioned(c, s'.nodes, s'.open)
  {
    s' := Rediscover(c, s, a, v, t, g);
    forall i | 0 <= i < |s'.nodes| ensures Placed(c, s'.nodes, s'.open, i) {
      assert Placed(c, s.nodes, s.open, i);
    }
  }

  lemma DiscoverPartitions(c: Config, s: Search, a: nat, t: Transition, g: Word) returns (s': Search)
    requires Indexed(s) && Partitioned(c, s.nodes, s.open)
    ensures s' == Discover(c, s, a, t, g) && Partitioned(c, s'.nodes, s'.open)
  {
    s' := Discover(c, s, a, t, g);
    forall i | 0 <= i < |s'.nodes| ensures Placed(c, s'.nodes, s'.open, i) {
      assert i < |s.nodes| ==> Placed(c, s.nodes, s.open, i);
    }
  }

  lemma RelaxPartitions(c: Config, s: Search, a: nat, t: Transition) returns (s': Search)
    requires Indexed(s) && a < |s.nodes| && Partitioned(c, s.nodes, s.open)
    ensures s' == Relax(c, s, a, t) && Partitioned(c, s'.nodes, s'.open)
  {
    var g := s.nodes[a].cost + StepCost(c, t);
    var known := Find(s.nodes, t.state);
    if g > UINT64_MAX {
      s' := Halt(s, CostOverflow, Overflowed);
    } else if known.Some? {
      s' := RediscoverPartitions(c, s, a, known.value, t, g);
    } else if Crowded(c, s) {
      s' := Halt(s, LimitReached, AtLimit);
    } else {
      s' := DiscoverPartitions(c, s, a, t, g);
    }
  }

  lemma RelaxKeeps(c: Config, s: Search, a: nat, k: nat, t: Transition) returns (s': Search)
    requires Structure(c, s) && s.stop.None? && Expanding(c, s.nodes, s.open, a, k)
    requires k < |c.adapter.neighbors(s.nodes[a].state)| && Some(t) == c.adapter.neighbors(s.nodes[a].state)[k]
    ensures s' == Relax(c, s, a, t)
    ensures Progress(c, s, s', a)
    ensures s'.stop.None? ==> Expanding(c, s'.nodes, s'.open, a, k + 1)
  {
    s' := RelaxProgress(c, s, a, t);
    if s'.stop.None? {
      var s2 := RelaxPartitions(c, s, a, t);
      ExpandingAdvances(c, s.nodes, s.open, s'.nodes, s'.open, a, k);
    }
  }

  /** One emission keeps the table's structure and advances the expansion by one. */
  lemma EmitKeeps(c: Config, s: Search, a: nat, k: nat, e: Option<Transition>) returns (s': Search)
    requires Structure(c, s) && s.stop.None? && Expanding(c, s.nodes, s.open, a, k)
    requires k < |c.adapter.neighbors(s.nodes[a].state)| && e == c.adapter.neighbors(s.nodes[a].state)[k]
    ensures s' == Emit(c, s, a, e)
    ensures Progress(c, s, s', a)
    ensures s'.stop.None? ==> Expanding(c, s'.nodes, s'.open, a, k + 1)
  {
    s' := Admit(c, s, e);
    if s'.stop.None? {
      s' := RelaxKeeps(c, s', a, k, e.value);
    }
  }

  /** Where a search stands after `k` emissions of node `a`. */
  ghost predicate Enumerated(c: Config, s: Search, a: nat, node: Node, k: nat) {
    && Structure(c, s)
    && a < |s.nodes| && s.nodes[a] == node
    && if s.stop.None? then Expanding(c, s.nodes, s.open, a, k) else Undecided(s)
  }

  lemma EmissionsKeep(c: Config, s: Search, a: nat, es: seq<Option<Transition>>) returns (s': Search)
    requires Structure(c, s) && s.stop.None? && Expanding(c, s.nodes, s.open, a, 0)
    requires es == c.adapter.neighbors(s.nodes[a].state)
    ensures s' == Fold(Emitter(c, a), s, es, |es|)
    ensures Enumerated(c, s', a, s.nodes[a], |es|)
  {
    var node := s.nodes[a];
    var f := Emitter(c, a);
    var P := (s1: Search, j: nat) => Enumerated(c, s1, a, node, j);
    forall s1, j | 0 <= j < |es| && P(s1, j)
      ensures P(f(s1, es[j]), j + 1)
    {
      if s1.stop.None? {
        var s2 := EmitKeeps(c, s1, a, j, es[j]);
      }
    }
    FoldKeeps(f, s, es, |es|, P);
    s' := Fold(f, s, es, |es|);
  }

  lemma {:induction false} SameParents(nodes: seq<Node>, nodes': seq<Node>, i: nat, d: nat)
    requires |nodes| == |nodes'| && Rooted(nodes, i, d)
    requires forall j :: 0 <= j < |nodes| ==> nodes'[j].parent == nodes[j].parent
    ensures Rooted(nodes', i, d)
    decreases d
  {
    if d > 0 {
      SameParents(nodes, nodes', nodes[i].parent.value, d - 1);
    }
  }

  lemma CloseKeepsTable(c: Config, nodes: seq<Node>, best: Option<Best>, n: nat)
    requires Table(c, nodes, best) && n < |nodes|
    ensures Table(c, nodes[n := nodes[n].(closed := true)], best)
  {
    var nodes' := nodes[n := nodes[n].(closed := true)];
    assert ScoredAt(c, nodes, n);
    forall i | 0 <= i < |nodes| && i != n ensures nodes[i].state != nodes[n].state {
      assert if i < n then Differ(nodes, i, n) else Differ(nodes, n, i);
    }
    TouchKeeps(c, nodes, nodes', n);
    forall i | 0 <= i < |nodes| ensures Linked(c, nodes', i) {
      LinkedAdvances(c, nodes, nodes', i);
    }
    forall i | 0 <= i < |nodes| ensures HasDepth(nodes', i) {
      assert HasDepth(nodes, i);
      var d: nat :| Rooted(nodes, i, d);
      SameParents(nodes, nodes', i, d);
    }
    if c.options.returnPartial {
      forall i | 0 <= i < |nodes| ensures NotPreferable(c, nodes', best.value, i) {
        assert NotPreferable(c, nodes, best.value, i);
      }
    }
  }

  lemma CloseKeepsFrontier(c: Config, nodes: seq<Node>, open: set<nat>, n: nat)
    requires Frontier(c, nodes, open) && n in open && !c.adapter.goal(nodes[n].state)
    ensures Expanding(c, nodes[n := nodes[n].(closed := true)], open - {n}, n, 0)
  {
    var nodes' := nodes[n := nodes[n].(closed := true)];
    forall i | 0 <= i < |nodes| ensures Placed(c, nodes', open - {n}, i) {
      assert Placed(c, nodes, open, i);
    }
    forall i | 0 <= i < |nodes| && i != n ensures Settled(c, nodes', i) {
      if nodes'[i].closed {
        assert Settled(c, nodes, i);
        RelaxedAdvances(c, nodes, nodes', i, |c.adapter.neighbors(nodes[i].state)|);
      }
    }
  }

  lemma ExpandKeeps(c: Config, s: Search, n: nat) returns (s': Search)
    requires Structure(c, s) && s.stop.None? && Frontier(c, s.nodes, s.open) && n in s.open
    requires !c.adapter.goal(s.nodes[n].state)
    ensures s' == Expand(c, s, n)
    ensures Structure(c, s')
    ensures if s'.stop.None? then Frontier(c, s'.nodes, s'.open) else Undecided(s')
  {
    var es := c.adapter.neighbors(s.nodes[n].state);
    CloseKeepsTable(c, s.nodes, s.best, n);
    CloseKeepsFrontier(c, s.nodes, s.open, n);
    s' := EmissionsKeep(c, Close(s, n), n, es);
    if s'.stop.None? {
      assert Settled(c, s'.nodes, n);
    }
    if s'.stop.None? && !c.adapter.enumerates(s.nodes[n].state) {
      s' := Halt(s', AdapterError, AdapterFailed);
    }
  }

  /** Every iteration of the main loop keeps the invariant. */
  lemma StepKeeps(c: Config, s: Search) returns (s': Search)
    requires Inv(c, s)
    ensures s' == Step(c, s)
    ensures Inv(c, s')
  {
    var polled := s.(polls := s.polls + 1);
    if s.stop.Some? {
      s' := s;
    } else if s.open == {} {
      s' := Halt(s, NoPath, Exhausted);
    } else if c.adapter.cancelled(s.polls) {
      s' := Halt(polled, Cancelled, WasCancelled);
    } else {
      var n := Least(s.nodes, s.open);
      if c.adapter.goal(s.nodes[n].state) {
        s' := polled.(open := s.open - {n}, stop := Some(Stop(Found, AtGoal, Some(n))));
        assert s'.open + {n} == s.open;
      } else if LimitHit(c.options.maxExpanded, s.expanded) {
        s' := Halt(polled.(open := s.open - {n}), LimitReached, AtLimit);
      } else {
        s' := ExpandKeeps(c, polled, n);
      }
    }
  }

  lemma InitialInv(c: Config)
    ensures Inv(c, Initial(c))
  {
    var s := Initial(c);
    assert Rooted(s.nodes, 0, 0);
    assert Linked(c, s.nodes, 0);
  }

  /** Every state of every run satisfies the invariant. */
  lemma AlwaysInv(c: Config, n: nat)
    ensures Inv(c, After(c, n))
  {
    var P := (s: Search) => Inv(c, s);
    forall s | P(s) ensures P(Stepper(c)(s)) {
      var s' := StepKeeps(c, s);
    }
    InitialInv(c);
    IterateKeeps(Stepper(c), Initial(c), n, P);
  }

  /** Iteration `i` of a run takes one sound state to the next. */
  ghost predicate Steady(c: Config, run: nat -> Search, i: nat) {
    Inv(c, run(i)) && run(i + 1) == Step(c, run(i))
  }

  /** `run` gives the search after any number of iterations of its main loop. */
  ghost predicate IsRun(c: Config, run: nat -> Search) {
    run(0) == Initial(c) && forall i: nat :: Steady(c, run, i)
  }

  lemma AfterSteady(c: Config, run: nat -> Search, i: nat)
    requires run(i) == After(c, i) && run(i + 1) == After(c, i + 1)
    ensures Steady(c, run, i)
  {
    AlwaysInv(c, i);
    assert run(i + 1) == Stepper(c)(run(i));
  }

  /** The states reached by iterating the loop form a run. */
  lemma AfterIsRun(c: Config)
    ensures IsRun(c, (n: nat) => After(c, n))
  {
    var run := (n: nat) => After(c, n);
    forall i: nat ensures Steady(c, run, i) {
      AfterSteady(c, run, i);
    }
  }
}
