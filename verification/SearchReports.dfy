/**
 What a search reports, and in which order it works: statuses from terminations, pops by the
 keys of the four algorithms, discoveries in the order of emission, links that change only for
 a lower cost.
 */
module SearchReports {
  import opened Folds
  import opened PathGraph
  import opened SearchModel
  import opened SearchInvariant
  import opened SearchTheorems
  import opened MonotonePops
  import opened Wrappers

  /** The status that goes with a termination when no partial result is reported. */
  function PlainStatus(termination: Termination): Status {
    match termination
    case AtGoal => Found
    case Exhausted => NoPath
    case AtLimit => LimitReached
    case WasCancelled => Cancelled
    case AdapterFailed => AdapterError
    case Overflowed => CostOverflow
    case BadInput => InvalidInput
  }

  /**
   A partial result is reported exactly if one is asked for and the search was exhausted, cut
   short by a budget or cancelled; in every other case the status is that of the termination.
   There is a path exactly with these results and with a goal.
   */
  lemma StatusIs(c: Config, n: nat, r: Result)
    requires StopsWith(c, n, r)
    ensures r.status == Partial <==>
      c.options.returnPartial && r.termination in {Exhausted, AtLimit, WasCancelled}
    ensures r.status != Partial ==> r.status == PlainStatus(r.termination)
    ensures r.steps != [] <==> r.status == Found || r.status == Partial
    ensures r.steps == [] ==> r.totalCost == 0
    ensures r.expanded == After(c, n).expanded && r.examined == After(c, n).examined
    ensures r.generated == |After(c, n).nodes|
  {
    EveryStopIsLegal(c, n);
    var s := After(c, n);
    var node := Reported(c, s).1;
    if node.Some? {
      assert HasDepth(s.nodes, node.value);
    }
  }

  // ---------------------------------------------------------------- the order of pops

  function Capped(f: nat): nat {
    if f > UINT64_MAX then UINT64_MAX else f
  }

  /** The keys by which node `p` goes before node `q`; the last one is the order of discovery. */
  ghost predicate GoesFirst(c: Config, nodes: seq<Node>, p: nat, q: nat)
    requires p < |nodes| && q < |nodes|
  {
    var hp, hq := c.adapter.heuristic(nodes[p].state), c.adapter.heuristic(nodes[q].state);
    var gp, gq := nodes[p].cost, nodes[q].cost;
    match c.options.algorithm
    case GreedyBestFirst => hp < hq || (hp == hq && p < q)
    case AStar =>
      var fp, fq := Capped(gp + hp), Capped(gq + hq);
      fp < fq || (fp == fq && (hp < hq || (hp == hq && p < q)))
    case _ => gp < gq || (gp == gq && p < q)
  }

  /**
   Greedy search pops by the heuristic without the cost, Dijkstra's and breadth-first search by
   the cost without the heuristic, A* by their capped sum and then by the heuristic; all of them
   break ties in favour of what was discovered first.
   */
  lemma PopsByKeys(c: Config, n: nat, q: nat)
    requires Pops(c, After(c, n)) && q in After(c, n).open && q != Popped(After(c, n))
    ensures q < |After(c, n).nodes| && GoesFirst(c, After(c, n).nodes, Popped(After(c, n)), q)
  {
    AlwaysInv(c, n);
    var s := After(c, n);
    var p := Popped(s);
    assert ScoredAt(c, s.nodes, p) && ScoredAt(c, s.nodes, q);
    assert IsLeast(s.nodes, s.open, p);
  }

  // ---------------------------------------------------------------- links

  /** A node that keeps its cost keeps its parent and its data; the table only grows. */
  ghost predicate LinkStays(nodes: seq<Node>, nodes': seq<Node>, i: nat)
    requires i < |nodes| <= |nodes'|
  {
    && nodes'[i].state == nodes[i].state && nodes'[i].cost <= nodes[i].cost
    && (nodes'[i].cost == nodes[i].cost ==> nodes'[i].parent == nodes[i].parent && nodes'[i].data == nodes[i].data)
  }

  ghost predicate LinksStay(nodes: seq<Node>, nodes': seq<Node>) {
    |nodes| <= |nodes'| && forall i :: 0 <= i < |nodes| ==> LinkStays(nodes, nodes', i)
  }

  lemma LinksStayOn(nodes: seq<Node>, nodes': seq<Node>, nodes'': seq<Node>)
    requires LinksStay(nodes, nodes') && LinksStay(nodes', nodes'')
    ensures LinksStay(nodes, nodes'')
  {
    forall i | 0 <= i < |nodes| ensures LinkStays(nodes, nodes'', i) {
      assert LinkStays(nodes, nodes', i) && LinkStays(nodes', nodes'', i);
    }
  }

  lemma RediscoverLinks(c: Config, s: Search, a: nat, v: nat, t: Transition, g: Word) returns (s': Search)
    requires Indexed(s) && v < |s.nodes| && s.nodes[v].state == t.state
    ensures s' == Rediscover(c, s, a, v, t, g) && LinksStay(s.nodes, s'.nodes) && |s'.nodes| == |s.nodes|
  {
    s' := Rediscover(c, s, a, v, t, g);
  }

  lemma DiscoverLinks(c: Config, s: Search, a: nat, t: Transition, g: Word) returns (s': Search)
    requires Indexed(s)
    ensures s' == Discover(c, s, a, t, g) && LinksStay(s.nodes, s'.nodes)
    ensures |s'.nodes| == |s.nodes| + 1 && s'.nodes[|s.nodes|].state == t.state
  {
    s' := Discover(c, s, a, t, g);
  }

  /** The state is that of a node. */
  ghost predicate Stored(nodes: seq<Node>, state: Word) {
    exists i :: 0 <= i < |nodes| && nodes[i].state == state
  }

  lemma StoredStays(nodes: seq<Node>, nodes': seq<Node>, state: Word)
    requires LinksStay(nodes, nodes') && Stored(nodes, state)
    ensures Stored(nodes', state)
  {
    var i :| 0 <= i < |nodes| && nodes[i].state == state;
    assert LinkStays(nodes, nodes', i);
  }

  /** Relaxing adds a node exactly for a state that has none, unless it stops the search. */
  ghost predicate Relaxation(s: Search, s': Search, t: Transition) {
    && LinksStay(s.nodes, s'.nodes)
    && (s'.stop.None? ==> Stored(s'.nodes, t.state))
    && (|s'.nodes| == |s.nodes|
        || (|s'.nodes| == |s.nodes| + 1 && s'.nodes[|s.nodes|].state == t.state && !Stored(s.nodes, t.state)))
  }

  lemma RelaxLinks(c: Config, s: Search, a: nat, t: Transition) returns (s': Search)
    requires Indexed(s) && a < |s.nodes| && s.stop.None?
    ensures s' == Relax(c, s, a, t) && Relaxation(s, s', t)
  {
    var g := s.nodes[a].cost + StepCost(c, t);
    var known := Find(s.nodes, t.state);
    if g > UINT64_MAX {
      s' := Halt(s, CostOverflow, Overflowed);
    } else if known.Some? {
      s' := RediscoverLinks(c, s, a, known.value, t, g);
      assert LinkStays(s.nodes, s'.nodes, known.value) && s'.nodes[known.value].state == t.state;
    } else if Crowded(c, s) {
      s' := Halt(s, LimitReached, AtLimit);
    } else {
      s' := DiscoverLinks(c, s, a, t, g);
      assert s'.nodes[|s.nodes|].state == t.state;
    }
  }

  // ---------------------------------------------------------------- the order of discoveries

  /** The first emission that leads to the state is the q-th. */
  ghost predicate FirstAt(es: seq<Option<Transition>>, state: Word, q: nat) {
    && q < |es| && es[q].Some? && es[q].value.state == state
    && forall k :: 0 <= k < q && es[k].Some? ==> es[k].value.state != state
  }

  ghost predicate EmittedAt(nodes: seq<Node>, i: nat, es: seq<Option<Transition>>, q: nat)
    requires i < |nodes|
  {
    FirstAt(es, nodes[i].state, q)
  }

  /** The nodes from `from` on were added by the first `k` emissions, in their order: `at` says by which. */
  ghost predicate InEmissionOrder(nodes: seq<Node>, from: nat, es: seq<Option<Transition>>, k: nat, at: seq<nat>) {
    && from <= |nodes| && |at| == |nodes| - from
    && (forall i :: 0 <= i < |at| ==> at[i] < k && EmittedAt(nodes, from + i, es, at[i]))
    && (forall i, j :: 0 <= i < j < |at| ==> at[i] < at[j])
  }

  ghost predicate Ordered(nodes: seq<Node>, from: nat, es: seq<Option<Transition>>, k: nat) {
    exists at :: InEmissionOrder(nodes, from, es, k, at)
  }

  lemma SameStatesOrdered(nodes: seq<Node>, nodes': seq<Node>, from: nat, es: seq<Option<Transition>>, k: nat)
    requires Ordered(nodes, from, es, k) && |nodes'| == |nodes| && LinksStay(nodes, nodes')
    ensures Ordered(nodes', from, es, k + 1)
  {
    var at :| InEmissionOrder(nodes, from, es, k, at);
    forall i | 0 <= i < |at| ensures at[i] < k + 1 && EmittedAt(nodes', from + i, es, at[i]) {
      assert EmittedAt(nodes, from + i, es, at[i]) && LinkStays(nodes, nodes', from + i);
    }
    assert InEmissionOrder(nodes', from, es, k + 1, at);
  }

  lemma AddedOrdered(nodes: seq<Node>, nodes': seq<Node>, from: nat, es: seq<Option<Transition>>, k: nat)
    requires Ordered(nodes, from, es, k) && |nodes'| == |nodes| + 1 && LinksStay(nodes, nodes')
    requires FirstAt(es, nodes'[|nodes|].state, k)
    ensures Ordered(nodes', from, es, k + 1)
  {
    var at :| InEmissionOrder(nodes, from, es, k, at);
    var at' := at + [k];
    forall i | 0 <= i < |at'| ensures at'[i] < k + 1 && EmittedAt(nodes', from + i, es, at'[i]) {
      if i < |at| {
        assert EmittedAt(nodes, from + i, es, at[i]) && LinkStays(nodes, nodes', from + i);
      }
    }
    assert InEmissionOrder(nodes', from, es, k + 1, at');
  }

  /** All that was emitted has a node. */
  ghost predicate AllStored(nodes: seq<Node>, es: seq<Option<Transition>>, k: nat)
    requires k <= |es|
  {
    forall q :: 0 <= q < k ==> es[q].Some? && Stored(nodes, es[q].value.state)
  }

  lemma AllStoredStays(nodes: seq<Node>, nodes': seq<Node>, es: seq<Option<Transition>>, k: nat)
    requires k < |es| && AllStored(nodes, es, k) && LinksStay(nodes, nodes')
    requires es[k].Some? && Stored(nodes', es[k].value.state)
    ensures AllStored(nodes', es, k + 1)
  {
    forall q | 0 <= q < k ensures es[q].Some? && Stored(nodes', es[q].value.state) {
      StoredStays(nodes, nodes', es[q].value.state);
    }
  }

  /** How the table stands after `k` emissions of node `a`. */
  ghost predicate Tabled(nodes0: seq<Node>, s: Search, a: nat, es: seq<Option<Transition>>, k: nat) {
    && Indexed(s) && a < |nodes0| && k <= |es| && LinksStay(nodes0, s.nodes)
    && Ordered(s.nodes, |nodes0|, es, k)
    && (s.stop.None? ==> AllStored(s.nodes, es, k))
  }

  lemma StoppedTabled(nodes0: seq<Node>, s: Search, s': Search, a: nat, es: seq<Option<Transition>>, k: nat)
    requires Tabled(nodes0, s, a, es, k) && k < |es| && s'.nodes == s.nodes && Indexed(s') && s'.stop.Some?
    ensures Tabled(nodes0, s', a, es, k + 1)
  {
    SameStatesOrdered(s.nodes, s'.nodes, |nodes0|, es, k);
  }

  lemma RelaxTabled(c: Config, nodes0: seq<Node>, s: Search, s1: Search, a: nat, es: seq<Option<Transition>>, k: nat)
      returns (s': Search)
    requires Tabled(nodes0, s, a, es, k) && s.stop.None? && k < |es| && es[k].Some?
    requires Indexed(s1) && s1.nodes == s.nodes && s1.stop.None?
    ensures s' == Relax(c, s1, a, es[k].value) && Tabled(nodes0, s', a, es, k + 1)
  {
    var t := es[k].value;
    s' := RelaxLinks(c, s1, a, t);
    LinksStayOn(nodes0, s.nodes, s'.nodes);
    if |s'.nodes| == |s.nodes| {
      SameStatesOrdered(s.nodes, s'.nodes, |nodes0|, es, k);
    } else {
      forall q | 0 <= q < k && es[q].Some? ensures es[q].value.state != t.state {
        assert Stored(s.nodes, es[q].value.state);
      }
      AddedOrdered(s.nodes, s'.nodes, |nodes0|, es, k);
    }
    if s'.stop.None? {
      AllStoredStays(s.nodes, s'.nodes, es, k);
    }
  }

  lemma EmitTabled(c: Config, nodes0: seq<Node>, s: Search, a: nat, es: seq<Option<Transition>>, k: nat)
      returns (s': Search)
    requires Tabled(nodes0, s, a, es, k) && k < |es|
    ensures s' == Emit(c, s, a, es[k]) && Tabled(nodes0, s', a, es, k + 1)
  {
    if s.stop.Some? {
      s' := s;
      StoppedTabled(nodes0, s, s', a, es, k);
    } else {
      s' := Admit(c, s, es[k]);
      if s'.stop.Some? {
        StoppedTabled(nodes0, s, s', a, es, k);
      } else {
        s' := RelaxTabled(c, nodes0, s, s', a, es, k);
      }
    }
  }

  lemma EmissionsTabled(c: Config, s: Search, a: nat, es: seq<Option<Transition>>) returns (s': Search)
    requires Indexed(s) && a < |s.nodes|
    ensures s' == Fold(Emitter(c, a), s, es, |es|) && Tabled(s.nodes, s', a, es, |es|)
  {
    var nodes0 := s.nodes;
    var P := (s1: Search, j: nat) => Tabled(nodes0, s1, a, es, j);
    assert InEmissionOrder(s.nodes, |nodes0|, es, 0, []);
    forall s1: Search, j: nat | j < |es| && P(s1, j) ensures P(Emitter(c, a)(s1, es[j]), j + 1) {
      var s2 := EmitTabled(c, nodes0, s1, a, es, j);
    }
    FoldKeeps(Emitter(c, a), s, es, |es|, P);
    s' := Fold(Emitter(c, a), s, es, |es|);
  }

  lemma ExpandTabled(c: Config, s: Search, n: nat) returns (s': Search)
    requires Indexed(s) && n < |s.nodes|
    ensures s' == Expand(c, s, n) && LinksStay(s.nodes, s'.nodes)
    ensures Ordered(s'.nodes, |s.nodes|, c.adapter.neighbors(s.nodes[n].state), |c.adapter.neighbors(s.nodes[n].state)|)
  {
    var es := c.adapter.neighbors(s.nodes[n].state);
    var s0 := Close(s, n);
    assert LinksStay(s.nodes, s0.nodes);
    s' := EmissionsTabled(c, s0, n, es);
    LinksStayOn(s.nodes, s0.nodes, s'.nodes);
    if s'.stop.None? && !c.adapter.enumerates(s.nodes[n].state) {
      s' := Halt(s', AdapterError, AdapterFailed);
    }
  }

  /** From one iteration to the next the table is extended in the order of emission, if at all. */
  ghost predicate Extends(c: Config, s: Search, s': Search) {
    && LinksStay(s.nodes, s'.nodes)
    && (s'.nodes != s.nodes ==> Pops(c, s) && ExtendsBy(s, s', c.adapter.neighbors(PoppedNode(s).state)))
  }

  ghost predicate ExtendsBy(s: Search, s': Search, es: seq<Option<Transition>>) {
    Ordered(s'.nodes, |s.nodes|, es, |es|)
  }

  lemma ExpansionExtends(c: Config, s: Search, s': Search)
    requires Indexed(s) && Pops(c, s) && LinksStay(s.nodes, s'.nodes)
    requires ExtendsBy(s, s', c.adapter.neighbors(PoppedNode(s).state))
    ensures Extends(c, s, s')
  {
  }

  lemma StillExtends(c: Config, s: Search, s': Search)
    requires s'.nodes == s.nodes
    ensures Extends(c, s, s')
  {
    assert forall i :: 0 <= i < |s.nodes| ==> LinkStays(s.nodes, s'.nodes, i);
  }

  lemma StepTabled(c: Config, s: Search) returns (s': Search)
    requires Indexed(s)
    ensures s' == Step(c, s) && Extends(c, s, s')
  {
    s' := StepExpands(c, s);
    if Expands(c, s, s') {
      var s1 := ExpandTabled(c, s.(polls := s.polls + 1), Popped(s));
      ExpansionExtends(c, s, s');
    } else {
      StillExtends(c, s, s');
    }
  }

  /**
   An iteration adds nodes in the order in which the node popped emits their states for the
   first time, and gives a node a new parent only together with a lower cost.
   */
  lemma TurnKeepsOrder(c: Config, n: nat)
    ensures Extends(c, After(c, n), After(c, n + 1))
  {
    AlwaysInv(c, n);
    var s' := StepTabled(c, After(c, n));
  }
}
