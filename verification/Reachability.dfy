/**
 The reachability traversal: the same emit callback run in first-come order.  A
 completed traversal lists exactly the reachable states, each once, by
 nondecreasing hop distance; a traversal that was cut short lists a prefix of
 what an unlimited one lists.
 */
module Reachability {
  import opened Folds
  import opened PathGraph
  import opened SearchModel
  import opened SearchInvariant
  import opened SearchTermination
  import opened Wrappers

  // ---------------------------------------------------------------- the model

  /** A state not listed before is appended, within the budgets. */
  ghost function Visit(c: Config, s: Search, a: nat, t: Transition): Search {
    if Find(s.nodes, t.state).Some? then s
    else if LimitHit(c.options.maxGenerated, |s.nodes|)
            || LimitHit(c.options.maxFrontier, |s.nodes| - s.expanded) then
      Halt(s, LimitReached, AtLimit)
    else
      s.(nodes := s.nodes + [Node(t.state, 0, 0, 0, t.data, Some(a), |s.nodes|, false)])
  }

  ghost function EmitVisit(c: Config, s: Search, a: nat, e: Option<Transition>): Search {
    if s.stop.Some? then s
    else
      var s1 := Admit(c, s, e);
      if s1.stop.Some? then s1 else Visit(c, s1, a, e.value)
  }

  ghost function Visitor(c: Config, a: nat): (Search, Option<Transition>) -> Search {
    (s: Search, e) => EmitVisit(c, s, a, e)
  }

  ghost function VisitAll(c: Config, s: Search): Search
    requires s.expanded < |s.nodes|
  {
    var a := s.expanded;
    var es := c.adapter.neighbors(s.nodes[a].state);
    var s' := Fold(Visitor(c, a), s.(expanded := a + 1), es, |es|);
    if s'.stop.None? && !c.adapter.enumerates(s.nodes[a].state) then
      Halt(s', AdapterError, AdapterFailed)
    else
      s'
  }

  ghost function ReachStep(c: Config, s: Search): Search {
    if s.stop.Some? then s
    else if s.expanded >= |s.nodes| then Halt(s, Complete, Exhausted)
    else
      var polled := s.(polls := s.polls + 1);
      if c.adapter.cancelled(s.polls) then Halt(polled, Cancelled, WasCancelled)
      else if LimitHit(c.options.maxExpanded, s.expanded) then Halt(polled, LimitReached, AtLimit)
      else VisitAll(c, polled)
  }

  ghost function ReachStepper(c: Config): Search -> Search {
    (s: Search) => ReachStep(c, s)
  }

  ghost function ReachInitial(c: Config): Search {
    Search([Node(c.start, 0, 0, 0, 0, None, 0, false)], {}, 0, 0, 0, None, None)
  }

  ghost function ReachAfter(c: Config, n: nat): Search {
    Iterate(ReachStepper(c), ReachInitial(c), n)
  }

  ghost function States(nodes: seq<Node>): seq<Word> {
    seq(|nodes|, i requires 0 <= i < |nodes| => nodes[i].state)
  }

  // ---------------------------------------------------------------- invariant

  /** Entry `i` was appended while an earlier entry was being visited, along an edge. */
  ghost predicate VisitedFrom(c: Config, nodes: seq<Node>, i: nat, visited: nat)
    requires i < |nodes|
  {
    if i == 0 then nodes[i].state == c.start
    else
      && nodes[i].parent.Some?
      && nodes[i].parent.value < i && nodes[i].parent.value < visited
      && exists t :: Edge(c, nodes[nodes[i].parent.value].state, t) && t.state == nodes[i].state
  }

  /** Appended in the order of their parents. */
  ghost predicate FirstCome(nodes: seq<Node>, i: nat, j: nat)
    requires i < |nodes| && j < |nodes|
  {
    nodes[i].parent.Some? && nodes[j].parent.Some? ==> nodes[i].parent.value <= nodes[j].parent.value
  }

  /** The state is listed, and by the time entry `u` had been visited. */
  ghost predicate ListedBy(nodes: seq<Node>, state: Word, u: nat) {
    exists v :: 0 <= v < |nodes| && nodes[v].state == state
                && (nodes[v].parent.Some? ==> nodes[v].parent.value <= u)
  }

  ghost predicate VisitedAt(c: Config, nodes: seq<Node>, u: nat, j: nat)
    requires u < |nodes| && j < |c.adapter.neighbors(nodes[u].state)|
  {
    var e := c.adapter.neighbors(nodes[u].state)[j];
    e.Some? && ListedBy(nodes, e.value.state, u)
  }

  ghost predicate VisitedFirst(c: Config, nodes: seq<Node>, u: nat, k: nat)
    requires u < |nodes|
  {
    && k <= |c.adapter.neighbors(nodes[u].state)|
    && forall j :: 0 <= j < k ==> VisitedAt(c, nodes, u, j)
  }

  ghost predicate Listing(c: Config, nodes: seq<Node>, visited: nat) {
    && 0 < |nodes| && visited <= |nodes|
    && nodes[0].parent.None?
    && Distinct(nodes)
    && (forall i :: 0 <= i < |nodes| ==> VisitedFrom(c, nodes, i, visited))
    && (forall i, j :: 0 <= i < j < |nodes| ==> FirstCome(nodes, i, j))
  }

  ghost predicate Covered(c: Config, nodes: seq<Node>, u: nat)
    requires u < |nodes|
  {
    VisitedFirst(c, nodes, u, |c.adapter.neighbors(nodes[u].state)|)
  }

  /** Everything before `visited` has all its neighbours listed. */
  ghost predicate AllCovered(c: Config, nodes: seq<Node>, visited: nat)
    requires visited <= |nodes|
  {
    forall u :: 0 <= u < visited ==> Covered(c, nodes, u)
  }

  ghost predicate ReachInv(c: Config, s: Search) {
    && s.open == {} && s.best.None?
    && Listing(c, s.nodes, s.expanded)
    && (s.stop.None? ==> AllCovered(c, s.nodes, s.expanded))
    && (s.stop.Some? && s.stop.value.status == Complete ==>
          s.expanded == |s.nodes| && AllCovered(c, s.nodes, s.expanded))
  }

  /** Where a traversal stands after `k` emissions of entry `a`. */
  ghost predicate Visiting(c: Config, s: Search, a: nat, node: Node, k: nat) {
    && s.open == {} && s.best.None?
    && s.expanded == a + 1 && Listing(c, s.nodes, a + 1)
    && s.nodes[a] == node
    && (s.stop.None? ==> AllCovered(c, s.nodes, a) && VisitedFirst(c, s.nodes, a, k))
    && (s.stop.Some? ==> s.stop.value.status != Complete)
  }

  lemma ListedStays(nodes: seq<Node>, nodes': seq<Node>, state: Word, u: nat)
    requires nodes <= nodes' && ListedBy(nodes, state, u)
    ensures ListedBy(nodes', state, u)
  {
    var v :| 0 <= v < |nodes| && nodes[v].state == state
             && (nodes[v].parent.Some? ==> nodes[v].parent.value <= u);
    assert nodes'[v] == nodes[v];
  }

  lemma VisitedStays(c: Config, nodes: seq<Node>, nodes': seq<Node>, u: nat, k: nat)
    requires nodes <= nodes' && u < |nodes| && VisitedFirst(c, nodes, u, k)
    ensures VisitedFirst(c, nodes', u, k)
  {
    forall j | 0 <= j < k ensures VisitedAt(c, nodes', u, j) {
      assert VisitedAt(c, nodes, u, j);
      ListedStays(nodes, nodes', c.adapter.neighbors(nodes[u].state)[j].value.state, u);
    }
  }

  /** Appending an unlisted neighbour of the entry being visited keeps the listing sound. */
  lemma AppendKeepsListing(c: Config, nodes: seq<Node>, a: nat, t: Transition)
    requires Listing(c, nodes, a + 1) && a < |nodes| && Edge(c, nodes[a].state, t)
    requires forall i :: 0 <= i < |nodes| ==> nodes[i].state != t.state
    ensures Listing(c, nodes + [Node(t.state, 0, 0, 0, t.data, Some(a), |nodes|, false)], a + 1)
  {
    var nodes' := nodes + [Node(t.state, 0, 0, 0, t.data, Some(a), |nodes|, false)];
    var visited := a + 1;
    forall i | 0 <= i < |nodes'| ensures VisitedFrom(c, nodes', i, visited) {
      if i < |nodes| {
        assert VisitedFrom(c, nodes, i, visited);
      }
    }
    forall i, j | 0 <= i < j < |nodes'| ensures Differ(nodes', i, j) && FirstCome(nodes', i, j) {
      assert VisitedFrom(c, nodes, i, visited);
      if j < |nodes| {
        assert Differ(nodes, i, j) && FirstCome(nodes, i, j);
      }
    }
  }

  lemma VisitKeeps(c: Config, s: Search, a: nat, node: Node, k: nat, t: Transition) returns (s': Search)
    requires Visiting(c, s, a, node, k) && s.stop.None?
    requires k < |c.adapter.neighbors(node.state)| && Some(t) == c.adapter.neighbors(node.state)[k]
    ensures s' == Visit(c, s, a, t)
    ensures Visiting(c, s', a, node, k + 1)
  {
    s' := Visit(c, s, a, t);
    if s'.stop.None? {
      match Find(s.nodes, t.state) {
        case Some(v) =>
          assert VisitedFrom(c, s.nodes, v, a + 1);
          assert ListedBy(s'.nodes, t.state, a);
        case None =>
          AppendKeepsListing(c, s.nodes, a, t);
          assert s'.nodes[|s.nodes|].state == t.state;
          assert ListedBy(s'.nodes, t.state, a);
      }
      VisitedStays(c, s.nodes, s'.nodes, a, k);
      assert VisitedAt(c, s'.nodes, a, k);
      forall u | 0 <= u < a ensures Covered(c, s'.nodes, u) {
        assert Covered(c, s.nodes, u);
        VisitedStays(c, s.nodes, s'.nodes, u, |c.adapter.neighbors(s.nodes[u].state)|);
      }
    }
  }

  lemma EmitVisitKeeps(c: Config, s: Search, a: nat, node: Node, k: nat, e: Option<Transition>) returns (s': Search)
    requires Visiting(c, s, a, node, k)
    requires k < |c.adapter.neighbors(node.state)| && e == c.adapter.neighbors(node.state)[k]
    ensures s' == EmitVisit(c, s, a, e)
    ensures Visiting(c, s', a, node, k + 1)
  {
    s' := s;
    if s.stop.None? {
      s' := Admit(c, s, e);
      if s'.stop.None? {
        s' := VisitKeeps(c, s', a, node, k, e.value);
      }
    }
  }

  lemma VisitsKeep(c: Config, s: Search, a: nat, node: Node, es: seq<Option<Transition>>) returns (s': Search)
    requires Visiting(c, s, a, node, 0) && es == c.adapter.neighbors(node.state)
    ensures s' == Fold(Visitor(c, a), s, es, |es|)
    ensures Visiting(c, s', a, node, |es|)
  {
    var f := Visitor(c, a);
    var P := (s1: Search, j: nat) => Visiting(c, s1, a, node, j);
    forall s1, j | 0 <= j < |es| && P(s1, j) ensures P(f(s1, es[j]), j + 1) {
      var s2 := EmitVisitKeeps(c, s1, a, node, j, es[j]);
    }
    FoldKeeps(f, s, es, |es|, P);
    s' := Fold(f, s, es, |es|);
  }

  lemma ListingVisited(c: Config, nodes: seq<Node>, visited: nat, visited': nat)
    requires Listing(c, nodes, visited) && visited <= visited' <= |nodes|
    ensures Listing(c, nodes, visited')
  {
    forall i | 0 <= i < |nodes| ensures VisitedFrom(c, nodes, i, visited') {
      assert VisitedFrom(c, nodes, i, visited);
    }
  }

  /** All emissions of entry `a` are visited. */
  lemma VisitedKeeps(c: Config, s: Search, a: nat, node: Node)
    requires Visiting(c, s, a, node, |c.adapter.neighbors(node.state)|)
    ensures ReachInv(c, s)
  {
    if s.stop.None? {
      assert Covered(c, s.nodes, a);
    }
  }

  lemma FailedKeeps(c: Config, s: Search)
    requires ReachInv(c, s)
    ensures ReachInv(c, Halt(s, AdapterError, AdapterFailed))
  {
  }

  lemma VisitAllKeeps(c: Config, s: Search) returns (s': Search)
    requires s.stop.None? && s.expanded < |s.nodes| && ReachInv(c, s)
    ensures s' == VisitAll(c, s)
    ensures ReachInv(c, s') && s'.expanded == s.expanded + 1
  {
    var a := s.expanded;
    var node := s.nodes[a];
    var es := c.adapter.neighbors(node.state);
    ListingVisited(c, s.nodes, a, a + 1);
    s' := VisitsKeep(c, s.(expanded := a + 1), a, node, es);
    VisitedKeeps(c, s', a, node);
    if s'.stop.None? && !c.adapter.enumerates(node.state) {
      FailedKeeps(c, s');
      s' := Halt(s', AdapterError, AdapterFailed);
    }
  }

  lemma ReachStepKeeps(c: Config, s: Search) returns (s': Search)
    requires ReachInv(c, s)
    ensures s' == ReachStep(c, s)
    ensures ReachInv(c, s')
    ensures s'.stop.None? ==> s.stop.None? && s'.expanded == s.expanded + 1
  {
    var polled := s.(polls := s.polls + 1);
    if s.stop.Some? {
      s' := s;
    } else if s.expanded >= |s.nodes| {
      s' := Halt(s, Complete, Exhausted);
    } else if c.adapter.cancelled(s.polls) {
      s' := Halt(polled, Cancelled, WasCancelled);
    } else if LimitHit(c.options.maxExpanded, s.expanded) {
      s' := Halt(polled, LimitReached, AtLimit);
    } else {
      s' := VisitAllKeeps(c, polled);
    }
  }

  lemma AlwaysReachInv(c: Config, n: nat)
    ensures ReachInv(c, ReachAfter(c, n))
  {
    var P := (s: Search) => ReachInv(c, s);
    forall s | P(s) ensures P(ReachStepper(c)(s)) {
      var s' := ReachStepKeeps(c, s);
    }
    IterateKeeps(ReachStepper(c), ReachInitial(c), n, P);
  }

  /** Each iteration of a traversal that goes on visits one entry. */
  lemma {:induction false} ReachCounts(c: Config, n: nat)
    requires ReachAfter(c, n).stop.None?
    ensures ReachAfter(c, n).expanded == n
  {
    if n > 0 {
      AlwaysReachInv(c, n - 1);
      var s' := ReachStepKeeps(c, ReachAfter(c, n - 1));
      ReachCounts(c, n - 1);
    }
  }

  // ---------------------------------------------------------------- what a listing means

  /** Hops from the start along the recorded parents. */
  ghost function Hops(c: Config, nodes: seq<Node>, i: nat, visited: nat): nat
    requires Listing(c, nodes, visited) && i < |nodes|
  {
    assert VisitedFrom(c, nodes, i, visited);
    if i == 0 then 0 else 1 + Hops(c, nodes, nodes[i].parent.value, visited)
  }

  /** `d` is the least number of transitions from the start to `to`. */
  ghost predicate IsDistance(c: Config, to: Word, d: nat) {
    && (exists ts :: IsPath(c, c.start, ts) && End(c.start, ts) == to && |ts| == d)
    && forall ts :: IsPath(c, c.start, ts) && End(c.start, ts) == to ==> d <= |ts|
  }

  lemma {:induction false} HopsAscend(c: Config, nodes: seq<Node>, i: nat, j: nat, visited: nat)
    requires Listing(c, nodes, visited) && i <= j < |nodes|
    ensures Hops(c, nodes, i, visited) <= Hops(c, nodes, j, visited)
    decreases j
  {
    if 0 < i < j {
      assert VisitedFrom(c, nodes, i, visited) && VisitedFrom(c, nodes, j, visited) && FirstCome(nodes, i, j);
      HopsAscend(c, nodes, nodes[i].parent.value, nodes[j].parent.value, visited);
    }
  }

  lemma {:induction false} HopsPath(c: Config, nodes: seq<Node>, i: nat, visited: nat) returns (ts: seq<Transition>)
    requires Listing(c, nodes, visited) && i < |nodes|
    ensures IsPath(c, c.start, ts) && End(c.start, ts) == nodes[i].state && |ts| == Hops(c, nodes, i, visited)
  {
    assert VisitedFrom(c, nodes, i, visited);
    if i == 0 {
      ts := [];
    } else {
      var p := nodes[i].parent.value;
      var front := HopsPath(c, nodes, p, visited);
      var t :| Edge(c, nodes[p].state, t) && t.state == nodes[i].state;
      PathSnoc(c, c.start, front, t);
      ts := front + [t];
    }
  }

  /** In a complete listing no path is shorter than the hops of the entry it leads to. */
  lemma {:induction false} HopsLeast(c: Config, nodes: seq<Node>, ts: seq<Transition>) returns (v: nat)
    requires Listing(c, nodes, |nodes|) && AllCovered(c, nodes, |nodes|)
    requires IsPath(c, c.start, ts)
    ensures v < |nodes| && nodes[v].state == End(c.start, ts)
    ensures Hops(c, nodes, v, |nodes|) <= |ts|
    decreases |ts|
  {
    if ts == [] {
      assert VisitedFrom(c, nodes, 0, |nodes|);
      v := 0;
    } else {
      var k := |ts| - 1;
      PathUnsnoc(c, c.start, ts);
      var u := HopsLeast(c, nodes, ts[..k]);
      assert Covered(c, nodes, u);
      var es := c.adapter.neighbors(nodes[u].state);
      var j :| 0 <= j < |es| && es[j] == Some(ts[k]);
      assert VisitedAt(c, nodes, u, j);
      v :| 0 <= v < |nodes| && nodes[v].state == ts[k].state
           && (nodes[v].parent.Some? ==> nodes[v].parent.value <= u);
      assert VisitedFrom(c, nodes, v, |nodes|);
      if v != 0 {
        HopsAscend(c, nodes, nodes[v].parent.value, u, |nodes|);
      }
    }
  }

  /** A completed traversal. */
  ghost predicate Completes(c: Config, n: nat) {
    ReachAfter(c, n).stop == Some(Stop(Complete, Exhausted, None))
  }

  /** Complete listings contain exactly the reachable states, each once. */
  lemma CompleteListsReachable(c: Config, n: nat)
    requires Completes(c, n)
    ensures var states := States(ReachAfter(c, n).nodes);
      && (forall state: Word :: state in states <==> Reachable(c, c.start, state))
      && NoRepeats(states)
  {
    AlwaysReachInv(c, n);
    var nodes := ReachAfter(c, n).nodes;
    var states := States(nodes);
    forall state: Word ensures state in states <==> Reachable(c, c.start, state) {
      if state in states {
        var i :| 0 <= i < |states| && states[i] == state;
        var ts := HopsPath(c, nodes, i, |nodes|);
      }
      if Reachable(c, c.start, state) {
        var ts :| IsPath(c, c.start, ts) && End(c.start, ts) == state;
        var v := HopsLeast(c, nodes, ts);
        assert states[v] == state;
      }
    }
    forall i, j | 0 <= i < j < |states| ensures states[i] != states[j] {
      assert Differ(nodes, i, j);
    }
  }

  /** Complete listings are ordered by hop distance from the start. */
  lemma CompleteListsByDistance(c: Config, n: nat, i: nat, j: nat) returns (d: nat, e: nat)
    requires Completes(c, n) && i <= j < |ReachAfter(c, n).nodes|
    ensures IsDistance(c, ReachAfter(c, n).nodes[i].state, d)
    ensures IsDistance(c, ReachAfter(c, n).nodes[j].state, e)
    ensures d <= e
  {
    AlwaysReachInv(c, n);
    var nodes := ReachAfter(c, n).nodes;
    d := HopsAreDistance(c, nodes, i);
    e := HopsAreDistance(c, nodes, j);
    HopsAscend(c, nodes, i, j, |nodes|);
  }

  lemma HopsAreDistance(c: Config, nodes: seq<Node>, i: nat) returns (d: nat)
    requires Listing(c, nodes, |nodes|) && AllCovered(c, nodes, |nodes|) && i < |nodes|
    ensures d == Hops(c, nodes, i, |nodes|)
    ensures IsDistance(c, nodes[i].state, d)
  {
    d := Hops(c, nodes, i, |nodes|);
    var ts := HopsPath(c, nodes, i, |nodes|);
    forall us | IsPath(c, c.start, us) && End(c.start, us) == nodes[i].state
      ensures d <= |us|
    {
      var v := HopsLeast(c, nodes, us);
      assert v < i ==> Differ(nodes, v, i);
      assert i < v ==> Differ(nodes, i, v);
    }
  }

  // ---------------------------------------------------------------- prefixes

  /** The same request without budgets and never cancelled. */
  function Unlimited(c: Config): Config {
    c.(options := c.options.(maxExpanded := 0, maxGenerated := 0, maxTransitions := 0, maxFrontier := 0),
       adapter := c.adapter.(cancelled := (n: nat) => false))
  }

  /** As long as the limited traversal runs, both have done the same; later it lists a prefix. */
  ghost predicate Trails(s: Search, u: Search) {
    && s.nodes <= u.nodes
    && (s.stop.None? ==> u.stop.None? && s.nodes == u.nodes && s.expanded == u.expanded)
  }

  lemma EmitVisitTrails(c: Config, s: Search, u: Search, a: nat, e: Option<Transition>)
    requires Trails(s, u)
    ensures Trails(EmitVisit(c, s, a, e), EmitVisit(Unlimited(c), u, a, e))
  {
  }

  lemma VisitsTrail(c: Config, s: Search, u: Search, a: nat, es: seq<Option<Transition>>)
    requires Trails(s, u)
    ensures Trails(Fold(Visitor(c, a), s, es, |es|), Fold(Visitor(Unlimited(c), a), u, es, |es|))
  {
    var f, g := Visitor(c, a), Visitor(Unlimited(c), a);
    var R := (s1: Search, u1: Search) => Trails(s1, u1);
    forall s1, u1, j | 0 <= j < |es| && R(s1, u1) ensures R(f(s1, es[j]), g(u1, es[j])) {
      EmitVisitTrails(c, s1, u1, a, es[j]);
    }
    FoldsRelate(f, s, g, u, es, |es|, R);
  }

  lemma VisitAllTrails(c: Config, s: Search, u: Search) returns (s': Search, u': Search)
    requires Trails(s, u) && s.stop.None? && s.expanded < |s.nodes|
    ensures s' == VisitAll(c, s) && u' == VisitAll(Unlimited(c), u)
    ensures Trails(s', u')
  {
    var a := s.expanded;
    VisitsTrail(c, s.(expanded := a + 1), u.(expanded := a + 1), a, c.adapter.neighbors(s.nodes[a].state));
    s', u' := VisitAll(c, s), VisitAll(Unlimited(c), u);
  }

  lemma EmitVisitGrows(c: Config, u: Search, a: nat, e: Option<Transition>)
    ensures u.nodes <= EmitVisit(c, u, a, e).nodes
  {
  }

  lemma VisitsGrow(c: Config, u: Search, a: nat, es: seq<Option<Transition>>)
    ensures u.nodes <= Fold(Visitor(c, a), u, es, |es|).nodes
  {
    var f := Visitor(c, a);
    var P := (u1: Search, j: nat) => u.nodes <= u1.nodes;
    forall u1: Search, j: nat | j < |es| && P(u1, j) ensures P(f(u1, es[j]), j + 1) {
      EmitVisitGrows(c, u1, a, es[j]);
    }
    FoldKeeps(f, u, es, |es|, P);
  }

  lemma VisitAllGrows(c: Config, u: Search) returns (u': Search)
    requires u.expanded < |u.nodes|
    ensures u' == VisitAll(c, u) && u.nodes <= u'.nodes
  {
    var a := u.expanded;
    VisitsGrow(c, u.(expanded := a + 1), a, c.adapter.neighbors(u.nodes[a].state));
    u' := VisitAll(c, u);
  }

  lemma ReachStepGrows(c: Config, u: Search) returns (u': Search)
    ensures u' == ReachStep(c, u) && u.nodes <= u'.nodes
  {
    u' := ReachStep(c, u);
    if u.stop.None? && u.expanded < |u.nodes| {
      var u1 := VisitAllGrows(c, u.(polls := u.polls + 1));
    }
  }

  lemma ReachStepTrails(c: Config, s: Search, u: Search)
    requires Trails(s, u)
    ensures Trails(ReachStep(c, s), ReachStep(Unlimited(c), u))
  {
    var u' := ReachStepGrows(Unlimited(c), u);
    if s.stop.None? && s.expanded < |s.nodes|
       && !c.adapter.cancelled(s.polls) && !LimitHit(c.options.maxExpanded, s.expanded) {
      var s2, u2 := VisitAllTrails(c, s.(polls := s.polls + 1), u.(polls := u.polls + 1));
    }
  }

  /**
   Whatever stops a traversal, and whenever, it has listed a prefix of what the
   unlimited traversal has listed after as many iterations or more.
   */
  lemma StoppedListsPrefix(c: Config, n: nat, m: nat)
    requires n <= m
    ensures ReachAfter(c, n).nodes <= ReachAfter(Unlimited(c), m).nodes
  {
    var R := (s: Search, u: Search) => Trails(s, u);
    var f, g := ReachStepper(c), ReachStepper(Unlimited(c));
    forall s, u | R(s, u) ensures R(f(s), g(u)) {
      ReachStepTrails(c, s, u);
    }
    IteratesRelate(f, ReachInitial(c), g, ReachInitial(Unlimited(c)), n, R);
    ListingGrows(Unlimited(c), n, m);
  }

  lemma {:induction false} ListingGrows(c: Config, n: nat, m: nat)
    requires n <= m
    ensures ReachAfter(c, n).nodes <= ReachAfter(c, m).nodes
    decreases m
  {
    if n < m {
      ListingGrows(c, n, m - 1);
      var u' := ReachStepGrows(c, ReachAfter(c, m - 1));
    }
  }

  // ---------------------------------------------------------------- outcomes

  /** What the caller of a traversal receives. */
  datatype Listed = Listed(
    status: Status, termination: Termination, states: seq<Word>, expanded: nat, generated: nat, examined: nat)

  ghost function Summary(s: Search): Listed
    requires s.stop.Some?
  {
    Listed(s.stop.value.status, s.stop.value.termination, States(s.nodes), s.expanded, |s.nodes|, s.examined)
  }

  ghost predicate TraversalStopsWith(c: Config, n: nat, r: Listed) {
    ReachAfter(c, n).stop.Some? && r == Summary(ReachAfter(c, n))
  }

  /** `r` is the outcome of the traversal `c`. */
  ghost predicate TraversalOutcome(c: Config, r: Listed) {
    exists n :: TraversalStopsWith(c, n, r)
  }

  /** A traversal visits each of at most 2^64 states once, so it ends. */
  lemma EveryTraversalEnds(c: Config)
    ensures exists r :: TraversalOutcome(c, r)
  {
    var n := UINT64_MAX + 2;
    var s := ReachAfter(c, n);
    AlwaysReachInv(c, n);
    NodesBounded(s.nodes);
    if s.stop.None? {
      ReachCounts(c, n);
    }
    var r := Summary(s);
    assert TraversalStopsWith(c, n, r);
    assert TraversalOutcome(c, r);
  }
}
