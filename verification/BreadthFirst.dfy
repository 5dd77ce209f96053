/**
 Breadth-first search runs through the priority heap, yet it is a queue: it
 expands states in exactly the order in which the reachability traversal of the
 same request lists them, for as long as it runs.
 */
module BreadthFirst {
  import opened Folds
  import opened PathGraph
  import opened SearchModel
  import opened MonotonePops
  import opened Reachability
  import opened Wrappers

  /** The open nodes are the tail of the table that has not been expanded yet. */
  ghost predicate Queue(open: set<nat>, first: nat, size: nat) {
    && first <= size
    && |open| == size - first
    && forall i: nat :: i in open <==> first <= i < size
  }

  /** Costs ascend along the table and never get more than one step ahead of `limit`. */
  ghost predicate Layered(nodes: seq<Node>, limit: nat) {
    && (forall i, j :: 0 <= i <= j < |nodes| ==> nodes[i].cost <= nodes[j].cost)
    && (forall i :: 0 <= i < |nodes| ==> nodes[i].cost <= limit)
    && (forall i :: 0 <= i < |nodes| ==> nodes[i].priority == nodes[i].cost && nodes[i].heuristic == 0)
  }

  ghost predicate SameListing(s: Search, r: Search) {
    && |s.nodes| == |r.nodes|
    && (forall i :: 0 <= i < |s.nodes| ==> s.nodes[i].state == r.nodes[i].state)
    && s.expanded == r.expanded && s.examined == r.examined && s.polls == r.polls
  }

  /** In step, during the expansion of node `a`. */
  ghost predicate InStep(s: Search, r: Search, a: nat) {
    s.stop.None? ==>
      && r.stop.None?
      && Indexed(s) && SameListing(s, r)
      && a < |s.nodes| && s.expanded == a + 1
      && Queue(s.open, a + 1, |s.nodes|)
      && Layered(s.nodes, s.nodes[a].cost + 1)
  }

  lemma FoundInStep(s: Search, r: Search, state: Word)
    requires SameListing(s, r)
    ensures Find(s.nodes, state).Some? <==> Find(r.nodes, state).Some?
  {
  }

  /** A state met again is never met more cheaply. */
  lemma RediscoverInStep(c: Config, s: Search, r: Search, a: nat, v: nat, t: Transition, g: Word)
    requires InStep(s, r, a) && s.stop.None? && v < |s.nodes| && g == s.nodes[a].cost + 1
    ensures Rediscover(c, s, a, v, t, g) == s
  {
  }

  lemma DiscoverInStep(c: Config, s: Search, r: Search, a: nat, t: Transition, g: Word) returns (s': Search, r': Search)
    requires c.options.algorithm == BreadthFirst
    requires InStep(s, r, a) && s.stop.None? && g == s.nodes[a].cost + 1
    ensures s' == Discover(c, s, a, t, g)
    ensures r' == r.(nodes := r.nodes + [Node(t.state, 0, 0, 0, t.data, Some(a), |r.nodes|, false)])
    ensures InStep(s', r', a)
  {
    s' := Discover(c, s, a, t, g);
    r' := r.(nodes := r.nodes + [Node(t.state, 0, 0, 0, t.data, Some(a), |r.nodes|, false)]);
    assert |s.nodes| !in s.open;
  }

  lemma VisitInStep(c: Config, s: Search, r: Search, a: nat, t: Transition) returns (s': Search, r': Search)
    requires c.options.algorithm == BreadthFirst
    requires InStep(s, r, a) && s.stop.None?
    ensures s' == Relax(c, s, a, t) && r' == Visit(c, r, a, t)
    ensures InStep(s', r', a)
  {
    var g := s.nodes[a].cost + 1;
    var known := Find(s.nodes, t.state);
    FoundInStep(s, r, t.state);
    r' := Visit(c, r, a, t);
    if g > UINT64_MAX {
      s' := Halt(s, CostOverflow, Overflowed);
    } else if known.Some? {
      RediscoverInStep(c, s, r, a, known.value, t, g);
      s' := s;
    } else if Crowded(c, s) {
      s' := Halt(s, LimitReached, AtLimit);
    } else {
      s', r' := DiscoverInStep(c, s, r, a, t, g);
    }
  }

  lemma EmitInStep(c: Config, s: Search, r: Search, a: nat, e: Option<Transition>)
    requires c.options.algorithm == BreadthFirst
    requires InStep(s, r, a)
    requires Indexed(s) && a < |s.nodes|
    ensures InStep(Emit(c, s, a, e), EmitVisit(c, r, a, e), a)
  {
    if s.stop.None? && Admit(c, s, e).stop.None? {
      var s', r' := VisitInStep(c, Admit(c, s, e), Admit(c, r, e), a, e.value);
    }
  }

  lemma EmissionsInStep(c: Config, s: Search, r: Search, a: nat, es: seq<Option<Transition>>)
    requires c.options.algorithm == BreadthFirst
    requires InStep(s, r, a)
    ensures InStep(Fold(Emitter(c, a), s, es, |es|), Fold(Visitor(c, a), r, es, |es|), a)
  {
    var f, g := Emitter(c, a), Visitor(c, a);
    var R := (s1: Search, r1: Search) => InStep(s1, r1, a);
    forall s1, r1, j | 0 <= j < |es| && R(s1, r1) ensures R(f(s1, es[j]), g(r1, es[j])) {
      if Indexed(s1) && a < |s1.nodes| {
        EmitInStep(c, s1, r1, a, es[j]);
      }
    }
    FoldsRelate(f, s, g, r, es, |es|, R);
  }

  /** In step, between two iterations. */
  ghost predicate Abreast(s: Search, r: Search) {
    s.stop.None? ==>
      && r.stop.None?
      && Indexed(s) && SameListing(s, r)
      && 0 < |s.nodes| && Queue(s.open, s.expanded, |s.nodes|)
      && Layered(s.nodes, s.nodes[if s.expanded == 0 then 0 else s.expanded - 1].cost + 1)
  }

  /** The heap's least node is the head of the queue. */
  lemma LeastIsFirst(s: Search, r: Search)
    requires Abreast(s, r) && s.stop.None? && s.open != {}
    ensures s.expanded < |s.nodes| && Least(s.nodes, s.open) == s.expanded
  {
    var n := Least(s.nodes, s.open);
    var q := s.expanded;
    assert q in s.open by {
      var x :| x in s.open;
    }
    assert n != q ==> Before(s.nodes[n], s.nodes[q]);
  }

  lemma CloseInStep(s: Search, r: Search)
    requires Abreast(s, r) && s.stop.None? && s.expanded < |s.nodes|
    ensures InStep(Close(s, s.expanded), r.(expanded := s.expanded + 1), s.expanded)
  {
    var a := s.expanded;
    assert a in s.open;
    assert s.nodes[if a == 0 then 0 else a - 1].cost <= s.nodes[a].cost;
  }

  /** How an expansion ends once the adapter is done. */
  ghost function Ended(c: Config, s: Search, a: nat, s1: Search): Search
    requires a < |s.nodes|
  {
    if s1.stop.None? && !c.adapter.enumerates(s.nodes[a].state) then Halt(s1, AdapterError, AdapterFailed) else s1
  }

  lemma ExpandEnds(c: Config, s: Search, a: nat, es: seq<Option<Transition>>, s1: Search) returns (s': Search)
    requires Indexed(s) && a < |s.nodes| && es == c.adapter.neighbors(s.nodes[a].state)
    requires s1 == Fold(Emitter(c, a), Close(s, a), es, |es|)
    ensures s' == Expand(c, s, a) && s' == Ended(c, s, a, s1)
  {
    s' := Expand(c, s, a);
  }

  lemma VisitEnds(c: Config, r: Search, a: nat, es: seq<Option<Transition>>, r1: Search) returns (r': Search)
    requires a == r.expanded < |r.nodes| && es == c.adapter.neighbors(r.nodes[a].state)
    requires r1 == Fold(Visitor(c, a), r.(expanded := a + 1), es, |es|)
    ensures r' == VisitAll(c, r) && r' == Ended(c, r, a, r1)
  {
    r' := VisitAll(c, r);
  }

  lemma EndedAbreast(c: Config, s: Search, r: Search, a: nat, s1: Search, r1: Search)
    requires a < |s.nodes| && a < |r.nodes| && s.nodes[a].state == r.nodes[a].state && Abreast(s1, r1)
    ensures Abreast(Ended(c, s, a, s1), Ended(c, r, a, r1))
  {
  }

  lemma ExpandAbreast(c: Config, s: Search, r: Search) returns (s': Search, r': Search)
    requires c.options.algorithm == BreadthFirst
    requires Abreast(s, r) && s.stop.None? && s.expanded < |s.nodes|
    ensures s' == Expand(c, s, s.expanded) && r' == VisitAll(c, r)
    ensures Abreast(s', r')
  {
    var a := s.expanded;
    var s0, r0 := Close(s, a), r.(expanded := a + 1);
    var es := c.adapter.neighbors(s.nodes[a].state);
    CloseInStep(s, r);
    EmissionsInStep(c, s0, r0, a, es);
    var s1, r1 := Fold(Emitter(c, a), s0, es, |es|), Fold(Visitor(c, a), r0, es, |es|);
    assert r.nodes[a].state == s.nodes[a].state;
    s' := ExpandEnds(c, s, a, es, s1);
    r' := VisitEnds(c, r, a, es, r1);
    EndedAbreast(c, s, r, a, s1, r1);
  }

  lemma ReachStepVisits(c: Config, r: Search)
    requires r.stop.None? && r.expanded < |r.nodes|
    requires !c.adapter.cancelled(r.polls) && !LimitHit(c.options.maxExpanded, r.expanded)
    ensures ReachStep(c, r) == VisitAll(c, r.(polls := r.polls + 1))
  {
  }

  lemma StepAbreast(c: Config, s: Search, r: Search) returns (s': Search, r': Search)
    requires c.options.algorithm == BreadthFirst
    requires Abreast(s, r) && Indexed(s)
    ensures s' == Step(c, s) && r' == ReachStep(c, r)
    ensures Abreast(s', r')
  {
    s' := StepExpands(c, s);
    r' := ReachStep(c, r);
    if s'.stop.None? {
      LeastIsFirst(s, r);
      ReachStepVisits(c, r);
      s', r' := ExpandAbreast(c, s.(polls := s.polls + 1), r.(polls := r.polls + 1));
    }
  }

  lemma AlwaysAbreast(c: Config, n: nat)
    requires c.options.algorithm == BreadthFirst
    ensures Abreast(After(c, n), ReachAfter(c, n))
  {
    var f, g := Stepper(c), ReachStepper(c);
    var R := (s: Search, r: Search) => Abreast(s, r);
    forall s, r | R(s, r) ensures R(f(s), g(r)) {
      if Indexed(s) {
        var s', r' := StepAbreast(c, s, r);
      }
    }
    IteratesRelate(f, Initial(c), g, ReachInitial(c), n, R);
  }

  /**
   While breadth-first search runs, it has discovered what the traversal has
   listed, in the same order, and what it pops is the next entry of that list.
   */
  lemma BreadthFirstFollowsListing(c: Config, n: nat)
    requires c.options.algorithm == BreadthFirst && After(c, n).stop.None?
    ensures ReachAfter(c, n).stop.None?
    ensures States(After(c, n).nodes) == States(ReachAfter(c, n).nodes)
    ensures Pops(c, After(c, n)) ==>
              n < |ReachAfter(c, n).nodes| && PoppedNode(After(c, n)).state == ReachAfter(c, n).nodes[n].state
  {
    AlwaysAbreast(c, n);
    ReachCounts(c, n);
    if Pops(c, After(c, n)) {
      LeastIsFirst(After(c, n), ReachAfter(c, n));
    }
  }
}
