/**
 When a cost cannot overflow: stored costs are the costs of walks that are simple up to
 the order in which states were found, so they stay below the number of reachable
 states times the dearest step.
 */
module OverflowBound {
  import opened PathGraph
  import opened Folds
  import opened SearchModel
  import opened SearchInvariant
  import opened SearchTheorems
  import opened UnhinderedSearch
  import R = Reachability
  import opened Wrappers

  /** No transition out of a reachable state costs more than `m`. */
  ghost predicate StepsWithin(c: Config, m: nat) {
    forall s: Word, t :: Reachable(c, c.start, s) && Edge(c, s, t) ==> StepCost(c, t) <= m
  }

  /** Every reachable state is one of these. */
  ghost predicate Covers(c: Config, states: set<Word>) {
    forall s: Word :: Reachable(c, c.start, s) ==> s in states
  }

  /** What `n` steps can cost. */
  function Times(n: nat, m: nat): nat {
    if n == 0 then 0 else Times(n - 1, m) + m
  }

  lemma {:induction false} TimesGrows(n: nat, k: nat, m: nat)
    requires n <= k
    ensures Times(n, m) <= Times(k, m)
    decreases k
  {
    if n < k {
      TimesGrows(n, k - 1, m);
    }
  }

  lemma {:induction false} TimesIsProduct(n: nat, m: nat)
    ensures Times(n, m) == n * m
  {
    if n > 0 {
      TimesIsProduct(n - 1, m);
      assert n * m == (n - 1) * m + m;
    }
  }

  ghost predicate NodeWithin(c: Config, node: Node, bound: nat) {
    Reachable(c, c.start, node.state) && node.cost <= bound
  }

  /** `k` found states make every stored cost that of fewer than `k` steps; more would have to overflow. */
  ghost predicate Within(c: Config, s: Search, m: nat) {
    && |s.nodes| > 0
    && (forall i :: 0 <= i < |s.nodes| ==> NodeWithin(c, s.nodes[i], Times(|s.nodes| - 1, m)))
    && (s.stop.Some? && s.stop.value.termination == Overflowed ==> Times(|s.nodes|, m) > UINT64_MAX)
  }

  lemma StepReaches(c: Config, state: Word, t: Transition)
    requires Reachable(c, c.start, state) && Edge(c, state, t)
    ensures Reachable(c, c.start, t.state)
  {
    var ts :| IsPath(c, c.start, ts) && End(c.start, ts) == state;
    PathSnoc(c, c.start, ts, t);
  }

  /** Where the bound stands while the node of a state is being expanded. */
  ghost predicate WithinAt(c: Config, s: Search, m: nat, a: nat, state: Word) {
    Indexed(s) && Within(c, s, m) && a < |s.nodes| && s.nodes[a].state == state
  }

  lemma DiscoverWithin(c: Config, s: Search, m: nat, a: nat, state: Word, t: Transition, g: Word) returns (s': Search)
    requires WithinAt(c, s, m, a, state) && s.stop.None? && Reachable(c, c.start, t.state)
    requires g <= Times(|s.nodes|, m)
    ensures s' == Discover(c, s, a, t, g) && WithinAt(c, s', m, a, state)
  {
    s' := Discover(c, s, a, t, g);
    TimesGrows(|s.nodes| - 1, |s.nodes|, m);
    forall i | 0 <= i < |s'.nodes|
      ensures NodeWithin(c, s'.nodes[i], Times(|s.nodes|, m))
    {
      assert i < |s.nodes| ==> NodeWithin(c, s.nodes[i], Times(|s.nodes| - 1, m));
    }
  }

  lemma LowerWithin(c: Config, s: Search, m: nat, a: nat, state: Word, v: nat, t: Transition, g: Word)
      returns (s': Search)
    requires WithinAt(c, s, m, a, state) && s.stop.None? && v < |s.nodes| && g < s.nodes[v].cost
    ensures s' == Lower(c, s, a, v, t, g) && WithinAt(c, s', m, a, state)
  {
    s' := Lower(c, s, a, v, t, g);
    forall i | 0 <= i < |s'.nodes|
      ensures NodeWithin(c, s'.nodes[i], Times(|s.nodes| - 1, m))
    {
      assert NodeWithin(c, s.nodes[i], Times(|s.nodes| - 1, m));
    }
  }

  lemma HaltWithin(c: Config, s: Search, m: nat, status: Status, termination: Termination)
    requires Within(c, s, m) && (termination == Overflowed ==> Times(|s.nodes|, m) > UINT64_MAX)
    ensures Within(c, Halt(s, status, termination), m)
  {
  }

  lemma RediscoverWithin(c: Config, s: Search, m: nat, a: nat, state: Word, v: nat, t: Transition, g: Word)
      returns (s': Search)
    requires WithinAt(c, s, m, a, state) && s.stop.None? && v < |s.nodes|
    ensures s' == Rediscover(c, s, a, v, t, g) && WithinAt(c, s', m, a, state)
  {
    if g >= s.nodes[v].cost {
      s' := s;
    } else if s.nodes[v].closed && LimitHit(c.options.maxFrontier, |s.open|) {
      HaltWithin(c, s, m, LimitReached, AtLimit);
      s' := Halt(s, LimitReached, AtLimit);
    } else {
      s' := LowerWithin(c, s, m, a, state, v, t, g);
    }
  }

  lemma CostWithin(c: Config, s: Search, m: nat, a: nat, state: Word, t: Transition)
    requires StepsWithin(c, m) && WithinAt(c, s, m, a, state) && Edge(c, state, t)
    ensures s.nodes[a].cost + StepCost(c, t) <= Times(|s.nodes|, m) && Reachable(c, c.start, t.state)
  {
    assert NodeWithin(c, s.nodes[a], Times(|s.nodes| - 1, m));
    StepReaches(c, state, t);
  }

  lemma RelaxWithin(c: Config, s: Search, m: nat, a: nat, state: Word, t: Transition) returns (s': Search)
    requires StepsWithin(c, m) && WithinAt(c, s, m, a, state) && s.stop.None? && Edge(c, state, t)
    ensures s' == Relax(c, s, a, t) && WithinAt(c, s', m, a, state)
  {
    CostWithin(c, s, m, a, state, t);
    var g := s.nodes[a].cost + StepCost(c, t);
    var known := Find(s.nodes, t.state);
    if g > UINT64_MAX {
      HaltWithin(c, s, m, CostOverflow, Overflowed);
      s' := Halt(s, CostOverflow, Overflowed);
    } else if known.Some? {
      s' := RediscoverWithin(c, s, m, a, state, known.value, t, g);
    } else if Crowded(c, s) {
      HaltWithin(c, s, m, LimitReached, AtLimit);
      s' := Halt(s, LimitReached, AtLimit);
    } else {
      s' := DiscoverWithin(c, s, m, a, state, t, g);
    }
  }

  lemma AdmitWithin(c: Config, s: Search, m: nat, a: nat, state: Word, e: Option<Transition>) returns (s': Search)
    requires WithinAt(c, s, m, a, state) && s.stop.None?
    ensures s' == Admit(c, s, e) && WithinAt(c, s', m, a, state) && (s'.stop.None? ==> e.Some?)
  {
    s' := Admit(c, s, e);
  }

  lemma EmitWithin(c: Config, s: Search, m: nat, a: nat, state: Word, e: Option<Transition>) returns (s': Search)
    requires StepsWithin(c, m) && WithinAt(c, s, m, a, state) && e in c.adapter.neighbors(state)
    ensures s' == Emit(c, s, a, e) && WithinAt(c, s', m, a, state)
  {
    s' := s;
    if s.stop.None? {
      s' := AdmitWithin(c, s, m, a, state, e);
      if s'.stop.None? {
        s' := RelaxWithin(c, s', m, a, state, e.value);
      }
    }
  }

  lemma EmissionsWithin(c: Config, s: Search, m: nat, a: nat, state: Word, es: seq<Option<Transition>>)
    requires StepsWithin(c, m) && WithinAt(c, s, m, a, state) && es == c.adapter.neighbors(state)
    ensures WithinAt(c, Fold(Emitter(c, a), s, es, |es|), m, a, state)
  {
    var P := (s1: Search, j: nat) => WithinAt(c, s1, m, a, state);
    forall s1: Search, j: nat | j < |es| && P(s1, j) ensures P(Emitter(c, a)(s1, es[j]), j + 1) {
      var s2 := EmitWithin(c, s1, m, a, state, es[j]);
    }
    FoldKeeps(Emitter(c, a), s, es, |es|, P);
  }

  lemma CloseWithin(c: Config, s: Search, m: nat, n: nat) returns (s': Search)
    requires Indexed(s) && s.stop.None? && Within(c, s, m) && n < |s.nodes|
    ensures s' == Close(s, n) && WithinAt(c, s', m, n, s.nodes[n].state)
  {
    s' := Close(s, n);
    forall i | 0 <= i < |s'.nodes|
      ensures NodeWithin(c, s'.nodes[i], Times(|s.nodes| - 1, m))
    {
      assert NodeWithin(c, s.nodes[i], Times(|s.nodes| - 1, m));
    }
  }

  lemma ExpandWithin(c: Config, s: Search, m: nat, n: nat) returns (s': Search)
    requires StepsWithin(c, m) && Indexed(s) && s.stop.None? && Within(c, s, m) && n < |s.nodes|
    ensures s' == Expand(c, s, n) && Within(c, s', m)
  {
    var es := c.adapter.neighbors(s.nodes[n].state);
    var closed := CloseWithin(c, s, m, n);
    EmissionsWithin(c, closed, m, n, s.nodes[n].state, es);
    s' := Fold(Emitter(c, n), closed, es, |es|);
    HaltWithin(c, s', m, AdapterError, AdapterFailed);
    if s'.stop.None? && !c.adapter.enumerates(s.nodes[n].state) {
      s' := Halt(s', AdapterError, AdapterFailed);
    }
  }

  lemma StepWithin(c: Config, s: Search, m: nat) returns (s': Search)
    requires StepsWithin(c, m) && Indexed(s) && Within(c, s, m)
    ensures s' == Step(c, s) && Within(c, s', m)
  {
    var polled := s.(polls := s.polls + 1);
    if s.stop.Some? {
      s' := s;
    } else if s.open == {} {
      s' := Halt(s, NoPath, Exhausted);
    } else if c.adapter.cancelled(s.polls) {
      s' := Halt(polled, Cancelled, WasCancelled);
    } else {
      var n := Least(s.nodes, s.open);
      if c.adapter.goal(s.nodes[n].state) {
        s' := polled.(open := s.open - {n}, stop := Some(Stop(Found, AtGoal, Some(n))));
      } else if LimitHit(c.options.maxExpanded, s.expanded) {
        s' := Halt(polled.(open := s.open - {n}), LimitReached, AtLimit);
      } else {
        s' := ExpandWithin(c, polled, m, n);
      }
    }
  }

  lemma AlwaysWithin(c: Config, m: nat, n: nat)
    requires StepsWithin(c, m)
    ensures Within(c, After(c, n), m)
  {
    var P := (s: Search) => Indexed(s) && Within(c, s, m);
    forall s | P(s) ensures P(Stepper(c)(s)) {
      var s' := StepWithin(c, s, m);
    }
    assert IsPath(c, c.start, []) && End(c.start, []) == c.start;
    IterateKeeps(Stepper(c), Initial(c), n, P);
  }

  lemma DistinctCount(nodes: seq<Node>)
    requires Distinct(nodes)
    ensures |Elements(R.States(nodes))| == |nodes|
  {
    var states := R.States(nodes);
    forall i, j | 0 <= i < j < |states| ensures states[i] != states[j] {
      assert Differ(nodes, i, j);
    }
    ElementsCount(states);
  }

  lemma SmallerSet(a: set<Word>, b: set<Word>)
    requires a <= b
    ensures |a| <= |b|
  {
    assert b == a + (b - a);
  }

  /**
   With at most |states| states within reach and no step dearer than `m`, a search can
   only overflow if |states| * m exceeds the largest cost - whatever else happens to it.
   */
  lemma OverflowNeedsRoom(c: Config, r: Result, states: set<Word>, m: nat)
    requires Outcome(c, r) && Covers(c, states) && StepsWithin(c, m)
    ensures r.termination == Overflowed ==> |states| * m > UINT64_MAX
  {
    var n: nat :| StopsWith(c, n, r);
    var s := After(c, n);
    AlwaysWithin(c, m, n);
    DistinctCount(s.nodes);
    forall state | state in Elements(R.States(s.nodes))
      ensures state in states
    {
      var i :| 0 <= i < |s.nodes| && R.States(s.nodes)[i] == state;
      assert NodeWithin(c, s.nodes[i], Times(|s.nodes| - 1, m));
    }
    SmallerSet(Elements(R.States(s.nodes)), states);
    TimesGrows(|s.nodes|, |states|, m);
    TimesIsProduct(|states|, m);
  }

  /** A search that nothing hinders, on a graph too small for overflows, decides whether a goal is reachable. */
  lemma SmallGraphDecides(c: Config, states: set<Word>, m: nat) returns (r: Result)
    requires Unhindered(c) && Covers(c, states) && StepsWithin(c, m) && |states| * m <= UINT64_MAX
    ensures Outcome(c, r) && (r.termination == AtGoal || r.termination == Exhausted)
    ensures r.termination == AtGoal <==> exists goal :: Reachable(c, c.start, goal) && c.adapter.goal(goal)
  {
    r := UnhinderedDecides(c);
    OverflowNeedsRoom(c, r, states, m);
    DecidesReachability(c, r);
  }
}
