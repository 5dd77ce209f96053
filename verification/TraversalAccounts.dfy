/**
 Why a traversal stops, and in which order it lists: legal pairs of status and termination with
 the cause of each, budgets, what every iteration comes to, and the order within the neighbours
 of one entry.
 */
module TraversalAccounts {
  import opened Folds
  import opened PathGraph
  import opened SearchModel
  import opened SearchAccounts
  import opened SearchVerdicts
  import opened SearchReports
  import opened UnhinderedSearch
  import opened Reachability
  import opened Wrappers

  /** The entries not visited yet, which is what the budget for the frontier counts. */
  function Waiting(s: Search): int {
    |s.nodes| - s.expanded
  }

  /** The pairs of status and termination of a traversal. */
  predicate LegalStop(stop: Stop) {
    || stop == Stop(Complete, Exhausted, None) || stop == Stop(LimitReached, AtLimit, None)
    || stop == Stop(Cancelled, WasCancelled, None) || stop == Stop(AdapterError, AdapterFailed, None)
  }

  /** The books of a traversal are in order. */
  ghost predicate InOrder(c: Config, s: Search) {
    && Sound(c, s, Waiting(s)) && (s.stop.Some? ==> LegalStop(s.stop.value))
    && (StoppedAs(s, Exhausted) ==> s.expanded == |s.nodes|)
  }

  /** They are while entry `a`, which is the last one visited, is enumerated. */
  ghost predicate InOrderAt(c: Config, s: Search, a: nat, state: Word) {
    InOrder(c, s) && s.expanded == a + 1 <= |s.nodes| && s.nodes[a].state == state && !StoppedAs(s, Exhausted)
  }

  // ---------------------------------------------------------------- one emission

  /** A new entry is due, but a budget does not allow it. */
  ghost predicate NoRoom(c: Config, s: Search, t: Transition) {
    && (forall i :: 0 <= i < |s.nodes| ==> s.nodes[i].state != t.state)
    && (UsedUp(c.options.maxGenerated, |s.nodes|) || UsedUp(c.options.maxFrontier, Waiting(s)))
  }

  /** The j-th emission stops the traversal; `s0` is where the emissions began. */
  ghost predicate VisitStopsAt(c: Config, s0: Search, s: Search, es: seq<Option<Transition>>, j: nat)
    requires s.stop.Some?
  {
    && j < |es| && (forall q :: 0 <= q < j ==> es[q].Some?)
    && s.polls == s0.polls + j + (if es[j].Some? then 1 else 0)
    && match s.stop.value.termination
       case AdapterFailed => es[j].None? && s.examined == s0.examined + j
       case WasCancelled => es[j].Some? && s.examined == s0.examined + j && c.adapter.cancelled(s0.polls + j)
       case AtLimit =>
         && es[j].Some? && !c.adapter.cancelled(s0.polls + j)
         && if s.examined == s0.examined + j then UsedUp(c.options.maxTransitions, s.examined)
            else s.examined == s0.examined + j + 1 && NoRoom(c, s, es[j].value)
       case _ => false
  }

  ghost predicate VisitStopsAmid(c: Config, s0: Search, s: Search, es: seq<Option<Transition>>)
    requires s.stop.Some?
  {
    exists j :: 0 <= j < |es| && VisitStopsAt(c, s0, s, es, j)
  }

  /** After `k` emissions that began in `s0`. */
  ghost predicate Visited(c: Config, s0: Search, s: Search, es: seq<Option<Transition>>, k: nat) {
    && k <= |es|
    && if s.stop.None? then
         && s.examined == s0.examined + k && s.polls == s0.polls + k
         && forall q :: 0 <= q < k ==> es[q].Some?
       else exists j :: 0 <= j < k && VisitStopsAt(c, s0, s, es, j)
  }

  lemma VisitBooks(c: Config, s: Search, a: nat, t: Transition, state: Word) returns (s': Search)
    requires InOrderAt(c, s, a, state) && s.stop.None?
    ensures s' == Visit(c, s, a, t) && InOrderAt(c, s', a, state)
    ensures s'.examined == s.examined && s'.polls == s.polls
    ensures s'.stop.Some? ==> s'.stop.value.termination == AtLimit && NoRoom(c, s', t)
  {
    if Find(s.nodes, t.state).Some? {
      s' := s;
    } else if LimitHit(c.options.maxGenerated, |s.nodes|) || LimitHit(c.options.maxFrontier, Waiting(s)) {
      s' := HaltSound(c, s, Waiting(s), LimitReached, AtLimit);
    } else {
      s' := s.(nodes := s.nodes + [Node(t.state, 0, 0, 0, t.data, Some(a), |s.nodes|, false)]);
    }
  }

  lemma AdmittedInOrder(c: Config, s: Search, a: nat, e: Option<Transition>, state: Word) returns (s': Search)
    requires InOrderAt(c, s, a, state) && s.stop.None? && e in c.adapter.neighbors(state)
    ensures s' == Admit(c, s, e) && InOrderAt(c, s', a, state) && (s'.stop.None? ==> e.Some?)
  {
    s' := AdmitSound(c, s, Waiting(s), a, e);
  }

  lemma EmitVisitBooks(
      c: Config, s0: Search, s: Search, a: nat, es: seq<Option<Transition>>, k: nat, state: Word)
      returns (s': Search)
    requires Visited(c, s0, s, es, k) && InOrderAt(c, s, a, state)
    requires k < |es| && es == c.adapter.neighbors(state)
    ensures s' == EmitVisit(c, s, a, es[k])
    ensures Visited(c, s0, s', es, k + 1) && InOrderAt(c, s', a, state)
  {
    s' := s;
    if s.stop.None? {
      assert es[k] in es;
      s' := AdmittedInOrder(c, s, a, es[k], state);
      var s1 := AdmitBooks(c, s, es[k]);
      if s'.stop.None? {
        s' := VisitBooks(c, s', a, es[k].value, state);
      }
      if s'.stop.Some? {
        assert VisitStopsAt(c, s0, s', es, k);
      }
    }
  }

  lemma VisitsBooks(c: Config, s: Search, a: nat, es: seq<Option<Transition>>, state: Word) returns (s': Search)
    requires InOrderAt(c, s, a, state) && s.stop.None? && es == c.adapter.neighbors(state)
    ensures s' == Fold(Visitor(c, a), s, es, |es|)
    ensures Visited(c, s, s', es, |es|) && InOrderAt(c, s', a, state)
  {
    var P := (s1: Search, j: nat) => Visited(c, s, s1, es, j) && InOrderAt(c, s1, a, state);
    forall s1: Search, j: nat | j < |es| && P(s1, j) ensures P(Visitor(c, a)(s1, es[j]), j + 1) {
      var s2 := EmitVisitBooks(c, s, s1, a, es, j, state);
    }
    FoldKeeps(Visitor(c, a), s, es, |es|, P);
    s' := Fold(Visitor(c, a), s, es, |es|);
  }

  // ---------------------------------------------------------------- one iteration

  /** What visiting entry `a` comes to. */
  ghost predicate VisitedEntry(c: Config, s: Search, s': Search, a: nat)
    requires a < |s.nodes|
  {
    var es := c.adapter.neighbors(s.nodes[a].state);
    && s'.expanded == a + 1
    && if s'.stop.None? then
         && s'.examined == s.examined + |es| && s'.polls == s.polls + 1 + |es|
         && c.adapter.enumerates(s.nodes[a].state) && forall q :: 0 <= q < |es| ==> es[q].Some?
       else
         || VisitStopsAmid(c, s.(polls := s.polls + 1), s', es)
         || (StoppedAs(s', AdapterFailed) && !c.adapter.enumerates(s.nodes[a].state)
             && s'.examined == s.examined + |es| && s'.polls == s.polls + 1 + |es|)
  }

  /** How an iteration goes: the checks in their order, and what each of them leads to. */
  ghost predicate GoesVisiting(c: Config, s: Search, s': Search) {
    if s.expanded >= |s.nodes| then
      StoppedAs(s', Exhausted) && s' == s.(stop := s'.stop)
    else if c.adapter.cancelled(s.polls) then
      StoppedAs(s', WasCancelled) && OnlyPolled(s, s')
    else if UsedUp(c.options.maxExpanded, s.expanded) then
      StoppedAs(s', AtLimit) && OnlyPolled(s, s')
    else
      VisitedEntry(c, s, s', s.expanded)
  }

  lemma VisitedStops(c: Config, s0: Search, s1: Search, s': Search, es: seq<Option<Transition>>)
    requires s0.examined == s1.examined && s0.polls == s1.polls && s'.stop.Some?
    requires Visited(c, s0, s', es, |es|)
    ensures VisitStopsAmid(c, s1, s', es)
  {
    var j: nat :| j < |es| && VisitStopsAt(c, s0, s', es, j);
    assert VisitStopsAt(c, s1, s', es, j);
  }

  lemma VisitAllBooks(c: Config, s: Search) returns (s': Search)
    requires InOrder(c, s) && s.stop.None? && s.expanded < |s.nodes|
    requires !c.adapter.cancelled(s.polls) && !LimitHit(c.options.maxExpanded, s.expanded)
    ensures s' == VisitAll(c, s.(polls := s.polls + 1))
    ensures InOrder(c, s') && VisitedEntry(c, s, s', s.expanded)
  {
    var a := s.expanded;
    var state := s.nodes[a].state;
    var es := c.adapter.neighbors(state);
    var polled := PollSound(c, s, Waiting(s), Cancelled);
    var s0 := polled.(expanded := a + 1);
    s' := VisitsBooks(c, s0, a, es, state);
    if s'.stop.Some? {
      VisitedStops(c, s0, s.(polls := s.polls + 1), s', es);
    } else if !c.adapter.enumerates(state) {
      assert Fails(c, s'.nodes[a].state);
      s' := HaltSound(c, s', Waiting(s'), AdapterError, AdapterFailed);
    }
  }

  lemma ReachStepBooks(c: Config, s: Search) returns (s': Search)
    requires InOrder(c, s)
    requires s.stop.None? ==> s.expanded <= |s.nodes|
    ensures s' == ReachStep(c, s) && InOrder(c, s')
    ensures s.stop.None? ==> GoesVisiting(c, s, s')
  {
    if s.stop.Some? {
      s' := s;
    } else if s.expanded >= |s.nodes| {
      s' := HaltSound(c, s, Waiting(s), Complete, Exhausted);
    } else if c.adapter.cancelled(s.polls) {
      s' := PollSound(c, s, Waiting(s), Cancelled);
    } else if LimitHit(c.options.maxExpanded, s.expanded) {
      var polled := PollSound(c, s, Waiting(s), Cancelled);
      s' := HaltSound(c, polled, Waiting(s), LimitReached, AtLimit);
    } else {
      s' := VisitAllBooks(c, s);
    }
  }

  /** At every turn of every traversal: budgets kept, no yes overlooked, every stop legal and with its cause. */
  lemma {:induction false} AlwaysInOrder(c: Config, n: nat)
    ensures InOrder(c, ReachAfter(c, n))
  {
    if n > 0 {
      AlwaysInOrder(c, n - 1);
      AlwaysReachInv(c, n - 1);
      var s' := ReachStepBooks(c, ReachAfter(c, n - 1));
    }
  }

  /** Every iteration of every traversal goes as described. */
  lemma EveryVisitGoes(c: Config, n: nat)
    requires ReachAfter(c, n).stop.None?
    ensures GoesVisiting(c, ReachAfter(c, n), ReachAfter(c, n + 1))
  {
    AlwaysInOrder(c, n);
    AlwaysReachInv(c, n);
    var s' := ReachStepBooks(c, ReachAfter(c, n));
  }

  // ---------------------------------------------------------------- what the caller sees

  /**
   Status and termination belong together: all entries were visited, a budget is used up, the
   last poll made answered yes and no poll before it, or the adapter failed on a listed state.
   */
  lemma StopHasItsCause(c: Config, n: nat, r: Listed)
    requires TraversalStopsWith(c, n, r)
    ensures match r.termination
      case Exhausted => r.status == Complete && r.expanded == r.generated
      case AtLimit => r.status == LimitReached
      case WasCancelled => r.status == Cancelled
      case AdapterFailed => r.status == AdapterError && exists state :: state in r.states && Fails(c, state)
      case _ => false
    ensures r.termination == AtLimit ==>
      || (c.options.maxExpanded != 0 && r.expanded == c.options.maxExpanded)
      || (c.options.maxTransitions != 0 && r.examined == c.options.maxTransitions)
      || (c.options.maxGenerated != 0 && r.generated == c.options.maxGenerated)
      || (c.options.maxFrontier != 0 && r.generated - r.expanded == c.options.maxFrontier)
    ensures r.termination == WasCancelled <==>
      exists p: nat :: p < ReachAfter(c, n).polls && c.adapter.cancelled(p)
    ensures forall p: nat :: p < ReachAfter(c, n).polls && c.adapter.cancelled(p) ==>
      p == ReachAfter(c, n).polls - 1
  {
    AlwaysInOrder(c, n);
    var s := ReachAfter(c, n);
    assert s.polls > 0 ==> s.polls - 1 < s.polls;
    if r.termination == AdapterFailed {
      var i :| 0 <= i < |s.nodes| && Fails(c, s.nodes[i].state);
      assert r.states[i] == s.nodes[i].state;
    }
  }

  /** No budget of a traversal is exceeded, the one for the entries not visited yet at no turn. */
  lemma TraversalBudgetsHold(c: Config, n: nat)
    ensures var s := ReachAfter(c, n);
      && (c.options.maxExpanded != 0 ==> s.expanded <= c.options.maxExpanded)
      && (c.options.maxTransitions != 0 ==> s.examined <= c.options.maxTransitions)
      && (c.options.maxGenerated != 0 ==> |s.nodes| <= c.options.maxGenerated)
      && (c.options.maxFrontier != 0 ==> |s.nodes| - s.expanded <= c.options.maxFrontier)
  {
    AlwaysInOrder(c, n);
  }

  /** Without budgets, cancellation and adapter errors a traversal is complete. */
  lemma UnhinderedCompletes(c: Config, r: Listed)
    requires Unhindered(c) && TraversalOutcome(c, r)
    ensures r.status == Complete && r.termination == Exhausted
  {
    var n :| TraversalStopsWith(c, n, r);
    StopHasItsCause(c, n, r);
    NeverFails(c);
  }

  lemma NeverFails(c: Config)
    requires Unhindered(c)
    ensures forall state: Word :: !Fails(c, state)
  {
    forall state: Word ensures !Fails(c, state) {
      var none: Option<Transition> := None;
      assert none in c.adapter.neighbors(state) ==> none.Some?;
    }
  }

  // ---------------------------------------------------------------- counters over a run

  /** How many transitions the first `n` entries listed have. */
  ghost function ListedTransitions(c: Config, nodes: seq<Node>, n: nat): nat
    requires n <= |nodes|
  {
    if n == 0 then 0
    else ListedTransitions(c, nodes, n - 1) + |c.adapter.neighbors(nodes[n - 1].state)|
  }

  lemma {:induction false} SameTransitions(c: Config, nodes: seq<Node>, nodes': seq<Node>, n: nat)
    requires n <= |nodes| && nodes <= nodes'
    ensures ListedTransitions(c, nodes, n) == ListedTransitions(c, nodes', n)
  {
    if n > 0 {
      SameTransitions(c, nodes, nodes', n - 1);
    }
  }

  /**
   A traversal that is still running after `n` iterations has visited the first n entries,
   examined all their transitions, and polled once for each entry and each transition.
   */
  lemma {:induction false} VisitedCounts(c: Config, n: nat)
    requires ReachAfter(c, n).stop.None?
    ensures var s := ReachAfter(c, n);
      && s.expanded == n <= |s.nodes|
      && s.examined == ListedTransitions(c, s.nodes, n) && s.polls == n + s.examined
  {
    if n > 0 {
      var m: nat := n - 1;
      var s, s' := ReachAfter(c, m), ReachAfter(c, n);
      assert s' == ReachStepper(c)(s);
      VisitedCounts(c, m);
      EveryVisitGoes(c, m);
      ListingGrows(c, m, n);
      SameTransitions(c, s.nodes, s'.nodes, m);
    }
  }

  // ---------------------------------------------------------------- the order of entries

  lemma VisitTabled(
      c: Config, nodes0: seq<Node>, s: Search, s1: Search, a: nat, es: seq<Option<Transition>>, k: nat)
      returns (s': Search)
    requires Tabled(nodes0, s, a, es, k) && s.stop.None? && k < |es| && es[k].Some?
    requires Indexed(s1) && s1.nodes == s.nodes && s1.stop.None?
    ensures s' == Visit(c, s1, a, es[k].value) && Tabled(nodes0, s', a, es, k + 1)
  {
    var t := es[k].value;
    s' := Visit(c, s1, a, t);
    if |s'.nodes| == |s.nodes| {
      SameStatesOrdered(s.nodes, s'.nodes, |nodes0|, es, k);
    } else {
      assert s'.nodes[|s.nodes|].state == t.state;
      forall q | 0 <= q < k && es[q].Some? ensures es[q].value.state != t.state {
        assert Stored(s.nodes, es[q].value.state);
      }
      LinksStayOn(nodes0, s.nodes, s'.nodes);
      AddedOrdered(s.nodes, s'.nodes, |nodes0|, es, k);
    }
    if s'.stop.None? {
      AllStoredStays(s.nodes, s'.nodes, es, k);
    }
  }

  lemma EmitVisitTabled(
      c: Config, nodes0: seq<Node>, s: Search, a: nat, es: seq<Option<Transition>>, k: nat) returns (s': Search)
    requires Tabled(nodes0, s, a, es, k) && k < |es|
    ensures s' == EmitVisit(c, s, a, es[k]) && Tabled(nodes0, s', a, es, k + 1)
  {
    if s.stop.Some? {
      s' := s;
      StoppedTabled(nodes0, s, s', a, es, k);
    } else {
      s' := Admit(c, s, es[k]);
      if s'.stop.Some? {
        StoppedTabled(nodes0, s, s', a, es, k);
      } else {
        s' := VisitTabled(c, nodes0, s, s', a, es, k);
      }
    }
  }

  lemma VisitsTabled(c: Config, s: Search, a: nat, es: seq<Option<Transition>>) returns (s': Search)
    requires Indexed(s) && a < |s.nodes|
    ensures s' == Fold(Visitor(c, a), s, es, |es|) && Tabled(s.nodes, s', a, es, |es|)
  {
    var nodes0 := s.nodes;
    var P := (s1: Search, j: nat) => Tabled(nodes0, s1, a, es, j);
    assert InEmissionOrder(s.nodes, |nodes0|, es, 0, []);
    forall s1: Search, j: nat | j < |es| && P(s1, j) ensures P(Visitor(c, a)(s1, es[j]), j + 1) {
      var s2 := EmitVisitTabled(c, nodes0, s1, a, es, j);
    }
    FoldKeeps(Visitor(c, a), s, es, |es|, P);
    s' := Fold(Visitor(c, a), s, es, |es|);
  }

  /** The listing is extended by the neighbours of the next entry, in the order of emission, if at all. */
  ghost predicate ListsInOrder(c: Config, s: Search, s': Search) {
    && s.nodes <= s'.nodes
    && (s'.nodes != s.nodes ==>
          s.expanded < |s.nodes| && ExtendsBy(s, s', c.adapter.neighbors(s.nodes[s.expanded].state)))
  }

  lemma VisitAllTabled(c: Config, s: Search, polled: Search) returns (s': Search)
    requires Indexed(s) && s.expanded < |s.nodes| && polled == s.(polls := s.polls + 1)
    ensures s' == VisitAll(c, polled) && Indexed(s') && ListsInOrder(c, s, s')
  {
    var a := s.expanded;
    var es := c.adapter.neighbors(s.nodes[a].state);
    s' := VisitAllGrows(c, polled);
    var s1 := VisitsTabled(c, polled.(expanded := a + 1), a, es);
    assert ExtendsBy(s, s1, es) && s'.nodes == s1.nodes;
  }

  lemma ReachStepTabled(c: Config, s: Search) returns (s': Search)
    requires Indexed(s)
    ensures s' == ReachStep(c, s) && Indexed(s') && ListsInOrder(c, s, s')
  {
    var polled := s.(polls := s.polls + 1);
    if s.stop.Some? {
      s' := s;
    } else if s.expanded >= |s.nodes| {
      s' := Halt(s, Complete, Exhausted);
    } else if c.adapter.cancelled(s.polls) {
      s' := Halt(polled, Cancelled, WasCancelled);
    } else if LimitHit(c.options.maxExpanded, s.expanded) {
      s' := Halt(polled, LimitReached, AtLimit);
    } else {
      s' := VisitAllTabled(c, s, polled);
    }
  }

  lemma {:induction false} AlwaysIndexed(c: Config, n: nat)
    ensures Indexed(ReachAfter(c, n))
  {
    if n > 0 {
      AlwaysIndexed(c, n - 1);
      var s' := ReachStepTabled(c, ReachAfter(c, n - 1));
    }
  }

  /** Every iteration appends states in the order in which the entry visited emits them for the first time. */
  lemma EveryVisitListsInOrder(c: Config, n: nat)
    ensures ListsInOrder(c, ReachAfter(c, n), ReachAfter(c, n + 1))
  {
    AlwaysIndexed(c, n);
    var s' := ReachStepTabled(c, ReachAfter(c, n));
  }
}
