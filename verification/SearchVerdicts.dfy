/**
 What one iteration of the main loop comes to, in terms of what can be seen from outside:
 which check decides, how far the counters advance, and at which emission the search stops.
 */
module SearchVerdicts {
  import opened Folds
  import opened PathGraph
  import opened SearchModel
  import opened SearchInvariant
  import opened SearchTheorems
  import opened MonotonePops
  import opened SearchAccounts
  import opened Wrappers

  /** The transition would need a new node, or a place on the frontier, that the budgets do not allow. */
  ghost predicate Obstructed(c: Config, s: Search, a: nat, t: Transition)
    requires a < |s.nodes|
  {
    || ((forall i :: 0 <= i < |s.nodes| ==> s.nodes[i].state != t.state)
        && (UsedUp(c.options.maxGenerated, |s.nodes|) || UsedUp(c.options.maxFrontier, |s.open|)))
    || exists v :: 0 <= v < |s.nodes| && Reopens(c, s, a, t, v) && UsedUp(c.options.maxFrontier, |s.open|)
  }

  /** The transition leads to a closed node at less than its cost. */
  predicate Reopens(c: Config, s: Search, a: nat, t: Transition, v: nat)
    requires a < |s.nodes| && v < |s.nodes|
  {
    s.nodes[v].state == t.state && s.nodes[v].closed && s.nodes[a].cost + StepCost(c, t) < s.nodes[v].cost
  }

  /** The j-th emission of node `a` stops the search; `s0` is where the emissions began. */
  ghost predicate StopsAt(c: Config, s0: Search, s: Search, a: nat, es: seq<Option<Transition>>, j: nat)
    requires s.stop.Some? && a < |s.nodes|
  {
    && j < |es| && (forall q :: 0 <= q < j ==> es[q].Some?)
    && s.polls == s0.polls + j + (if es[j].Some? then 1 else 0)
    && match s.stop.value.termination
       case AdapterFailed => es[j].None? && s.examined == s0.examined + j
       case WasCancelled => es[j].Some? && s.examined == s0.examined + j && c.adapter.cancelled(s0.polls + j)
       case Overflowed => es[j].Some? && s.examined == s0.examined + j + 1 && TooDear(c, s.nodes[a], es[j].value)
       case AtLimit =>
         && es[j].Some? && !c.adapter.cancelled(s0.polls + j)
         && if s.examined == s0.examined + j then UsedUp(c.options.maxTransitions, s.examined)
            else s.examined == s0.examined + j + 1 && Obstructed(c, s, a, es[j].value)
       case _ => false
  }

  ghost predicate StopsAmid(c: Config, s0: Search, s: Search, a: nat, es: seq<Option<Transition>>)
    requires s.stop.Some? && a < |s.nodes|
  {
    exists j :: 0 <= j < |es| && StopsAt(c, s0, s, a, es, j)
  }

  /** After `k` emissions of node `a`. */
  ghost predicate Emitted(c: Config, s0: Search, s: Search, a: nat, es: seq<Option<Transition>>, k: nat) {
    && Indexed(s) && Sound(c, s, |s.open|) && a < |s.nodes| && a < |s0.nodes| && k <= |es|
    && s.expanded == s0.expanded
    && if s.stop.None? then
         && s.examined == s0.examined + k && s.polls == s0.polls + k
         && s.nodes[a].cost == s0.nodes[a].cost
         && forall q :: 0 <= q < k ==> es[q].Some? && !TooDear(c, s0.nodes[a], es[q].value)
       else exists j :: 0 <= j < k && StopsAt(c, s0, s, a, es, j)
  }

  /** What relaxing does to the books: nothing, unless it stops for a reason that names the transition. */
  ghost predicate RelaxedBooks(c: Config, s: Search, s': Search, a: nat, t: Transition)
    requires a < |s.nodes|
  {
    && s'.examined == s.examined && s'.polls == s.polls && s'.expanded == s.expanded && a < |s'.nodes|
    && (s'.stop.None? ==> !TooDear(c, s.nodes[a], t) && s'.nodes[a].cost == s.nodes[a].cost)
    && (s'.stop.Some? ==>
          || (s'.stop.value.termination == Overflowed && TooDear(c, s'.nodes[a], t))
          || (s'.stop.value.termination == AtLimit && Obstructed(c, s', a, t)))
  }

  lemma RediscoverBooks(c: Config, s: Search, a: nat, v: nat, t: Transition, g: Word) returns (s': Search)
    requires Indexed(s) && Sound(c, s, |s.open|) && s.stop.None? && a < |s.nodes| && v < |s.nodes|
    requires s.nodes[v].state == t.state && g == s.nodes[a].cost + StepCost(c, t)
    ensures s' == Rediscover(c, s, a, v, t, g) && RelaxedBooks(c, s, s', a, t)
  {
    if g >= s.nodes[v].cost {
      s' := s;
    } else if s.nodes[v].closed && LimitHit(c.options.maxFrontier, |s.open|) {
      s' := Halt(s, LimitReached, AtLimit);
      assert Reopens(c, s', a, t, v);
    } else {
      s' := Lower(c, s, a, v, t, g);
      assert s'.nodes[a] == s.nodes[a] && s'.stop.None?;
    }
  }

  lemma DiscoverBooks(c: Config, s: Search, a: nat, t: Transition, g: Word) returns (s': Search)
    requires Indexed(s) && s.stop.None? && a < |s.nodes| && g == s.nodes[a].cost + StepCost(c, t)
    ensures s' == Discover(c, s, a, t, g) && RelaxedBooks(c, s, s', a, t)
  {
    s' := Discover(c, s, a, t, g);
  }

  lemma RelaxBooks(c: Config, s: Search, a: nat, t: Transition) returns (s': Search)
    requires Indexed(s) && Sound(c, s, |s.open|) && s.stop.None? && a < |s.nodes|
    ensures s' == Relax(c, s, a, t) && RelaxedBooks(c, s, s', a, t)
  {
    var g := s.nodes[a].cost + StepCost(c, t);
    var known := Find(s.nodes, t.state);
    if g > UINT64_MAX {
      s' := Halt(s, CostOverflow, Overflowed);
    } else if known.Some? {
      s' := RediscoverBooks(c, s, a, known.value, t, g);
    } else if Crowded(c, s) {
      s' := Halt(s, LimitReached, AtLimit);
    } else {
      s' := DiscoverBooks(c, s, a, t, g);
    }
  }

  /** What admitting an emission does to the books. */
  lemma AdmitBooks(c: Config, s: Search, e: Option<Transition>) returns (s': Search)
    requires s.stop.None? && Within(c.options.maxTransitions, s.examined)
    ensures s' == Admit(c, s, e) && s'.nodes == s.nodes && s'.open == s.open && s'.expanded == s.expanded
    ensures s'.polls == s.polls + if e.Some? then 1 else 0
    ensures e.None? <==> StoppedAs(s', AdapterFailed)
    ensures e.Some? && c.adapter.cancelled(s.polls) <==> StoppedAs(s', WasCancelled)
    ensures e.Some? && !c.adapter.cancelled(s.polls) && UsedUp(c.options.maxTransitions, s.examined)
            <==> StoppedAs(s', AtLimit)
    ensures s'.stop.Some? ==> s'.stop.value.termination in {AdapterFailed, WasCancelled, AtLimit}
    ensures s'.examined == s.examined + if s'.stop.None? then 1 else 0
  {
    s' := Admit(c, s, e);
  }

  lemma EmitBooks(c: Config, s0: Search, s: Search, a: nat, es: seq<Option<Transition>>, k: nat, state: Word)
      returns (s': Search)
    requires Emitted(c, s0, s, a, es, k) && k < |es| && es == c.adapter.neighbors(state)
    requires s.nodes[a].state == state
    ensures s' == Emit(c, s, a, es[k]) && Emitted(c, s0, s', a, es, k + 1) && s'.nodes[a].state == state
  {
    assert es[k] in es;
    s' := EmitSound(c, s, a, es[k], state);
    if s.stop.None? {
      var s1 := AdmitBooks(c, s, es[k]);
      if s1.stop.Some? {
        assert StopsAt(c, s0, s', a, es, k);
      } else {
        AdmittedSound(c, s, a, es[k]);
        var s2 := RelaxBooks(c, s1, a, es[k].value);
        if s'.stop.Some? {
          assert StopsAt(c, s0, s', a, es, k);
        }
      }
    }
  }

  lemma AdmittedSound(c: Config, s: Search, a: nat, e: Option<Transition>)
    requires Indexed(s) && Sound(c, s, |s.open|) && s.stop.None? && a < |s.nodes|
    requires e in c.adapter.neighbors(s.nodes[a].state)
    ensures Sound(c, Admit(c, s, e), |Admit(c, s, e).open|)
  {
    var s1 := AdmitSound(c, s, |s.open|, a, e);
  }

  lemma EmissionsBooks(c: Config, s: Search, a: nat, es: seq<Option<Transition>>) returns (s': Search)
    requires Indexed(s) && Sound(c, s, |s.open|) && s.stop.None? && a < |s.nodes|
    requires es == c.adapter.neighbors(s.nodes[a].state)
    ensures s' == Fold(Emitter(c, a), s, es, |es|) && Emitted(c, s, s', a, es, |es|)
  {
    var state := s.nodes[a].state;
    var P := (s1: Search, j: nat) => Emitted(c, s, s1, a, es, j) && s1.nodes[a].state == state;
    forall s1: Search, j: nat | j < |es| && P(s1, j) ensures P(Emitter(c, a)(s1, es[j]), j + 1) {
      var s2 := EmitBooks(c, s, s1, a, es, j, state);
    }
    FoldKeeps(Emitter(c, a), s, es, |es|, P);
    s' := Fold(Emitter(c, a), s, es, |es|);
  }

  // ---------------------------------------------------------------- one iteration

  /** The counters after the poll of an iteration that does not expand. */
  predicate OnlyPolled(s: Search, s': Search) {
    && s'.nodes == s.nodes && s'.expanded == s.expanded && s'.examined == s.examined && s'.polls == s.polls + 1
  }

  /** What the expansion of the least open node comes to. */
  ghost predicate Expanded(c: Config, s: Search, s': Search, n: nat)
    requires n < |s.nodes|
  {
    var es := c.adapter.neighbors(s.nodes[n].state);
    && s'.expanded == s.expanded + 1 && n < |s'.nodes|
    && if s'.stop.None? then
         && s'.examined == s.examined + |es| && s'.polls == s.polls + 1 + |es|
         && c.adapter.enumerates(s.nodes[n].state)
         && forall q :: 0 <= q < |es| ==> es[q].Some? && !TooDear(c, s.nodes[n], es[q].value)
       else
         || StopsAmid(c, s.(polls := s.polls + 1), s', n, es)
         || (StoppedAs(s', AdapterFailed) && !c.adapter.enumerates(s.nodes[n].state)
             && s'.examined == s.examined + |es| && s'.polls == s.polls + 1 + |es|)
  }

  /** How an iteration goes: the checks in their order, and what each of them leads to. */
  ghost predicate Goes(c: Config, s: Search, s': Search)
    requires Indexed(s) && s.stop.None?
  {
    if s.open == {} then
      StoppedAs(s', Exhausted) && s' == s.(stop := s'.stop)
    else if c.adapter.cancelled(s.polls) then
      StoppedAs(s', WasCancelled) && OnlyPolled(s, s')
    else if c.adapter.goal(PoppedNode(s).state) then
      StoppedAs(s', AtGoal) && s'.stop.value.node == Some(Popped(s)) && OnlyPolled(s, s')
    else if UsedUp(c.options.maxExpanded, s.expanded) then
      StoppedAs(s', AtLimit) && OnlyPolled(s, s')
    else
      Expanded(c, s, s', Popped(s))
  }

  lemma ExpandBooks(c: Config, s: Search, n: nat) returns (s': Search)
    requires Indexed(s) && Sound(c, s, |s.open|) && s.stop.None? && n < |s.nodes|
    requires !LimitHit(c.options.maxExpanded, s.expanded) && !c.adapter.cancelled(s.polls)
    ensures s' == Expand(c, s.(polls := s.polls + 1), n) && Expanded(c, s, s', n)
  {
    var polled := PollSound(c, s, |s.open|, Cancelled);
    var state := s.nodes[n].state;
    var s0 := CloseSound(c, polled, n);
    s' := EmissionsBooks(c, s0, n, c.adapter.neighbors(state));
    if s'.stop.Some? {
      ClosedBooks(c, polled, s0, s', n, c.adapter.neighbors(state));
    } else if !c.adapter.enumerates(state) {
      s' := Halt(s', AdapterError, AdapterFailed);
    }
  }

  lemma ClosedBooks(c: Config, polled: Search, s0: Search, s': Search, n: nat, es: seq<Option<Transition>>)
    requires n < |polled.nodes| && Indexed(polled) && s0 == Close(polled, n) && s'.stop.Some?
    requires Emitted(c, s0, s', n, es, |es|)
    ensures StopsAmid(c, polled, s', n, es)
  {
    var j: nat :| j < |es| && StopsAt(c, s0, s', n, es, j);
    assert StopsAt(c, polled, s', n, es, j);
  }

  /** An iteration that one of its checks decides. */
  lemma CheckGoes(c: Config, s: Search) returns (s': Search)
    requires Indexed(s) && Sound(c, s, |s.open|) && s.stop.None? && s.open != {}
    requires || c.adapter.cancelled(s.polls) || c.adapter.goal(PoppedNode(s).state)
             || LimitHit(c.options.maxExpanded, s.expanded)
    ensures s' == Step(c, s) && Goes(c, s, s')
  {
    var polled := s.(polls := s.polls + 1);
    var n := Popped(s);
    if c.adapter.cancelled(s.polls) {
      s' := Halt(polled, Cancelled, WasCancelled);
    } else if c.adapter.goal(s.nodes[n].state) {
      s' := polled.(open := s.open - {n}, stop := Some(Stop(Found, AtGoal, Some(n))));
    } else {
      s' := Halt(polled.(open := s.open - {n}), LimitReached, AtLimit);
    }
  }

  lemma EmptyGoes(c: Config, s: Search) returns (s': Search)
    requires Indexed(s) && s.stop.None? && s.open == {}
    ensures s' == Step(c, s) && Goes(c, s, s')
  {
    s' := Halt(s, NoPath, Exhausted);
  }

  /** No check stops the iteration. */
  ghost predicate Unchecked(c: Config, s: Search) {
    && Indexed(s) && s.stop.None? && s.open != {} && !c.adapter.cancelled(s.polls)
    && !c.adapter.goal(PoppedNode(s).state) && !LimitHit(c.options.maxExpanded, s.expanded)
  }

  lemma UncheckedExpands(c: Config, s: Search)
    requires Unchecked(c, s)
    ensures Step(c, s) == Expand(c, s.(polls := s.polls + 1), Popped(s))
  {
  }

  lemma ExpandedGoes(c: Config, s: Search, s': Search)
    requires Unchecked(c, s) && Expanded(c, s, s', Popped(s))
    ensures Goes(c, s, s')
  {
  }

  lemma ExpansionGoes(c: Config, s: Search) returns (s': Search)
    requires Unchecked(c, s) && Sound(c, s, |s.open|)
    ensures s' == Step(c, s) && Goes(c, s, s')
  {
    UncheckedExpands(c, s);
    s' := ExpandBooks(c, s, Popped(s));
    ExpandedGoes(c, s, s');
  }

  lemma StepGoes(c: Config, s: Search) returns (s': Search)
    requires Indexed(s) && Sound(c, s, |s.open|) && s.stop.None?
    ensures s' == Step(c, s) && Goes(c, s, s')
  {
    if s.open == {} {
      s' := EmptyGoes(c, s);
    } else if c.adapter.cancelled(s.polls) || c.adapter.goal(PoppedNode(s).state)
              || LimitHit(c.options.maxExpanded, s.expanded) {
      s' := CheckGoes(c, s);
    } else {
      s' := ExpansionGoes(c, s);
    }
  }

  /** Every iteration of every search goes as described. */
  lemma EveryTurnGoes(c: Config, n: nat)
    requires After(c, n).stop.None?
    ensures Indexed(After(c, n)) && Goes(c, After(c, n), After(c, n + 1))
  {
    AlwaysInv(c, n);
    AlwaysSound(c, n);
    var s' := StepGoes(c, After(c, n));
  }

  // ---------------------------------------------------------------- counters over a run

  /** How many transitions the node popped next has. */
  ghost function NextTransitions(c: Config, s: Search): nat {
    if Indexed(s) && s.open != {} then |c.adapter.neighbors(PoppedNode(s).state)| else 0
  }

  /** How many transitions the first `n` nodes popped have. */
  ghost function Transitions(c: Config, n: nat): nat {
    if n == 0 then 0 else Transitions(c, n - 1) + NextTransitions(c, After(c, n - 1))
  }

  lemma GoesOn(c: Config, s: Search, s': Search)
    requires Indexed(s) && s.stop.None? && Goes(c, s, s') && s'.stop.None?
    ensures s'.expanded == s.expanded + 1 && s'.examined == s.examined + NextTransitions(c, s)
    ensures s'.polls == s.polls + 1 + NextTransitions(c, s)
  {
  }

  lemma RunningBefore(c: Config, n: nat)
    requires After(c, n + 1).stop.None?
    ensures After(c, n).stop.None?
  {
    AlwaysInv(c, n);
    assert After(c, n + 1) == Stepper(c)(After(c, n));
  }

  lemma TurnCounts(c: Config, n: nat)
    requires After(c, n).stop.None? && After(c, n + 1).stop.None?
    ensures var s, s' := After(c, n), After(c, n + 1);
      && s'.expanded == s.expanded + 1 && s'.examined == s.examined + NextTransitions(c, s)
      && s'.polls == s.polls + 1 + NextTransitions(c, s)
  {
    EveryTurnGoes(c, n);
    GoesOn(c, After(c, n), After(c, n + 1));
  }

  /**
   A search that is still running after `n` iterations has expanded n nodes, examined all their
   transitions, and polled once for each node and each transition.
   */
  lemma {:induction false} RunningCounts(c: Config, n: nat)
    requires After(c, n).stop.None?
    ensures After(c, n).expanded == n && After(c, n).examined == Transitions(c, n)
    ensures After(c, n).polls == n + Transitions(c, n)
  {
    if n > 0 {
      RunningBefore(c, n - 1);
      RunningCounts(c, n - 1);
      TurnCounts(c, n - 1);
    }
  }
}
