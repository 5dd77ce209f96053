/**
 Without budgets, cancellation or adapter failures, a search ends with a goal, with
 nothing left to expand, or because a cost overflowed; so short of an overflow it
 decides whether a goal is reachable.
 */
module UnhinderedSearch {
  import opened PathGraph
  import opened Folds
  import opened SearchModel
  import opened SearchTheorems
  import opened SearchTermination
  import opened Wrappers

  ghost predicate Unhindered(c: Config) {
    && c.options.maxExpanded == 0 && c.options.maxGenerated == 0
    && c.options.maxTransitions == 0 && c.options.maxFrontier == 0
    && (forall poll: nat :: !c.adapter.cancelled(poll))
    && (forall state: Word :: c.adapter.enumerates(state))
    && (forall state: Word, e :: e in c.adapter.neighbors(state) ==> e.Some?)
  }

  predicate Conclusive(t: Termination) {
    t == AtGoal || t == Exhausted || t == Overflowed
  }

  ghost predicate StopsConclusively(s: Search) {
    s.stop.Some? ==> Conclusive(s.stop.value.termination)
  }

  lemma RelaxConcludes(c: Config, s: Search, a: nat, t: Transition)
    requires Unhindered(c) && Indexed(s) && a < |s.nodes| && s.stop.None?
    ensures StopsConclusively(Relax(c, s, a, t))
  {
  }

  lemma EmitConcludes(c: Config, s: Search, a: nat, e: Option<Transition>)
    requires Unhindered(c) && Indexed(s) && a < |s.nodes| && StopsConclusively(s) && e.Some?
    ensures StopsConclusively(Emit(c, s, a, e))
  {
    if s.stop.None? {
      RelaxConcludes(c, Admit(c, s, e), a, e.value);
    }
  }

  lemma EmissionsConclude(c: Config, s: Search, a: nat, es: seq<Option<Transition>>)
    requires Unhindered(c) && StopsConclusively(s) && forall e :: e in es ==> e.Some?
    ensures StopsConclusively(Fold(Emitter(c, a), s, es, |es|))
  {
    var P := (s1: Search, j: nat) => StopsConclusively(s1);
    forall s1: Search, j: nat | j < |es| && P(s1, j) ensures P(Emitter(c, a)(s1, es[j]), j + 1) {
      assert es[j] in es;
      if Indexed(s1) && a < |s1.nodes| {
        EmitConcludes(c, s1, a, es[j]);
      }
    }
    FoldKeeps(Emitter(c, a), s, es, |es|, P);
  }

  lemma ExpandConcludes(c: Config, s: Search, n: nat) returns (s': Search)
    requires Unhindered(c) && Indexed(s) && n < |s.nodes| && s.stop.None?
    ensures s' == Expand(c, s, n) && StopsConclusively(s')
  {
    var es := c.adapter.neighbors(s.nodes[n].state);
    EmissionsConclude(c, Close(s, n), n, es);
    s' := Fold(Emitter(c, n), Close(s, n), es, |es|);
  }

  /** Without cancellation and an expansion budget, an iteration stops conclusively or expands a node. */
  lemma StepUnhindered(c: Config, s: Search) returns (s': Search)
    requires Indexed(s) && StopsConclusively(s) && !c.adapter.cancelled(s.polls) && c.options.maxExpanded == 0
    ensures s' == Step(c, s)
    ensures StopsConclusively(s') || (s.stop.None? && s.open != {}
              && s' == Expand(c, s.(polls := s.polls + 1), Least(s.nodes, s.open)))
  {
    var polled := s.(polls := s.polls + 1);
    if s.stop.Some? {
      s' := s;
    } else if s.open == {} {
      s' := Halt(s, NoPath, Exhausted);
    } else {
      var n := Least(s.nodes, s.open);
      if c.adapter.goal(s.nodes[n].state) {
        s' := polled.(open := s.open - {n}, stop := Some(Stop(Found, AtGoal, Some(n))));
      } else {
        s' := Expand(c, polled, n);
      }
    }
  }

  lemma StepConcludes(c: Config, s: Search) returns (s': Search)
    requires Unhindered(c) && Indexed(s) && StopsConclusively(s)
    ensures s' == Step(c, s) && StopsConclusively(s')
  {
    s' := StepUnhindered(c, s);
    if s.stop.None? && s.open != {} {
      var s1 := ExpandConcludes(c, s.(polls := s.polls + 1), Least(s.nodes, s.open));
    }
  }

  lemma AlwaysConclusive(c: Config, n: nat)
    requires Unhindered(c)
    ensures StopsConclusively(After(c, n))
  {
    var P := (s: Search) => StopsConclusively(s);
    forall s | P(s) ensures P(Stepper(c)(s)) {
      if Indexed(s) {
        var s' := StepConcludes(c, s);
      }
    }
    IterateKeeps(Stepper(c), Initial(c), n, P);
  }

  /** All four algorithms, from start to finish: a search that nothing hinders ends with the right verdict. */
  lemma UnhinderedDecides(c: Config) returns (r: Result)
    requires Unhindered(c)
    ensures Outcome(c, r) && Conclusive(r.termination)
    ensures r.termination == AtGoal ==> exists goal :: Reachable(c, c.start, goal) && c.adapter.goal(goal)
    ensures r.termination == Exhausted ==> forall goal :: Reachable(c, c.start, goal) ==> !c.adapter.goal(goal)
  {
    EverySearchEnds(c);
    r :| Outcome(c, r);
    var n :| StopsWith(c, n, r);
    AlwaysConclusive(c, n);
    if r.termination != Overflowed {
      DecidesReachability(c, r);
    }
  }
}
