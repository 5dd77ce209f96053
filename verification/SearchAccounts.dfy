/**
 Budgets, polls and causes: what a search has used up never exceeds its budgets, a poll that
 answers yes ends it at once, and whatever ends it has the cause that its termination names.
 */
module SearchAccounts {
  import opened Folds
  import opened PathGraph
  import opened SearchModel
  import opened SearchInvariant
  import opened SearchTheorems
  import opened Wrappers

  predicate StoppedAs(s: Search, termination: Termination) {
    s.stop.Some? && s.stop.value.termination == termination
  }

  /** Every poll answered no, except perhaps the last one, and then the search was cancelled. */
  ghost predicate PollsClear(c: Config, s: Search) {
    && (forall p: nat :: p < s.polls && c.adapter.cancelled(p) ==> p == s.polls - 1 && StoppedAs(s, WasCancelled))
    && (StoppedAs(s, WasCancelled) ==> s.polls > 0 && c.adapter.cancelled(s.polls - 1))
  }

  /** A budget of zero means none. */
  predicate Within(limit: nat, used: int) {
    limit == 0 || used <= limit
  }

  predicate UsedUp(limit: nat, used: int) {
    limit != 0 && used == limit
  }

  /** `frontier` is what the budget for the frontier counts. */
  predicate InBudget(c: Config, s: Search, frontier: int) {
    && Within(c.options.maxExpanded, s.expanded) && Within(c.options.maxTransitions, s.examined)
    && Within(c.options.maxGenerated, |s.nodes|) && Within(c.options.maxFrontier, frontier)
  }

  predicate BudgetUsedUp(c: Config, s: Search, frontier: int) {
    || UsedUp(c.options.maxExpanded, s.expanded) || UsedUp(c.options.maxTransitions, s.examined)
    || UsedUp(c.options.maxGenerated, |s.nodes|) || UsedUp(c.options.maxFrontier, frontier)
  }

  /** The adapter gave a missing transition for the state, or failed to enumerate it. */
  predicate Fails(c: Config, state: Word) {
    None in c.adapter.neighbors(state) || !c.adapter.enumerates(state)
  }

  ghost predicate SomeFails(c: Config, nodes: seq<Node>) {
    exists i :: 0 <= i < |nodes| && Fails(c, nodes[i].state)
  }

  predicate TooDear(c: Config, node: Node, t: Transition) {
    node.cost + StepCost(c, t) > UINT64_MAX
  }

  ghost predicate SomeTooDear(c: Config, nodes: seq<Node>) {
    exists i, t :: 0 <= i < |nodes| && Edge(c, nodes[i].state, t) && TooDear(c, nodes[i], t)
  }

  /** What has to be the case for a stop of this kind. */
  ghost predicate Caused(c: Config, s: Search, frontier: int) {
    s.stop.Some? ==>
      match s.stop.value.termination
      case AtLimit => BudgetUsedUp(c, s, frontier)
      case AdapterFailed => SomeFails(c, s.nodes)
      case Overflowed => SomeTooDear(c, s.nodes)
      case BadInput => false
      case _ => true
  }

  ghost predicate Sound(c: Config, s: Search, frontier: int) {
    |s.nodes| > 0 && PollsClear(c, s) && InBudget(c, s, frontier) && Caused(c, s, frontier)
  }

  lemma HaltSound(c: Config, s: Search, frontier: int, status: Status, termination: Termination) returns (s': Search)
    requires Sound(c, s, frontier) && s.stop.None? && termination != WasCancelled && termination != BadInput
    requires termination == AtLimit ==> BudgetUsedUp(c, s, frontier)
    requires termination == AdapterFailed ==> SomeFails(c, s.nodes)
    requires termination == Overflowed ==> SomeTooDear(c, s.nodes)
    ensures s' == Halt(s, status, termination) && Sound(c, s', frontier)
  {
    s' := Halt(s, status, termination);
  }

  /** One poll more. */
  lemma PollSound(c: Config, s: Search, frontier: int, status: Status) returns (s': Search)
    requires Sound(c, s, frontier) && s.stop.None?
    ensures var polled := s.(polls := s.polls + 1);
      s' == (if c.adapter.cancelled(s.polls) then Halt(polled, status, WasCancelled) else polled)
      && Sound(c, s', frontier)
  {
    var polled := s.(polls := s.polls + 1);
    s' := if c.adapter.cancelled(s.polls) then Halt(polled, status, WasCancelled) else polled;
  }

  lemma AdmitSound(c: Config, s: Search, frontier: int, a: nat, e: Option<Transition>) returns (s': Search)
    requires Sound(c, s, frontier) && s.stop.None? && a < |s.nodes| && e in c.adapter.neighbors(s.nodes[a].state)
    ensures s' == Admit(c, s, e) && Sound(c, s', frontier) && s'.nodes == s.nodes && s'.open == s.open
    ensures s'.expanded == s.expanded && (s'.stop.None? ==> e.Some?)
  {
    if e.None? {
      assert Fails(c, s.nodes[a].state);
      s' := HaltSound(c, s, frontier, AdapterError, AdapterFailed);
    } else {
      s' := PollSound(c, s, frontier, Cancelled);
      if s'.stop.None? {
        if LimitHit(c.options.maxTransitions, s.examined) {
          s' := HaltSound(c, s', frontier, LimitReached, AtLimit);
        } else {
          s' := s'.(examined := s.examined + 1);
        }
      }
    }
  }

  // ---------------------------------------------------------------- one emission of a search

  /** The books are in order, and the node under expansion is where it was. */
  ghost predicate SoundAt(c: Config, s: Search, a: nat, state: Word) {
    Indexed(s) && Sound(c, s, |s.open|) && a < |s.nodes| && s.nodes[a].state == state
  }

  lemma LowerSound(c: Config, s: Search, a: nat, v: nat, t: Transition, g: Word, state: Word) returns (s': Search)
    requires SoundAt(c, s, a, state) && s.stop.None? && v < |s.nodes|
    requires s.nodes[v].closed ==> !LimitHit(c.options.maxFrontier, |s.open|)
    ensures s' == Lower(c, s, a, v, t, g) && SoundAt(c, s', a, state)
  {
    s' := Lower(c, s, a, v, t, g);
  }

  lemma RediscoverSound(c: Config, s: Search, a: nat, v: nat, t: Transition, g: Word, state: Word) returns (s': Search)
    requires SoundAt(c, s, a, state) && s.stop.None? && v < |s.nodes|
    ensures s' == Rediscover(c, s, a, v, t, g) && SoundAt(c, s', a, state)
  {
    if g >= s.nodes[v].cost {
      s' := s;
    } else if s.nodes[v].closed && LimitHit(c.options.maxFrontier, |s.open|) {
      s' := HaltSound(c, s, |s.open|, LimitReached, AtLimit);
    } else {
      s' := LowerSound(c, s, a, v, t, g, state);
    }
  }

  lemma DiscoverSound(c: Config, s: Search, a: nat, t: Transition, g: Word, state: Word) returns (s': Search)
    requires SoundAt(c, s, a, state) && s.stop.None? && !Crowded(c, s)
    ensures s' == Discover(c, s, a, t, g) && SoundAt(c, s', a, state)
  {
    s' := Discover(c, s, a, t, g);
    assert |s.nodes| !in s.open;
  }

  lemma RelaxSound(c: Config, s: Search, a: nat, t: Transition, state: Word) returns (s': Search)
    requires SoundAt(c, s, a, state) && s.stop.None? && Edge(c, state, t)
    ensures s' == Relax(c, s, a, t) && SoundAt(c, s', a, state)
  {
    var g := s.nodes[a].cost + StepCost(c, t);
    var known := Find(s.nodes, t.state);
    if g > UINT64_MAX {
      assert TooDear(c, s.nodes[a], t);
      s' := HaltSound(c, s, |s.open|, CostOverflow, Overflowed);
    } else if known.Some? {
      s' := RediscoverSound(c, s, a, known.value, t, g, state);
    } else if Crowded(c, s) {
      s' := HaltSound(c, s, |s.open|, LimitReached, AtLimit);
    } else {
      s' := DiscoverSound(c, s, a, t, g, state);
    }
  }

  lemma EmitSound(c: Config, s: Search, a: nat, e: Option<Transition>, state: Word) returns (s': Search)
    requires SoundAt(c, s, a, state) && e in c.adapter.neighbors(state)
    ensures s' == Emit(c, s, a, e) && SoundAt(c, s', a, state)
  {
    s' := s;
    if s.stop.None? {
      s' := AdmitSound(c, s, |s.open|, a, e);
      if s'.stop.None? {
        s' := RelaxSound(c, s', a, e.value, state);
      }
    }
  }

  lemma EmissionsSound(c: Config, s: Search, a: nat, es: seq<Option<Transition>>, state: Word) returns (s': Search)
    requires SoundAt(c, s, a, state) && es == c.adapter.neighbors(state)
    ensures s' == Fold(Emitter(c, a), s, es, |es|) && SoundAt(c, s', a, state)
  {
    var P := (s1: Search, j: nat) => SoundAt(c, s1, a, state);
    forall s1: Search, j: nat | j < |es| && P(s1, j) ensures P(Emitter(c, a)(s1, es[j]), j + 1) {
      var s2 := EmitSound(c, s1, a, es[j], state);
    }
    FoldKeeps(Emitter(c, a), s, es, |es|, P);
    s' := Fold(Emitter(c, a), s, es, |es|);
  }

  // ---------------------------------------------------------------- one iteration

  lemma CloseSound(c: Config, s: Search, n: nat) returns (s': Search)
    requires Indexed(s) && Sound(c, s, |s.open|) && s.stop.None? && n < |s.nodes|
    requires !LimitHit(c.options.maxExpanded, s.expanded)
    ensures s' == Close(s, n) && SoundAt(c, s', n, s.nodes[n].state)
  {
    s' := Close(s, n);
    SmallerOpen(s.open, n);
  }

  lemma SmallerOpen(open: set<nat>, n: nat)
    ensures |open - {n}| <= |open|
  {
  }

  lemma ExpandSound(c: Config, s: Search, n: nat) returns (s': Search)
    requires Indexed(s) && Sound(c, s, |s.open|) && s.stop.None? && n < |s.nodes|
    requires !LimitHit(c.options.maxExpanded, s.expanded)
    ensures s' == Expand(c, s, n) && Sound(c, s', |s'.open|)
  {
    var state := s.nodes[n].state;
    var s0 := CloseSound(c, s, n);
    s' := EmissionsSound(c, s0, n, c.adapter.neighbors(state), state);
    if s'.stop.None? && !c.adapter.enumerates(state) {
      assert Fails(c, s'.nodes[n].state);
      s' := HaltSound(c, s', |s'.open|, AdapterError, AdapterFailed);
    }
  }

  /** Popping a node without expanding it. */
  lemma PopSound(c: Config, s: Search, n: nat, stop: Stop) returns (s': Search)
    requires Sound(c, s, |s.open|) && s.stop.None? && n in s.open
    requires stop.termination == AtGoal || (stop.termination == AtLimit && LimitHit(c.options.maxExpanded, s.expanded))
    ensures s' == s.(open := s.open - {n}, stop := Some(stop)) && Sound(c, s', |s'.open|)
  {
    s' := s.(open := s.open - {n}, stop := Some(stop));
    SmallerOpen(s.open, n);
  }

  /** What an iteration does whose poll answers no. */
  lemma PolledStep(c: Config, s: Search, n: nat, polled: Search)
    requires Indexed(s) && s.stop.None? && s.open != {} && !c.adapter.cancelled(s.polls)
    requires n == Least(s.nodes, s.open) && polled == s.(polls := s.polls + 1)
    ensures Step(c, s) ==
      if c.adapter.goal(s.nodes[n].state) then
        polled.(open := polled.open - {n}, stop := Some(Stop(Found, AtGoal, Some(n))))
      else if LimitHit(c.options.maxExpanded, s.expanded) then
        polled.(open := polled.open - {n}, stop := Some(Stop(LimitReached, AtLimit, None)))
      else Expand(c, polled, n)
  {
  }

  lemma PolledSound(c: Config, s: Search, n: nat, polled: Search) returns (s': Search)
    requires Indexed(polled) && Sound(c, polled, |polled.open|) && polled.stop.None? && n in polled.open
    requires s.nodes == polled.nodes && s.expanded == polled.expanded
    ensures s' ==
      if c.adapter.goal(s.nodes[n].state) then
        polled.(open := polled.open - {n}, stop := Some(Stop(Found, AtGoal, Some(n))))
      else if LimitHit(c.options.maxExpanded, s.expanded) then
        polled.(open := polled.open - {n}, stop := Some(Stop(LimitReached, AtLimit, None)))
      else Expand(c, polled, n)
    ensures Sound(c, s', |s'.open|)
  {
    if c.adapter.goal(s.nodes[n].state) {
      s' := PopSound(c, polled, n, Stop(Found, AtGoal, Some(n)));
    } else if LimitHit(c.options.maxExpanded, s.expanded) {
      s' := PopSound(c, polled, n, Stop(LimitReached, AtLimit, None));
    } else {
      s' := ExpandSound(c, polled, n);
    }
  }

  lemma StepSound(c: Config, s: Search) returns (s': Search)
    requires Indexed(s) && Sound(c, s, |s.open|)
    ensures s' == Step(c, s) && Sound(c, s', |s'.open|)
  {
    if s.stop.Some? {
      s' := s;
    } else if s.open == {} {
      s' := HaltSound(c, s, |s.open|, NoPath, Exhausted);
    } else if c.adapter.cancelled(s.polls) {
      s' := PollSound(c, s, |s.open|, Cancelled);
    } else {
      var n := Least(s.nodes, s.open);
      s' := PollSound(c, s, |s.open|, Cancelled);
      PolledStep(c, s, n, s');
      s' := PolledSound(c, s, n, s');
    }
  }

  /** At every turn of every search: budgets kept, no yes overlooked, and every stop with its cause. */
  lemma AlwaysSound(c: Config, n: nat)
    ensures Sound(c, After(c, n), |After(c, n).open|)
  {
    var P := (s: Search) => Indexed(s) && Sound(c, s, |s.open|);
    forall s | P(s) ensures P(Stepper(c)(s)) {
      var s' := StepSound(c, s);
    }
    IterateKeeps(Stepper(c), Initial(c), n, P);
  }

  // ---------------------------------------------------------------- what the caller sees

  /** No budget is exceeded. */
  lemma BudgetsHold(c: Config, r: Result)
    requires Outcome(c, r)
    ensures c.options.maxExpanded != 0 ==> r.expanded <= c.options.maxExpanded
    ensures c.options.maxTransitions != 0 ==> r.examined <= c.options.maxTransitions
    ensures c.options.maxGenerated != 0 ==> r.generated <= c.options.maxGenerated
  {
    var n: nat :| StopsWith(c, n, r);
    AlwaysSound(c, n);
  }

  lemma FrontierHolds(c: Config, n: nat)
    requires c.options.maxFrontier != 0
    ensures |After(c, n).open| <= c.options.maxFrontier
  {
    AlwaysSound(c, n);
  }

  /** A search stops at a limit only if one of its budgets is used up. */
  lemma LimitMeansUsedUp(c: Config, n: nat, r: Result)
    requires StopsWith(c, n, r) && r.termination == AtLimit
    ensures || (c.options.maxExpanded != 0 && r.expanded == c.options.maxExpanded)
            || (c.options.maxTransitions != 0 && r.examined == c.options.maxTransitions)
            || (c.options.maxGenerated != 0 && r.generated == c.options.maxGenerated)
            || (c.options.maxFrontier != 0 && |After(c, n).open| == c.options.maxFrontier)
  {
    AlwaysSound(c, n);
  }

  /** It is cancelled exactly if a poll answered yes, and that poll is the last it makes. */
  lemma CancelledIffPolled(c: Config, n: nat, r: Result)
    requires StopsWith(c, n, r)
    ensures r.termination == WasCancelled <==> exists p: nat :: p < After(c, n).polls && c.adapter.cancelled(p)
    ensures forall p: nat :: p < After(c, n).polls && c.adapter.cancelled(p) ==> p == After(c, n).polls - 1
  {
    AlwaysSound(c, n);
    var s := After(c, n);
    assert s.polls > 0 ==> s.polls - 1 < s.polls;
  }

  /** An adapter error is one of the adapter, on a state that can be reached. */
  lemma AdapterErrorMeansFailure(c: Config, n: nat, r: Result) returns (state: Word)
    requires StopsWith(c, n, r) && r.termination == AdapterFailed
    ensures Reachable(c, c.start, state) && (None in c.adapter.neighbors(state) || !c.adapter.enumerates(state))
  {
    AlwaysSound(c, n);
    var s := After(c, n);
    var i :| 0 <= i < |s.nodes| && Fails(c, s.nodes[i].state);
    state := s.nodes[i].state;
    NodeIsReachable(c, s, i);
  }

  lemma NodeIsReachable(c: Config, s: Search, i: nat)
    requires Inv(c, s) && i < |s.nodes|
    ensures Reachable(c, c.start, s.nodes[i].state)
  {
    assert HasDepth(s.nodes, i);
    var ts := ChainIsPath(c, s.nodes, i, Depth(s.nodes, i));
  }

  /** A cost overflow is one: some transition out of a discovered state leads beyond 64 bits. */
  lemma OverflowMeansTooDear(c: Config, n: nat, r: Result) returns (i: nat, t: Transition)
    requires StopsWith(c, n, r) && r.termination == Overflowed
    ensures i < |After(c, n).nodes| && Edge(c, After(c, n).nodes[i].state, t)
    ensures After(c, n).nodes[i].cost + StepCost(c, t) > UINT64_MAX
  {
    AlwaysSound(c, n);
    var s := After(c, n);
    i, t :| 0 <= i < |s.nodes| && Edge(c, s.nodes[i].state, t) && TooDear(c, s.nodes[i], t);
  }
}
