/**
 The graph an adapter describes, and the requests a search context accepts.

 An adapter is a table of pure callbacks over 64-bit state identifiers.  Paths,
 path costs and heuristic admissibility are defined here without reference to
 any search, so that they can serve as the independent yardstick for one.
 */
module PathGraph {
  import opened Wrappers

  const UINT64_MAX: nat := 0xFFFF_FFFF_FFFF_FFFF

  /** An unsigned 64-bit value: a state identifier, a cost, a score or a datum. */
  type Word = w: int | 0 <= w <= UINT64_MAX

  datatype Transition = Transition(state: Word, cost: Word, data: Word)

  datatype Algorithm = AStar | Dijkstra | BreadthFirst | GreedyBestFirst

  datatype Status =
    | Found | NoPath | LimitReached | Cancelled | Partial | Complete
    | InvalidInput | AdapterError | CostOverflow

  datatype Termination =
    | AtGoal | Exhausted | AtLimit | WasCancelled | BadInput | AdapterFailed | Overflowed

  /** What a request asks for; a budget of zero never applies. */
  datatype Options = Options(
    algorithm: Algorithm,
    maxExpanded: nat,
    maxGenerated: nat,
    maxTransitions: nat,
    maxFrontier: nat,
    returnPartial: bool)

  datatype Callback = Neighbors | Goal | Heuristic | PartialRank

  /**
   The adapter.  `neighbors` lists what is emitted for a state, in order, `None`
   standing for a NULL transition; `enumerates` is the value the callback returns
   when no emission was refused; `ignoresStop` says whether it goes on emitting
   after being told to stop; `cancelled` answers the successive polls.
   */
  datatype Adapter = Adapter(
    provided: set<Callback>,
    neighbors: Word -> seq<Option<Transition>>,
    enumerates: Word -> bool,
    ignoresStop: bool,
    goal: Word -> bool,
    heuristic: Word -> Word,
    partialRank: Word -> Word,
    cancelled: nat -> bool)

  datatype Config = Config(adapter: Adapter, options: Options, start: Word)

  predicate UsesHeuristic(algorithm: Algorithm) {
    algorithm == AStar || algorithm == GreedyBestFirst
  }

  predicate ValidRequest(c: Config) {
    && Neighbors in c.adapter.provided
    && Goal in c.adapter.provided
    && (UsesHeuristic(c.options.algorithm) ==> Heuristic in c.adapter.provided)
    && (c.options.returnPartial ==> PartialRank in c.adapter.provided)
  }

  /** Breadth-first search treats every transition as unit cost. */
  function StepCost(c: Config, t: Transition): Word {
    if c.options.algorithm == BreadthFirst then 1 else t.cost
  }

  /** The score a node carries: zero for the algorithms that ignore the heuristic. */
  function Score(c: Config, state: Word): Word {
    if UsesHeuristic(c.options.algorithm) then c.adapter.heuristic(state) else 0
  }

  ghost predicate Edge(c: Config, from: Word, t: Transition) {
    Some(t) in c.adapter.neighbors(from)
  }

  /** `ts` is a walk along emitted transitions starting in `from`. */
  ghost predicate IsPath(c: Config, from: Word, ts: seq<Transition>)
    decreases |ts|
  {
    ts == [] || (Edge(c, from, ts[0]) && IsPath(c, ts[0].state, ts[1..]))
  }

  ghost function End(from: Word, ts: seq<Transition>): Word {
    if ts == [] then from else ts[|ts| - 1].state
  }

  ghost function PathCost(c: Config, ts: seq<Transition>): nat {
    if ts == [] then 0 else StepCost(c, ts[0]) + PathCost(c, ts[1..])
  }

  ghost function SumOfCosts(ts: seq<Transition>): nat {
    if ts == [] then 0 else ts[0].cost + SumOfCosts(ts[1..])
  }

  /** A path costs the sum of what the adapter says its transitions cost, or their number in breadth-first search. */
  lemma {:induction false} CostIsSum(c: Config, ts: seq<Transition>)
    ensures PathCost(c, ts) == if c.options.algorithm == BreadthFirst then |ts| else SumOfCosts(ts)
  {
    if ts != [] {
      CostIsSum(c, ts[1..]);
    }
  }

  ghost predicate GoalPath(c: Config, from: Word, ts: seq<Transition>) {
    IsPath(c, from, ts) && c.adapter.goal(End(from, ts))
  }

  ghost predicate Reachable(c: Config, from: Word, to: Word) {
    exists ts :: IsPath(c, from, ts) && End(from, ts) == to
  }

  /** The score never exceeds the cost of any path to any goal. */
  ghost predicate Admissible(c: Config) {
    forall s: Word, ts :: GoalPath(c, s, ts) ==> Score(c, s) <= PathCost(c, ts)
  }

  /** The score drops by at most the step cost along every transition. */
  ghost predicate Consistent(c: Config) {
    forall s: Word, t :: Edge(c, s, t) ==> Score(c, s) <= StepCost(c, t) + Score(c, t.state)
  }

  /** Extending a path by one transition at its end. */
  lemma {:induction false} PathSnoc(c: Config, from: Word, ts: seq<Transition>, t: Transition)
    requires IsPath(c, from, ts) && Edge(c, End(from, ts), t)
    ensures IsPath(c, from, ts + [t])
    ensures PathCost(c, ts + [t]) == PathCost(c, ts) + StepCost(c, t)
    ensures End(from, ts + [t]) == t.state
    decreases |ts|
  {
    if ts == [] {
      assert (ts + [t])[1..] == [];
    } else {
      assert (ts + [t])[1..] == ts[1..] + [t];
      PathSnoc(c, ts[0].state, ts[1..], t);
    }
  }

  /** Peeling the last transition off a path. */
  lemma {:induction false} PathUnsnoc(c: Config, from: Word, ts: seq<Transition>)
    requires IsPath(c, from, ts) && ts != []
    ensures var k := |ts| - 1; IsPath(c, from, ts[..k]) && Edge(c, End(from, ts[..k]), ts[k])
    decreases |ts|
  {
    var k := |ts| - 1;
    if k == 0 {
    } else {
      PathUnsnoc(c, ts[0].state, ts[1..]);
      assert ts[1..][..k - 1] == ts[..k][1..];
    }
  }

  /** With unit steps the cost of a path is its number of transitions. */
  lemma {:induction false} UnitPathCost(c: Config, ts: seq<Transition>)
    requires c.options.algorithm == BreadthFirst
    ensures PathCost(c, ts) == |ts|
    decreases |ts|
  {
    if ts != [] {
      UnitPathCost(c, ts[1..]);
    }
  }

  /** A zero score is admissible, whatever the graph. */
  lemma UninformedIsAdmissible(c: Config)
    requires !UsesHeuristic(c.options.algorithm)
    ensures Admissible(c)
  {
  }
}
