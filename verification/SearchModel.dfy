/**
 One loop of the search engine as a function on values: the node table, the open
 set, the counters the budgets look at, and the stop that ends a run.  The open
 set stands for the indexed heap and the node table is searched directly; the
 imperative engine in `SearchContext` is proved to compute exactly this.
 */
module SearchModel {
  import opened PathGraph
  import opened Folds
  import opened Wrappers

  datatype Node = Node(
    state: Word,
    cost: Word,
    heuristic: Word,
    priority: Word,
    data: Word,
    parent: Option<nat>,
    sequence: nat,
    closed: bool)

  datatype Stop = Stop(status: Status, termination: Termination, node: Option<nat>)

  /** The best partial candidate so far, with its rank. */
  datatype Best = Best(node: nat, rank: Word)

  datatype Search = Search(
    nodes: seq<Node>,
    open: set<nat>,
    expanded: nat,
    examined: nat,
    polls: nat,
    best: Option<Best>,
    stop: Option<Stop>)

  function Priority(algorithm: Algorithm, cost: Word, heuristic: Word): Word {
    if algorithm == GreedyBestFirst then heuristic
    else if algorithm == AStar && UINT64_MAX - cost < heuristic then UINT64_MAX
    else if algorithm == AStar then cost + heuristic
    else cost
  }

  predicate LimitHit(limit: nat, count: int) {
    limit != 0 && count >= limit
  }

  /** The heap order: priority, then heuristic, then insertion sequence. */
  predicate Before(a: Node, b: Node) {
    if a.priority != b.priority then a.priority < b.priority
    else if a.heuristic != b.heuristic then a.heuristic < b.heuristic
    else a.sequence < b.sequence
  }

  ghost predicate IsLeast(nodes: seq<Node>, open: set<nat>, n: nat)
    requires forall i :: i in open ==> i < |nodes|
  {
    n in open && forall i :: i in open && i != n ==> Before(nodes[n], nodes[i])
  }

  /** Indices are in range and sequence numbers are table positions. */
  ghost predicate Indexed(s: Search) {
    && (forall i :: i in s.open ==> i < |s.nodes|)
    && (forall i :: 0 <= i < |s.nodes| ==> s.nodes[i].sequence == i)
    && (s.best.Some? ==> s.best.value.node < |s.nodes|)
  }

  lemma {:induction false} LeastExists(nodes: seq<Node>, open: set<nat>)
    requires open != {}
    requires forall i :: i in open ==> i < |nodes|
    requires forall i :: 0 <= i < |nodes| ==> nodes[i].sequence == i
    ensures exists n :: IsLeast(nodes, open, n)
    decreases |open|
  {
    var x :| x in open;
    if open == {x} {
      assert IsLeast(nodes, open, x);
    } else {
      var rest := open - {x};
      assert open == rest + {x};
      LeastExists(nodes, rest);
      var m: nat :| IsLeast(nodes, rest, m);
      if Before(nodes[x], nodes[m]) {
        assert IsLeast(nodes, open, x);
      } else {
        assert IsLeast(nodes, open, m);
      }
    }
  }

  ghost function Least(nodes: seq<Node>, open: set<nat>): (n: nat)
    requires open != {}
    requires forall i :: i in open ==> i < |nodes|
    requires forall i :: 0 <= i < |nodes| ==> nodes[i].sequence == i
    ensures IsLeast(nodes, open, n)
  {
    LeastExists(nodes, open);
    var n :| IsLeast(nodes, open, n);
    n
  }

  /** Position of a state in the node table. */
  ghost function Find(nodes: seq<Node>, state: Word): (r: Option<nat>)
    ensures r.Some? ==> r.value < |nodes| && nodes[r.value].state == state
    ensures r.None? ==> forall i :: 0 <= i < |nodes| ==> nodes[i].state != state
  {
    if exists i :: 0 <= i < |nodes| && nodes[i].state == state then
      var i :| 0 <= i < |nodes| && nodes[i].state == state;
      Some(i)
    else
      None
  }

  ghost function Halt(s: Search, status: Status, termination: Termination): Search {
    s.(stop := Some(Stop(status, termination, None)))
  }

  /** Lower rank wins, then lower cost, then earlier discovery. */
  predicate Preferable(rank: Word, a: Node, rank': Word, b: Node) {
    || rank < rank'
    || (rank == rank' && a.cost < b.cost)
    || (rank == rank' && a.cost == b.cost && a.sequence < b.sequence)
  }

  ghost function Consider(c: Config, s: Search, v: nat): (s': Search)
    requires Indexed(s) && v < |s.nodes|
    ensures Indexed(s')
  {
    if !c.options.returnPartial then s
    else
      var rank := c.adapter.partialRank(s.nodes[v].state);
      if s.best.None?
         || Preferable(rank, s.nodes[v], s.best.value.rank, s.nodes[s.best.value.node]) then
        s.(best := Some(Best(v, rank)))
      else
        s
  }

  /** A state seen for the first time. */
  ghost function Discover(c: Config, s: Search, a: nat, t: Transition, g: Word): (s': Search)
    requires Indexed(s)
    ensures Indexed(s')
  {
    var h := Score(c, t.state);
    var node := Node(t.state, g, h, Priority(c.options.algorithm, g, h), t.data, Some(a), |s.nodes|, false);
    Consider(c, s.(nodes := s.nodes + [node], open := s.open + {|s.nodes|}), |s.nodes|)
  }

  /** A known state reached more cheaply; a closed one is reopened. */
  ghost function Lower(c: Config, s: Search, a: nat, v: nat, t: Transition, g: Word): (s': Search)
    requires Indexed(s) && v < |s.nodes|
    ensures Indexed(s')
  {
    var n := s.nodes[v];
    var node := n.(cost := g, priority := Priority(c.options.algorithm, g, n.heuristic),
                   data := t.data, parent := Some(a), closed := false);
    Consider(c,
             s.(nodes := s.nodes[v := node], open := if n.closed then s.open + {v} else s.open),
             v)
  }

  /** A transition to the state of node `v`, which costs `g` that way. */
  ghost function Rediscover(c: Config, s: Search, a: nat, v: nat, t: Transition, g: Word): (s': Search)
    requires Indexed(s) && v < |s.nodes|
    ensures Indexed(s')
  {
    if g >= s.nodes[v].cost then s
    else if s.nodes[v].closed && LimitHit(c.options.maxFrontier, |s.open|) then Halt(s, LimitReached, AtLimit)
    else Lower(c, s, a, v, t, g)
  }

  ghost predicate Crowded(c: Config, s: Search) {
    LimitHit(c.options.maxGenerated, |s.nodes|) || LimitHit(c.options.maxFrontier, |s.open|)
  }

  /** A transition out of node `a` that arrives at cost `g`. */
  ghost function Arrive(c: Config, s: Search, a: nat, t: Transition, g: Word): (s': Search)
    requires Indexed(s)
    ensures Indexed(s')
  {
    match Find(s.nodes, t.state)
    case Some(v) => Rediscover(c, s, a, v, t, g)
    case None => if Crowded(c, s) then Halt(s, LimitReached, AtLimit) else Discover(c, s, a, t, g)
  }

  ghost function Relax(c: Config, s: Search, a: nat, t: Transition): (s': Search)
    requires Indexed(s) && a < |s.nodes|
    ensures Indexed(s')
  {
    var w := StepCost(c, t);
    if UINT64_MAX - s.nodes[a].cost < w then
      Halt(s, CostOverflow, Overflowed)
    else
      Arrive(c, s, a, t, s.nodes[a].cost + w)
  }

  /** The checks every emission passes before it is looked at; only counters and the stop change. */
  ghost function Admit(c: Config, s: Search, e: Option<Transition>): Search {
    if e.None? then Halt(s, AdapterError, AdapterFailed)
    else
      var polled := s.(polls := s.polls + 1);
      if c.adapter.cancelled(s.polls) then Halt(polled, Cancelled, WasCancelled)
      else if LimitHit(c.options.maxTransitions, s.examined) then Halt(polled, LimitReached, AtLimit)
      else polled.(examined := s.examined + 1)
  }

  /** What one call of the emit callback does while node `a` is being expanded. */
  ghost function Emit(c: Config, s: Search, a: nat, e: Option<Transition>): (s': Search)
    requires Indexed(s) && a < |s.nodes|
    ensures Indexed(s') && |s.nodes| <= |s'.nodes|
  {
    if s.stop.Some? then s
    else
      var s1 := Admit(c, s, e);
      if s1.stop.Some? then s1 else Relax(c, s1, a, e.value)
  }

  /** The emit callback bound to the node being expanded. */
  ghost function Emitter(c: Config, a: nat): (Search, Option<Transition>) -> Search {
    (s: Search, e) => if Indexed(s) && a < |s.nodes| then Emit(c, s, a, e) else s
  }

  ghost function Close(s: Search, n: nat): (s': Search)
    requires Indexed(s) && n < |s.nodes|
    ensures Indexed(s')
  {
    s.(nodes := s.nodes[n := s.nodes[n].(closed := true)], open := s.open - {n}, expanded := s.expanded + 1)
  }

  lemma FoldIndexed(c: Config, s: Search, a: nat, es: seq<Option<Transition>>, k: nat)
    requires Indexed(s) && k <= |es|
    ensures Indexed(Fold(Emitter(c, a), s, es, k))
  {
    var P := (s': Search, j: nat) => Indexed(s');
    FoldKeeps(Emitter(c, a), s, es, k, P);
  }

  /** Enumerates the neighbours of node `n`, which is closed first. */
  ghost function Expand(c: Config, s: Search, n: nat): (s': Search)
    requires Indexed(s) && n < |s.nodes|
    ensures Indexed(s')
  {
    var es := c.adapter.neighbors(s.nodes[n].state);
    var s' := Fold(Emitter(c, n), Close(s, n), es, |es|);
    FoldIndexed(c, Close(s, n), n, es, |es|);
    if s'.stop.None? && !c.adapter.enumerates(s.nodes[n].state) then
      Halt(s', AdapterError, AdapterFailed)
    else
      s'
  }

  /** One iteration of the main loop; a stopped search stays as it is. */
  ghost function Step(c: Config, s: Search): (s': Search)
    requires Indexed(s)
    ensures Indexed(s')
  {
    if s.stop.Some? then s
    else if s.open == {} then Halt(s, NoPath, Exhausted)
    else
      var polled := s.(polls := s.polls + 1);
      if c.adapter.cancelled(s.polls) then Halt(polled, Cancelled, WasCancelled)
      else
        var n := Least(s.nodes, s.open);
        if c.adapter.goal(s.nodes[n].state) then
          polled.(open := s.open - {n}, stop := Some(Stop(Found, AtGoal, Some(n))))
        else if LimitHit(c.options.maxExpanded, s.expanded) then
          Halt(polled.(open := s.open - {n}), LimitReached, AtLimit)
        else
          Expand(c, polled, n)
  }

  /** The iteration from `s` to `s'` expands the least open node. */
  ghost predicate Expands(c: Config, s: Search, s': Search)
    requires Indexed(s)
  {
    && s.stop.None? && s.open != {} && !c.adapter.cancelled(s.polls) && !LimitHit(c.options.maxExpanded, s.expanded)
    && !c.adapter.goal(s.nodes[Least(s.nodes, s.open)].state)
    && s' == Expand(c, s.(polls := s.polls + 1), Least(s.nodes, s.open))
  }

  /** An iteration that does not stop the search expands a node; any other leaves the table alone. */
  lemma StepExpands(c: Config, s: Search) returns (s': Search)
    requires Indexed(s)
    ensures s' == Step(c, s)
    ensures s'.stop.None? ==> Expands(c, s, s')
    ensures Expands(c, s, s') || s'.nodes == s.nodes
  {
    var polled := s.(polls := s.polls + 1);
    if s.stop.Some? {
      s' := s;
    } else if s.open == {} {
      s' := Halt(s, NoPath, Exhausted);
    } else if c.adapter.cancelled(s.polls) {
      s' := Halt(polled, Cancelled, WasCancelled);
    } else {
      var n := Least(s.nodes, s.open);
      if c.adapter.goal(s.nodes[n].state) {
        s' := polled.(open := s.open - {n}, stop := Some(Stop(Found, AtGoal, Some(n))));
      } else if LimitHit(c.options.maxExpanded, s.expanded) {
        s' := Halt(polled.(open := s.open - {n}), LimitReached, AtLimit);
      } else {
        s' := Expand(c, polled, n);
      }
    }
  }

  ghost function Initial(c: Config): (s: Search)
    ensures Indexed(s)
  {
    var h := Score(c, c.start);
    var root := Node(c.start, 0, h, Priority(c.options.algorithm, 0, h), 0, None, 0, false);
    Consider(c, Search([root], {0}, 0, 0, 0, None, None), 0)
  }

  /** The main loop's body as a total function. */
  ghost function Stepper(c: Config): Search -> Search {
    (s: Search) => if Indexed(s) then Step(c, s) else s
  }

  /** The search after `n` iterations of its main loop. */
  ghost function After(c: Config, n: nat): Search {
    Iterate(Stepper(c), Initial(c), n)
  }
}
