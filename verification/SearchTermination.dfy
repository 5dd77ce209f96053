/**
 Every search ends, for all four algorithms, without any budget, although closed
 nodes may be reopened any number of times.
 */
module SearchTermination {
  import opened Folds
  import opened PathGraph
  import opened SearchModel
  import opened SearchInvariant
  import opened SearchTheorems
  import opened Wrappers

  ghost function TotalCost(nodes: seq<Node>): nat {
    if nodes == [] then 0 else TotalCost(nodes[..|nodes| - 1]) + nodes[|nodes| - 1].cost
  }

  lemma {:induction false} TotalCostUpdate(nodes: seq<Node>, v: nat, node: Node)
    requires v < |nodes|
    ensures TotalCost(nodes[v := node]) == TotalCost(nodes) - nodes[v].cost + node.cost
    decreases |nodes|
  {
    var k := |nodes| - 1;
    if v == k {
      assert nodes[v := node][..k] == nodes[..k];
    } else {
      assert nodes[v := node][..k] == nodes[..k][v := node];
      TotalCostUpdate(nodes[..k], v, node);
    }
  }

  /** Distinct values below `n` number at most `n`. */
  lemma {:induction false} Pigeonhole(xs: seq<int>, n: nat)
    requires forall i :: 0 <= i < |xs| ==> 0 <= xs[i] < n
    requires NoRepeats(xs)
    ensures |xs| <= n
    decreases n
  {
    assert xs != [] ==> 0 <= xs[0] < n;
    if n > 0 {
      if i :| 0 <= i < |xs| && xs[i] == n - 1 {
        var rest := xs[..i] + xs[i + 1..];
        Pigeonhole(rest, n - 1);
      } else {
        Pigeonhole(xs, n - 1);
      }
    }
  }

  lemma NodesBounded(nodes: seq<Node>)
    requires Distinct(nodes)
    ensures |nodes| <= UINT64_MAX + 1
  {
    var states := seq(|nodes|, i requires 0 <= i < |nodes| => nodes[i].state as int);
    forall i, j | 0 <= i < j < |states| ensures states[i] != states[j] {
      assert Differ(nodes, i, j);
    }
    Pigeonhole(states, UINT64_MAX + 1);
  }

  /** No emission makes the pair (undiscovered states, stored costs) larger. */
  ghost predicate NoRegress(s: Search, s': Search) {
    || |s'.nodes| > |s.nodes|
    || (|s'.nodes| == |s.nodes| && TotalCost(s'.nodes) < TotalCost(s.nodes))
    || (|s'.nodes| == |s.nodes| && TotalCost(s'.nodes) == TotalCost(s.nodes) && s'.open == s.open)
  }

  lemma RediscoverShrinks(c: Config, s: Search, a: nat, v: nat, t: Transition, g: Word) returns (s': Search)
    requires Indexed(s) && v < |s.nodes|
    ensures s' == Rediscover(c, s, a, v, t, g) && NoRegress(s, s')
  {
    s' := Rediscover(c, s, a, v, t, g);
    if s'.nodes != s.nodes {
      TotalCostUpdate(s.nodes, v, s'.nodes[v]);
    }
  }

  lemma RelaxShrinks(c: Config, s: Search, a: nat, t: Transition) returns (s': Search)
    requires Indexed(s) && a < |s.nodes|
    ensures s' == Relax(c, s, a, t) && NoRegress(s, s')
  {
    var g := s.nodes[a].cost + StepCost(c, t);
    var known := Find(s.nodes, t.state);
    if g > UINT64_MAX {
      s' := Halt(s, CostOverflow, Overflowed);
    } else if known.Some? {
      s' := RediscoverShrinks(c, s, a, known.value, t, g);
    } else if Crowded(c, s) {
      s' := Halt(s, LimitReached, AtLimit);
    } else {
      s' := Discover(c, s, a, t, g);
    }
  }

  lemma EmitShrinks(c: Config, s: Search, a: nat, e: Option<Transition>) returns (s': Search)
    requires Indexed(s) && a < |s.nodes|
    ensures s' == Emit(c, s, a, e)
    ensures NoRegress(s, s')
  {
    s' := Emit(c, s, a, e);
    if s.stop.None? && Admit(c, s, e).stop.None? {
      var s2 := RelaxShrinks(c, Admit(c, s, e), a, e.value);
    }
  }

  lemma EmissionsShrink(c: Config, s: Search, a: nat, es: seq<Option<Transition>>)
    ensures NoRegress(s, Fold(Emitter(c, a), s, es, |es|))
  {
    var f := Emitter(c, a);
    var P := (s1: Search, j: nat) => NoRegress(s, s1);
    forall s1: Search, j: nat | j < |es| && P(s1, j) ensures P(f(s1, es[j]), j + 1) {
      if Indexed(s1) && a < |s1.nodes| {
        var s2 := EmitShrinks(c, s1, a, es[j]);
      }
    }
    FoldKeeps(f, s, es, |es|, P);
  }

  /** The measure of the main loop, to be read lexicographically. */
  ghost predicate Smaller(s': Search, s: Search) {
    || |s'.nodes| > |s.nodes|
    || (|s'.nodes| == |s.nodes| && TotalCost(s'.nodes) < TotalCost(s.nodes))
    || (|s'.nodes| == |s.nodes| && TotalCost(s'.nodes) == TotalCost(s.nodes) && |s'.open| < |s.open|)
  }

  lemma CloseShrinks(s: Search, n: nat, s': Search)
    requires Indexed(s) && n in s.open && NoRegress(Close(s, n), s')
    ensures Smaller(s', s)
  {
    TotalCostUpdate(s.nodes, n, s.nodes[n].(closed := true));
    assert |s.open - {n}| == |s.open| - 1;
  }

  lemma ExpandShrinks(c: Config, s: Search, n: nat) returns (s': Search)
    requires Indexed(s) && n in s.open
    ensures s' == Expand(c, s, n)
    ensures s'.stop.Some? || Smaller(s', s)
  {
    s' := Expand(c, s, n);
    if s'.stop.None? {
      var es := c.adapter.neighbors(s.nodes[n].state);
      EmissionsShrink(c, Close(s, n), n, es);
      CloseShrinks(s, n, s');
    }
  }

  /** Each iteration that does not stop the search makes it smaller. */
  lemma StepShrinks(c: Config, s: Search) returns (s': Search)
    requires Indexed(s) && s.stop.None?
    ensures s' == Step(c, s)
    ensures s'.stop.Some? || Smaller(s', s)
  {
    if s.open == {} || c.adapter.cancelled(s.polls) {
      s' := Step(c, s);
    } else {
      var n := Least(s.nodes, s.open);
      if c.adapter.goal(s.nodes[n].state) || LimitHit(c.options.maxExpanded, s.expanded) {
        s' := Step(c, s);
      } else {
        s' := ExpandShrinks(c, s.(polls := s.polls + 1), n);
      }
    }
  }

  /** The next iteration is a stop or a smaller search with no more than 2^64 nodes. */
  ghost predicate Descends(f: Search -> Search, s: Search) {
    s.stop.None? ==> f(s).stop.Some? || (Smaller(f(s), s) && |f(s).nodes| <= UINT64_MAX + 1)
  }

  lemma StepDescends(c: Config, n: nat)
    ensures Descends(Stepper(c), After(c, n))
  {
    var s := After(c, n);
    AlwaysInv(c, n);
    if s.stop.None? {
      var s' := StepShrinks(c, s);
      var s'' := StepKeeps(c, s);
      NodesBounded(s'.nodes);
    }
  }

  /** A run that descends with every iteration comes to a stop. */
  lemma StopsFrom(f: Search -> Search, s0: Search, n: nat) returns (m: nat)
    requires forall k: nat :: Descends(f, Iterate(f, s0, k))
    ensures Iterate(f, s0, m).stop.Some?
    decreases UINT64_MAX + 1 - |Iterate(f, s0, n).nodes|, TotalCost(Iterate(f, s0, n).nodes), |Iterate(f, s0, n).open|
  {
    m := n;
    assert Descends(f, Iterate(f, s0, n));
    if Iterate(f, s0, n).stop.None? {
      if Iterate(f, s0, n + 1).stop.Some? {
        m := n + 1;
      } else {
        m := StopsFrom(f, s0, n + 1);
      }
    }
  }

  /** Every request has an outcome. */
  lemma EverySearchEnds(c: Config)
    ensures exists r :: Outcome(c, r)
  {
    forall k: nat ensures Descends(Stepper(c), Iterate(Stepper(c), Initial(c), k)) {
      StepDescends(c, k);
    }
    var m := StopsFrom(Stepper(c), Initial(c), 0);
    AlwaysInv(c, m);
    var r := Finish(c, After(c, m));
    assert StopsWith(c, m, r);
    assert Outcome(c, r);
  }
}
