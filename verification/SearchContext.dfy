/**
 The search context: one mutable object that owns the node table, the hash index,
 the heap and the result storage, and is reused from one request to the next.
 Every operation is proved to compute what the model says.

 The table's `heap_index` column is the sequence `slots`; growable arrays are
 sequences, so a failing allocation is not part of this model.
 */
module SearchContext {
  import opened Folds
  import opened PathGraph
  import opened SearchModel
  import opened SearchInvariant
  import opened SearchTheorems
  import opened SearchTermination
  import opened Reachability
  import opened HashIndex
  import opened HeapOrder
  import opened Wrappers

  const INITIAL_HASH := 64

  class Context {
    const mix: Word -> Word
    var nodes: seq<Node>
    var slots: seq<Option<nat>>
    var hash: seq<nat>
    var heap: seq<nat>
    var path: seq<PathStep>
    var reachable: seq<Word>
    var expanded: nat
    var generated: nat
    var examined: nat
    var polls: nat
    var best: Option<Best>
    var stop: Option<Stop>
    var reachability: bool
    var active: Option<nat>

    /** What every request may rely on, whatever the context was used for before. */
    ghost predicate Usable()
      reads this
    {
      hash == [] || (PowerOfTwo(|hash|) && 2 <= |hash|)
    }

    /** The node table is indexed by state. */
    ghost predicate Tabled()
      reads this
    {
      && |slots| == |nodes|
      && (if hash == [] then nodes == [] else IndexValid(mix, hash, nodes, |nodes|))
      && Distinct(nodes)
      && (forall i :: 0 <= i < |nodes| ==> nodes[i].sequence == i)
      && (best.Some? ==> best.value.node < |nodes|)
    }

    /** The three structures agree. */
    ghost predicate Coherent()
      reads this
    {
      Tabled() && Backed(slots, heap) && Heaped(nodes, heap)
    }

    ghost predicate Valid()
      reads this
    {
      Coherent() && generated == |nodes|
    }

    /** The model state this context represents. */
    ghost function Abs(): Search
      reads this
    {
      Search(nodes, Members(slots), expanded, examined, polls, best, stop)
    }

    constructor (mix: Word -> Word)
      ensures Usable() && this.mix == mix
    {
      this.mix := mix;
      nodes, slots, hash, heap, path, reachable := [], [], [], [], [], [];
      expanded, generated, examined, polls := 0, 0, 0, 0;
      best, stop, reachability, active := None, None, false, None;
    }

    // -------------------------------------------------------------- hash index

    /** Linear probing: the slot that holds `state`, or the free slot where it belongs. */
    method HashSlot(state: Word, ghost n: nat) returns (slot: nat)
      requires IndexValid(mix, hash, nodes, n)
      ensures slot < |hash| && hash[slot] <= n
      ensures hash[slot] != 0 ==> nodes[hash[slot] - 1].state == state
      ensures hash[slot] == 0 ==> Unbroken(hash, Home(mix, state, |hash|), slot)
      ensures hash[slot] == 0 ==> forall i :: 0 <= i < n ==> nodes[i].state != state
    {
      var capacity := |hash|;
      var home := Home(mix, state, capacity);
      slot := home;
      FreeSlot(mix, hash, nodes, n);
      ghost var free :| 0 <= free < capacity && hash[free] == 0;
      EntryBound(mix, hash, nodes, n, slot);
      while hash[slot] != 0 && nodes[hash[slot] - 1].state != state
        invariant slot < capacity && hash[slot] <= n
        invariant Distance(home, slot, capacity) <= Distance(home, free, capacity)
        invariant Passed(hash, nodes, n, home, slot, state)
        decreases Distance(home, free, capacity) - Distance(home, slot, capacity)
      {
        PassOne(hash, nodes, n, home, slot, state, free);
        slot := NextSlot(slot, capacity);
        EntryBound(mix, hash, nodes, n, slot);
      }
      if hash[slot] == 0 {
        FreeMeansAbsent(mix, hash, nodes, n, state, slot);
      }
    }

    /** A fresh table of the given capacity, with every node entered again. */
    method RebuildHash(capacity: nat) returns (ok: bool)
      requires Distinct(nodes) && 2 * |nodes| <= capacity
      modifies `hash
      ensures ok == (2 <= capacity && PowerOfTwo(capacity))
      ensures ok ==> |hash| == capacity && IndexValid(mix, hash, nodes, |nodes|)
      ensures !ok ==> hash == old(hash)
    {
      if capacity < 2 || !PowerOfTwo(capacity) {
        return false;
      }
      hash := seq(capacity, (j: nat) => 0);
      EmptyIndex(mix, hash, nodes);
      for i := 0 to |nodes|
        invariant |hash| == capacity && IndexValid(mix, hash, nodes, i)
      {
        var slot := HashSlot(nodes[i].state, i);
        forall k | 0 <= k < i ensures nodes[k].state != nodes[i].state {
          assert Differ(nodes, k, i);
        }
        InsertKeeps(mix, hash, nodes, i, slot);
        hash := hash[slot := i + 1];
      }
      return true;
    }

    /** Makes room for one more node, doubling the table when it would get more than half full. */
    method PrepareHash()
      requires Distinct(nodes) && if hash == [] then nodes == [] else IndexValid(mix, hash, nodes, |nodes|)
      modifies `hash
      ensures IndexValid(mix, hash, nodes, |nodes|) && 2 * (|nodes| + 1) <= |hash|
    {
      var ok;
      if |hash| == 0 {
        assert PowerOfTwo(INITIAL_HASH);
        ok := RebuildHash(INITIAL_HASH);
      } else if |nodes| + 1 > |hash| / 2 {
        DoublingKeepsPower(|hash|);
        ok := RebuildHash(2 * |hash|);
      }
    }

    /** Looks a state up through the index. */
    method FindNode(state: Word) returns (r: Option<nat>)
      requires Coherent()
      ensures r == Find(nodes, state)
    {
      if |hash| == 0 {
        return None;
      }
      var slot := HashSlot(state, |nodes|);
      r := if hash[slot] == 0 then None else Some(hash[slot] - 1);
      if r.Some? {
        FindUnique(nodes, state, r.value);
      }
    }

    /** Appends a node and enters it in the index. */
    method AddNode(node: Node) returns (index: nat)
      requires Coherent() && node.sequence == |nodes|
      requires forall i :: 0 <= i < |nodes| ==> nodes[i].state != node.state
      modifies `nodes, `slots, `hash
      ensures Coherent() && index == |old(nodes)|
      ensures nodes == old(nodes) + [node] && slots == old(slots) + [None]
    {
      PrepareHash();
      index := |nodes|;
      DistinctSnoc(nodes, node);
      LongerTable(nodes, heap, node);
      IndexIgnoresCosts(mix, hash, nodes, nodes + [node], index);
      nodes := nodes + [node];
      slots := slots + [None];
      var slot := HashSlot(node.state, index);
      InsertKeeps(mix, hash, nodes, index, slot);
      hash := hash[slot := index + 1];
    }

    /** Rewrites a node; its state, and with it its place in the index, stays. */
    method SetNode(v: nat, node: Node)
      requires Tabled() && v < |nodes| && node.state == nodes[v].state && node.sequence == v
      modifies `nodes
      ensures Tabled() && nodes == old(nodes)[v := node]
    {
      ghost var before := nodes;
      nodes := nodes[v := node];
      IndexIgnoresCosts(mix, hash, before, nodes, |nodes|);
      forall i, j | 0 <= i < j < |nodes| ensures Differ(nodes, i, j) {
        assert Differ(before, i, j);
      }
    }

    // -------------------------------------------------------------- indexed heap

    method HeapSwap(left: nat, right: nat)
      requires Backed(slots, heap) && left < |heap| && right < |heap|
      modifies `heap, `slots
      ensures Backed(slots, heap) && |slots| == |old(slots)|
      ensures heap == Swapped(old(heap), left, right)
      ensures Members(slots) == old(Members(slots))
    {
      var temporary := heap[left];
      heap := heap[left := heap[right]];
      heap := heap[right := temporary];
      slots := slots[heap[left] := Some(left)];
      slots := slots[heap[right] := Some(right)];
    }

    /** Moves the entry of slot `start` up to where it belongs. */
    method HeapUp(start: nat)
      requires |slots| == |nodes| && Backed(slots, heap)
      requires start < |heap| && HeapedBelow(nodes, heap, start)
      modifies `heap, `slots
      ensures |slots| == |nodes| && Backed(slots, heap) && Heaped(nodes, heap)
      ensures Members(slots) == old(Members(slots))
    {
      var position: nat := start;
      while position != 0
        invariant |slots| == |nodes| && Backed(slots, heap)
        invariant position < |heap| && HeapedBelow(nodes, heap, position)
        invariant Members(slots) == old(Members(slots))
        decreases position
      {
        var parent := Parent(position);
        if !Before(nodes[heap[position]], nodes[heap[parent]]) {
          break;
        }
        SwapUp(nodes, heap, position);
        HeapSwap(position, parent);
        position := parent;
      }
    }

    /** Which of a slot and its two children comes first. */
    method Foremost(position: nat) returns (first: nat)
      requires InTable(nodes, heap) && position < |heap|
      ensures first == position ==>
        forall q :: 0 < q < |heap| && Parent(q) == position ==> InOrder(nodes, heap, position, q)
      ensures first != position ==>
        FirstChild(nodes, heap, position, first) && Before(nodes[heap[first]], nodes[heap[position]])
    {
      var left := position * 2 + 1;
      first := position;
      if left < |heap| && Before(nodes[heap[left]], nodes[heap[first]]) {
        first := left;
      }
      if left + 1 < |heap| && Before(nodes[heap[left + 1]], nodes[heap[first]]) {
        first := left + 1;
      }
      Children(heap, position);
    }

    /** Moves the entry of slot `start` down to where it belongs. */
    method HeapDown(start: nat)
      requires |slots| == |nodes| && Backed(slots, heap)
      requires start < |heap| && HeapedAbove(nodes, heap, start)
      modifies `heap, `slots
      ensures |slots| == |nodes| && Backed(slots, heap) && Heaped(nodes, heap)
      ensures Members(slots) == old(Members(slots))
    {
      var position: nat := start;
      while true
        invariant |slots| == |nodes| && Backed(slots, heap)
        invariant position < |heap| && HeapedAbove(nodes, heap, position)
        invariant Members(slots) == old(Members(slots))
        decreases |heap| - position
      {
        var first := Foremost(position);
        if first == position {
          HoleClosed(nodes, heap, position);
          break;
        }
        SwapDown(nodes, heap, position, first);
        HeapSwap(position, first);
        position := first;
      }
    }

    method HeapPush(node: nat)
      requires |slots| == |nodes| && Backed(slots, heap) && Heaped(nodes, heap)
      requires node < |nodes| && slots[node].None?
      modifies `heap, `slots
      ensures |slots| == |nodes| && Backed(slots, heap) && Heaped(nodes, heap)
      ensures Members(slots) == old(Members(slots)) + {node}
    {
      var last := |heap|;
      heap := heap + [node];
      slots := slots[node := Some(last)];
      assert Members(slots) == old(Members(slots)) + {node};
      forall p | 0 < p < |heap| && p != last ensures InOrder(nodes, heap, Parent(p), p) {
        assert InOrder(nodes, old(heap), Parent(p), p);
      }
      HeapUp(last);
    }

    /** Removes the least open node. */
    method HeapPop() returns (node: nat)
      requires |slots| == |nodes| && Backed(slots, heap) && Heaped(nodes, heap) && heap != []
      requires forall i :: 0 <= i < |nodes| ==> nodes[i].sequence == i
      modifies `heap, `slots
      ensures |slots| == |nodes| && Backed(slots, heap) && Heaped(nodes, heap)
      ensures old(Members(slots)) != {} && node == Least(nodes, old(Members(slots)))
      ensures Members(slots) == old(Members(slots)) - {node}
    {
      node := heap[0];
      RootIsLeast(nodes, slots, heap);
      LeastUnique(nodes, Members(slots), node, Least(nodes, Members(slots)));
      var last := |heap| - 1;
      var moved := heap[last];
      if last != 0 {
        LastMoves(nodes, slots, heap);
      }
      slots := slots[node := None];
      heap := heap[..last];
      if last != 0 {
        heap := heap[0 := moved];
        slots := slots[moved := Some(0)];
        HeapDown(0);
      }
    }

    // -------------------------------------------------------------- emissions

    method Stopped(status: Status, termination: Termination)
      modifies `stop
      ensures Abs() == Halt(old(Abs()), status, termination)
    {
      stop := Some(Stop(status, termination, None));
    }

    method ConsiderPartial(c: Config, v: nat)
      requires Indexed(Abs()) && v < |nodes|
      modifies `best
      ensures Abs() == Consider(c, old(Abs()), v)
    {
      if !c.options.returnPartial {
        return;
      }
      var rank := c.adapter.partialRank(nodes[v].state);
      if best.None? || Preferable(rank, nodes[v], best.value.rank, nodes[best.value.node]) {
        best := Some(Best(v, rank));
      }
    }

    /** The search's half of the emit callback: discovers a state or lowers its cost. */
    method RelaxTransition(c: Config, a: nat, t: Transition)
      requires Valid() && stop.None? && a < |nodes|
      requires AllLowerable(c, nodes, slots)
      modifies `nodes, `slots, `hash, `heap, `generated, `best, `stop
      ensures Valid()
      ensures Abs() == Relax(c, old(Abs()), a, t)
    {
      ghost var next := RelaxSplits(c, Abs(), a, t);
      RelaxInto(c, a, t, next);
    }

    /** The relaxation proper; `next` is what the model makes of it. */
    method RelaxInto(c: Config, a: nat, t: Transition, ghost next: Search)
      requires Valid() && stop.None? && a < |nodes| && AllLowerable(c, nodes, slots)
      requires var g := nodes[a].cost + StepCost(c, t);
               next == if g > UINT64_MAX then Halt(Abs(), CostOverflow, Overflowed) else Arrive(c, Abs(), a, t, g)
      modifies `nodes, `slots, `hash, `heap, `generated, `best, `stop
      ensures Valid() && Abs() == next
    {
      var stepCost := if c.options.algorithm == BreadthFirst then 1 else t.cost;
      if UINT64_MAX - nodes[a].cost < stepCost {
        Stopped(CostOverflow, Overflowed);
        return;
      }
      RelaxTentative(c, a, t, nodes[a].cost + stepCost);
    }

    /** Looks the state up, now that its tentative cost is known not to overflow. */
    method RelaxTentative(c: Config, a: nat, t: Transition, tentative: Word)
      requires Valid() && AllLowerable(c, nodes, slots)
      modifies `nodes, `slots, `hash, `heap, `generated, `best, `stop
      ensures Valid() && Abs() == Arrive(c, old(Abs()), a, t, tentative)
    {
      var index := FindNode(t.state);
      if index.None? {
        RelaxNew(c, a, t, tentative);
      } else {
        assert Lowerable(c, nodes, slots, index.value);
        RelaxKnown(c, a, index.value, t, tentative);
      }
    }

    method RelaxNew(c: Config, a: nat, t: Transition, g: Word)
      requires Valid()
      requires forall i :: 0 <= i < |nodes| ==> nodes[i].state != t.state
      modifies `nodes, `slots, `hash, `heap, `generated, `best, `stop
      ensures Valid()
      ensures Abs() == if Crowded(c, old(Abs())) then Halt(old(Abs()), LimitReached, AtLimit)
                       else Discover(c, old(Abs()), a, t, g)
    {
      MembersCount(slots, heap);
      if LimitHit(c.options.maxGenerated, generated) || LimitHit(c.options.maxFrontier, |heap|) {
        Stopped(LimitReached, AtLimit);
      } else {
        DiscoverState(c, a, t, g);
      }
    }

    method RelaxKnown(c: Config, a: nat, v: nat, t: Transition, g: Word)
      requires Valid() && v < |nodes|
      requires Lowerable(c, nodes, slots, v)
      modifies `nodes, `slots, `heap, `best, `stop
      ensures Valid()
      ensures Abs() == Rediscover(c, old(Abs()), a, v, t, g)
    {
      if g >= nodes[v].cost {
        return;
      }
      MembersCount(slots, heap);
      if nodes[v].closed && LimitHit(c.options.maxFrontier, |heap|) {
        Stopped(LimitReached, AtLimit);
      } else {
        LowerCost(c, a, v, t, g);
      }
    }

    method DiscoverState(c: Config, a: nat, t: Transition, g: Word)
      requires Valid()
      requires forall i :: 0 <= i < |nodes| ==> nodes[i].state != t.state
      modifies `nodes, `slots, `hash, `heap, `generated, `best
      ensures Valid()
      ensures Abs() == Discover(c, old(Abs()), a, t, g)
    {
      var h := if UsesHeuristic(c.options.algorithm) then c.adapter.heuristic(t.state) else 0;
      var node := Node(t.state, g, h, Priority(c.options.algorithm, g, h), t.data, Some(a), |nodes|, false);
      var index := AddNode(node);
      generated := generated + 1;
      assert Members(slots) == old(Members(slots));
      ConsiderPartial(c, index);
      HeapPush(index);
    }

    method LowerCost(c: Config, a: nat, v: nat, t: Transition, g: Word)
      requires Valid() && v < |nodes| && g < nodes[v].cost
      requires Lowerable(c, nodes, slots, v)
      modifies `nodes, `slots, `heap, `best
      ensures Valid()
      ensures Abs() == Lower(c, old(Abs()), a, v, t, g)
    {
      ghost var s := Abs();
      var node := nodes[v];
      SetNode(v, node.(cost := g, priority := Priority(c.options.algorithm, g, node.heuristic),
                       data := t.data, parent := Some(a)));
      ConsiderPartial(c, v);
      if node.closed {
        UnlistedHeap(s.nodes, heap, v, nodes[v]);
        Reopen(v);
      } else {
        CheapenedHeap(s.nodes, heap, slots[v].value, nodes[v]);
        Advance(v);
      }
      ReopenedLater(c, s, a, v, t, g);
    }

    /** Restores the heap after the priority of an open node has dropped. */
    method Advance(v: nat)
      requires Tabled() && Backed(slots, heap) && v < |slots| && slots[v].Some?
      requires HeapedBelow(nodes, heap, slots[v].value)
      modifies `slots, `heap
      ensures Coherent() && Members(slots) == old(Members(slots))
    {
      HeapUp(slots[v].value);
    }

    /** Puts a closed node back on the heap. */
    method Reopen(v: nat)
      requires Coherent() && v < |nodes| && slots[v].None?
      modifies `nodes, `slots, `heap
      ensures Coherent() && nodes == old(nodes)[v := old(nodes)[v].(closed := false)]
      ensures Members(slots) == old(Members(slots)) + {v}
    {
      UnlistedHeap(nodes, heap, v, nodes[v].(closed := false));
      SetNode(v, nodes[v].(closed := false));
      HeapPush(v);
    }

    /** The traversal's half of the emit callback: lists a state not seen before. */
    method VisitTransition(c: Config, a: nat, t: Transition)
      requires Valid() && stop.None?
      modifies `nodes, `slots, `hash, `generated, `stop
      ensures Valid() && |nodes| >= |old(nodes)|
      ensures Abs() == Visit(c, old(Abs()), a, t)
    {
      var known := FindNode(t.state);
      if known.Some? {
        return;
      }
      if LimitHit(c.options.maxGenerated, generated) || LimitHit(c.options.maxFrontier, |nodes| - expanded) {
        Stopped(LimitReached, AtLimit);
        return;
      }
      var index := AddNode(Node(t.state, 0, 0, 0, t.data, Some(a), |nodes|, false));
      generated := generated + 1;
      assert Members(slots) == old(Members(slots));
    }

    /** What the emit callback relies on after `k` emissions of `node`. */
    ghost predicate Emitting(c: Config, node: Node, k: nat)
      reads this
    {
      && active.Some? && active.value < |nodes|
      && (!reachability ==> Enumeration(c, active.value, node)(Abs(), k))
    }

    /** The k-th emission of a node; `go` is the callback's answer. */
    method EmitTransition(c: Config, transition: Option<Transition>, ghost node: Node, ghost k: nat,
                          ghost step: (Search, Option<Transition>) -> Search) returns (go: bool)
      requires Valid() && Emitting(c, node, k) && step == Emission(c, reachability, active.value)
      requires k < |c.adapter.neighbors(node.state)| && transition == c.adapter.neighbors(node.state)[k]
      modifies this
      ensures Valid() && reachability == old(reachability) && active == old(active) && Emitting(c, node, k + 1)
      ensures Abs() == step(old(Abs()), transition)
      ensures go == stop.None?
    {
      ghost var s, a := Abs(), active.value;
      if !reachability {
        EnumeratedNext(c, s, a, node, k, transition);
        PartitionedIsLowerable(c, nodes, slots);
      }
      if stop.Some? {
        return false;
      }
      go := EmitWhileRunning(c, transition);
    }

    method EmitWhileRunning(c: Config, transition: Option<Transition>) returns (go: bool)
      requires Valid() && stop.None? && active.Some? && active.value < |nodes|
      requires !reachability ==> AllLowerable(c, nodes, slots)
      modifies this
      ensures Valid() && reachability == old(reachability) && active == old(active)
      ensures Abs() == if reachability then EmitVisit(c, old(Abs()), active.value, transition)
                       else Emit(c, old(Abs()), active.value, transition)
      ensures go == stop.None?
      ensures reachability ==> |nodes| >= |old(nodes)|
    {
      AdmitTransition(c, transition);
      if stop.Some? {
        return false;
      }
      if reachability {
        VisitTransition(c, active.value, transition.value);
      } else {
        RelaxTransition(c, active.value, transition.value);
      }
      return stop.None?;
    }

    /** The checks that every emission passes first. */
    method AdmitTransition(c: Config, transition: Option<Transition>)
      requires stop.None?
      modifies `stop, `polls, `examined
      ensures Abs() == Admit(c, old(Abs()), transition) && (stop.None? ==> transition.Some?)
    {
      if transition.None? {
        Stopped(AdapterError, AdapterFailed);
        return;
      }
      polls := polls + 1;
      if c.adapter.cancelled(polls - 1) {
        Stopped(Cancelled, WasCancelled);
        return;
      }
      if LimitHit(c.options.maxTransitions, examined) {
        Stopped(LimitReached, AtLimit);
        return;
      }
      examined := examined + 1;
    }

    /**
     The adapter enumerating a state.  It may go on emitting after it was told to
     stop; that changes nothing.
     */
    method Enumerate(c: Config, ghost step: (Search, Option<Transition>) -> Search) returns (enumerated: bool)
      requires active.Some? && active.value < |nodes|
      requires Valid() && Emitting(c, nodes[active.value], 0)
      requires step == Emission(c, reachability, active.value)
      modifies this
      ensures Valid() && reachability == old(reachability) && active == old(active)
      ensures var es := c.adapter.neighbors(old(nodes)[active.value].state);
        Abs() == Fold(step, old(Abs()), es, |es|)
      ensures stop.None? ==> enumerated == c.adapter.enumerates(old(nodes)[active.value].state)
    {
      ghost var s0 := Abs();
      var node := nodes[active.value];
      var es := c.adapter.neighbors(node.state);
      for k := 0 to |es|
        invariant Valid() && Emitting(c, node, k)
        invariant active == old(active) && reachability == old(reachability)
        invariant Abs() == Fold(step, s0, es, k)
      {
        var go := EmitTransition(c, es[k], node, k, step);
        if !go && !c.adapter.ignoresStop {
          StoppedEmission(c, reachability, active.value, Abs(), step);
          FoldStays(step, s0, es, k + 1, |es|);
          return false;
        }
      }
      return c.adapter.enumerates(node.state);
    }

    // -------------------------------------------------------------- results

    /** Copies the chain of parent links into the path storage, last step first. */
    method BuildPath(c: Config, node: nat) returns (steps: seq<PathStep>)
      requires AllLinked(c, nodes) && HasDepth(nodes, node)
      modifies `path
      ensures steps == PathTo(nodes, node)
    {
      ghost var d := Depth(nodes, node);
      ghost var chain := ChainSteps(nodes, node, d);
      var count := 0;
      var current: Option<nat> := Some(node);
      while current.Some?
        invariant count <= d + 1
        invariant current.Some? ==> count <= d && Rooted(nodes, current.value, d - count)
        invariant current.None? ==> count == d + 1
        decreases d + 1 - count
      {
        assert Linked(c, nodes, current.value);
        count := count + 1;
        current := nodes[current.value].parent;
      }
      if count > |path| {
        path := path + seq(count - |path|, (i: nat) => PathStep(0, 0));
      }
      current := Some(node);
      var i := count;
      while i != 0
        invariant 0 <= i <= count <= |path| && count == d + 1
        invariant i > 0 ==> current.Some? && Rooted(nodes, current.value, i - 1)
        invariant i > 0 ==> chain[..i] == ChainSteps(nodes, current.value, i - 1)
        invariant forall j :: i <= j < count ==> path[j] == chain[j]
        decreases i
      {
        assert Linked(c, nodes, current.value);
        var n := nodes[current.value];
        assert chain[i - 1] == chain[..i][i - 1];
        assert chain[..i - 1] == chain[..i][..i - 1];
        path := path[i - 1 := PathStep(n.state, n.data)];
        current := n.parent;
        i := i - 1;
      }
      ChainHead(nodes, node, d);
      path := path[0 := path[0].(data := 0)];
      assert path[..count] == chain;
      steps := path[..count];
    }

    /** The result of a search that ends with `verdict`. */
    method FinishSearch(c: Config, verdict: Stop) returns (r: Result)
      requires Valid() && Inv(c, Abs().(stop := Some(verdict)))
      modifies `path
      ensures r == Finish(c, Abs().(stop := Some(verdict)))
    {
      r := Result(verdict.status, verdict.termination, [], expanded, generated, examined, 0);
      if verdict.node.Some? {
        if verdict.node.value < |nodes| {
          assert HasDepth(nodes, verdict.node.value);
          var steps := BuildPath(c, verdict.node.value);
          r := r.(steps := steps, totalCost := nodes[verdict.node.value].cost);
        }
      } else if c.options.returnPartial && best.Some? && AllowsPartial(verdict.termination) {
        assert HasDepth(nodes, best.value.node);
        var steps := BuildPath(c, best.value.node);
        r := r.(status := Partial, steps := steps, totalCost := nodes[best.value.node].cost);
      }
    }

    // -------------------------------------------------------------- requests

    /** Forgets the previous request; the index keeps its capacity. */
    method Reset()
      requires Usable()
      modifies this
      ensures Coherent() && nodes == [] && heap == [] && slots == []
      ensures expanded == generated == examined == polls == 0
      ensures best.None? && stop.None? && !reachability && active.None?
    {
      ClearTable();
      expanded, generated, examined, polls := 0, 0, 0, 0;
      stop, reachability, active := None, false, None;
    }

    method ClearTable()
      requires Usable()
      modifies `nodes, `slots, `heap, `hash, `best
      ensures Coherent() && nodes == [] && heap == [] && slots == [] && best.None?
    {
      nodes, slots, heap, best := [], [], [], None;
      if |hash| != 0 {
        hash := seq(|hash|, (j: nat) => 0);
        EmptyIndex(mix, hash, nodes);
      }
    }

    /** Enters the start state and opens it. */
    method Begin(c: Config)
      requires Usable()
      modifies this
      ensures Valid() && !reachability && Abs() == Initial(c)
    {
      Reset();
      var h := if UsesHeuristic(c.options.algorithm) then c.adapter.heuristic(c.start) else 0;
      Enter(Node(c.start, 0, h, Priority(c.options.algorithm, 0, h), 0, None, 0, false));
      ConsiderPartial(c, 0);
    }

    method Enter(root: Node)
      requires Coherent() && nodes == [] && slots == [] && heap == [] && root.sequence == 0
      modifies `nodes, `slots, `hash, `heap, `generated
      ensures Valid() && nodes == [root] && Members(slots) == {0}
    {
      var index := AddNode(root);
      HeapPush(index);
      generated := 1;
    }

    /**
     One turn of the main loop.  A verdict says with which outcome, and for which
     node, the search is over.
     */
    method Turn(c: Config, ghost next: Search) returns (verdict: Option<Stop>)
      requires Valid() && !reachability && stop.None? && heap != [] && Inv(c, Abs())
      requires next == Step(c, Abs())
      modifies this
      ensures Valid() && !reachability
      ensures verdict.None? ==> stop.None? && Abs() == next
      ensures verdict.Some? ==> Abs().(stop := verdict) == next
    {
      ghost var s := Abs();
      MembersCount(slots, heap);
      polls := polls + 1;
      if c.adapter.cancelled(polls - 1) {
        return Some(Stop(Cancelled, WasCancelled, None));
      }
      var node := HeapPop();
      if c.adapter.goal(nodes[node].state) {
        return Some(Stop(Found, AtGoal, Some(node)));
      }
      if LimitHit(c.options.maxExpanded, expanded) {
        return Some(Stop(LimitReached, AtLimit, None));
      }
      var ok := ExpandNode(c, node, s.(polls := s.polls + 1));
      if !ok || stop.Some? {
        if stop.None? {
          Stopped(AdapterError, AdapterFailed);
        }
        return stop;
      }
      return None;
    }

    /** Closes the popped node and enumerates its transitions. */
    method ExpandNode(c: Config, node: nat, ghost s: Search) returns (enumerated: bool)
      requires Valid() && !reachability && stop.None?
      requires Structure(c, s) && Frontier(c, s.nodes, s.open) && node in s.open && !c.adapter.goal(s.nodes[node].state)
      requires Abs() == s.(open := s.open - {node})
      modifies this
      ensures Valid() && !reachability
      ensures if stop.Some? || enumerated then Abs() == Expand(c, s, node)
              else Halt(Abs(), AdapterError, AdapterFailed) == Expand(c, s, node)
    {
      SetNode(node, nodes[node].(closed := true));
      expanded := expanded + 1;
      active := Some(node);
      CloseKeepsTable(c, s.nodes, s.best, node);
      CloseKeepsFrontier(c, s.nodes, s.open, node);
      UnlistedHeap(old(nodes), heap, node, nodes[node]);
      assert Abs() == Close(s, node);
      enumerated := Enumerate(c, Emission(c, reachability, active.value));
      active := None;
    }

    /** The main loop: turns until one gives a verdict or the heap is empty. */
    method Loop(c: Config, ghost run: nat -> Search) returns (verdict: Stop, ghost n: nat)
      requires IsRun(c, run) && Inv(c, run(0))
      requires Valid() && !reachability && stop.None? && Abs() == run(0)
      modifies this
      ensures Valid() && Inv(c, run(n)) && Abs().(stop := Some(verdict)) == run(n)
    {
      n := 0;
      while |heap| != 0
        invariant Valid() && !reachability && stop.None?
        invariant Abs() == run(n) && Inv(c, run(n))
        decreases UINT64_MAX + 1 - |nodes|, TotalCost(nodes), |Members(slots)|
      {
        ghost var next := NextTurn(c, run, n);
        var ended := Turn(c, next);
        n := n + 1;
        if ended.Some? {
          return ended.value, n;
        }
      }
      MembersCount(slots, heap);
      ghost var next := NextTurn(c, run, n);
      return Stop(NoPath, Exhausted, None), n + 1;
    }

    /** Finds a route.  The context may have served any request before. */
    method FindRoute(c: Config) returns (r: Result)
      requires Usable()
      modifies this
      ensures Usable()
      ensures if ValidRequest(c) then Outcome(c, r)
              else r == Result(InvalidInput, BadInput, [], 0, 0, 0, 0)
      ensures r.status == InvalidInput <==>
        || Neighbors !in c.adapter.provided || Goal !in c.adapter.provided
        || (c.options.algorithm in {AStar, GreedyBestFirst} && Heuristic !in c.adapter.provided)
        || (c.options.returnPartial && PartialRank !in c.adapter.provided)
    {
      if !ValidRequest(c) {
        Reset();
        return Result(InvalidInput, BadInput, [], 0, 0, 0, 0);
      }
      Begin(c);
      ghost var run := (n: nat) => After(c, n);
      AfterIsRun(c);
      FirstTurn(c, run);
      var verdict; ghost var n;
      verdict, n := Loop(c, run);
      r := FinishSearch(c, verdict);
      assert StopsWith(c, n, r);
      EveryStopIsLegal(c, n);
    }

    /** Visits the entry under the cursor. */
    method VisitTurn(c: Config, cursor: nat, ghost next: Search)
      requires Valid() && reachability && stop.None? && Members(slots) == {} && best.None?
      requires cursor == expanded && cursor < |nodes| && next == ReachStep(c, Abs())
      modifies this
      ensures Valid() && reachability
      ensures Abs() == next
    {
      ghost var s := Abs();
      polls := polls + 1;
      if c.adapter.cancelled(polls - 1) {
        Stopped(Cancelled, WasCancelled);
        return;
      }
      if LimitHit(c.options.maxExpanded, expanded) {
        Stopped(LimitReached, AtLimit);
        return;
      }
      var enumerated := VisitNode(c, cursor);
      if !enumerated && stop.None? {
        Stopped(AdapterError, AdapterFailed);
      }
    }

    /** Enumerates the transitions of the entry under the cursor. */
    method VisitNode(c: Config, cursor: nat) returns (enumerated: bool)
      requires Valid() && reachability && stop.None? && cursor == expanded && cursor < |nodes|
      modifies this
      ensures Valid() && reachability
      ensures if stop.Some? || enumerated then Abs() == VisitAll(c, old(Abs()))
              else Halt(Abs(), AdapterError, AdapterFailed) == VisitAll(c, old(Abs()))
    {
      active := Some(cursor);
      expanded := expanded + 1;
      enumerated := Enumerate(c, Visitor(c, cursor));
      active := None;
    }

    /** Enters the start state of a traversal. */
    method BeginTraversal(c: Config)
      requires Usable()
      modifies this
      ensures Valid() && reachability && Abs() == ReachInitial(c)
    {
      Reset();
      reachability := true;
      var index := AddNode(Node(c.start, 0, 0, 0, 0, None, 0, false));
      generated := 1;
      assert Members(slots) == {};
    }

    /** Copies the states of the node table into the result storage. */
    method CopyStates() returns (states: seq<Word>)
      modifies `reachable
      ensures states == States(nodes)
    {
      var count := |nodes|;
      if count > |reachable| {
        reachable := reachable + seq(count - |reachable|, (i: nat) => 0);
      }
      for i := 0 to count
        invariant |reachable| >= count == |nodes|
        invariant forall j :: 0 <= j < i ==> reachable[j] == nodes[j].state
      {
        reachable := reachable[i := nodes[i].state];
      }
      states := reachable[..count];
    }

    /** The traversal's loop: turns until one stops it or the cursor reaches the end. */
    method TraversalLoop(c: Config, ghost run: nat -> Search) returns (ghost n: nat)
      requires IsTraversal(c, run)
      requires Valid() && reachability && stop.None? && Abs() == run(0)
      modifies this
      ensures Valid() && Abs() == run(n)
      ensures stop.None? ==> run(n + 1) == Halt(Abs(), Complete, Exhausted)
    {
      n := 0;
      var cursor: nat := 0;
      assert Turns(c, run, 0);
      while cursor < |nodes|
        invariant Valid() && reachability && stop.None?
        invariant cursor == n && Abs() == run(n) && Turns(c, run, n)
        decreases UINT64_MAX + 2 - cursor
      {
        NodesBounded(nodes);
        assert Turns(c, run, n + 1);
        VisitTurn(c, cursor, run(n + 1));
        n := n + 1;
        if stop.Some? {
          return;
        }
        cursor := cursor + 1;
      }
    }

    /** Discovers everything reachable from the start, in breadth-first order. */
    method FindReachable(c: Config) returns (r: Listed)
      requires Usable()
      modifies this
      ensures Usable()
      ensures if Neighbors in c.adapter.provided then TraversalOutcome(c, r)
              else r == Listed(InvalidInput, BadInput, [], 0, 0, 0)
    {
      if Neighbors !in c.adapter.provided {
        Reset();
        return Listed(InvalidInput, BadInput, [], 0, 0, 0);
      }
      BeginTraversal(c);
      ghost var run := (k: nat) => ReachAfter(c, k);
      AfterIsTraversal(c);
      ghost var n := TraversalLoop(c, run);
      var states := CopyStates();
      var last := if stop.Some? then stop.value else Stop(Complete, Exhausted, None);
      r := Listed(last.status, last.termination, states, expanded, generated, examined);
      assert TraversalStopsWith(c, if stop.Some? then n else n + 1, r);
    }
  }

  /** The partial candidate may be considered before the node is reopened. */
  lemma ReopenedLater(c: Config, s: Search, a: nat, v: nat, t: Transition, g: Word)
    requires Indexed(s) && v < |s.nodes|
    ensures var n := s.nodes[v].(cost := g, priority := Priority(c.options.algorithm, g, s.nodes[v].heuristic),
                                 data := t.data, parent := Some(a));
            var s1 := s.(nodes := s.nodes[v := n]);
            var open := if n.closed then s.open + {v} else s.open;
            Lower(c, s, a, v, t, g)
            == s.(nodes := s.nodes[v := n.(closed := false)], open := open, best := Consider(c, s1, v).best)
  {
  }

  lemma RelaxSplits(c: Config, s: Search, a: nat, t: Transition) returns (next: Search)
    requires Indexed(s) && a < |s.nodes|
    ensures next == Relax(c, s, a, t)
    ensures var g := s.nodes[a].cost + StepCost(c, t);
            next == if g > UINT64_MAX then Halt(s, CostOverflow, Overflowed) else Arrive(c, s, a, t, g)
  {
    next := Relax(c, s, a, t);
  }

  lemma DistinctSnoc(nodes: seq<Node>, node: Node)
    requires Distinct(nodes) && forall i :: 0 <= i < |nodes| ==> nodes[i].state != node.state
    ensures Distinct(nodes + [node])
  {
    var nodes' := nodes + [node];
    forall i, j | 0 <= i < j < |nodes'| ensures Differ(nodes', i, j) {
      assert j < |nodes| ==> Differ(nodes, i, j);
    }
  }

  /** Turn `n` of a traversal, which opens nothing and keeps no partial candidate. */
  ghost predicate Turns(c: Config, run: nat -> Search, n: nat) {
    && run(n + 1) == ReachStep(c, run(n))
    && run(n).open == {} && run(n).best.None?
    && (run(n).stop.None? ==> run(n).expanded == n)
  }

  ghost predicate IsTraversal(c: Config, run: nat -> Search) {
    run(0) == ReachInitial(c) && forall n: nat :: Turns(c, run, n)
  }

  lemma TraversalTurns(c: Config, run: nat -> Search, n: nat)
    requires run(n) == ReachAfter(c, n) && run(n + 1) == ReachAfter(c, n + 1)
    ensures Turns(c, run, n)
  {
    AlwaysReachInv(c, n);
    if ReachAfter(c, n).stop.None? {
      ReachCounts(c, n);
    }
  }

  lemma AfterIsTraversal(c: Config)
    ensures IsTraversal(c, (n: nat) => ReachAfter(c, n))
  {
    var run := (n: nat) => ReachAfter(c, n);
    forall n: nat ensures Turns(c, run, n) {
      TraversalTurns(c, run, n);
    }
  }

  lemma FirstTurn(c: Config, run: nat -> Search)
    requires IsRun(c, run)
    ensures run(0) == Initial(c) && Inv(c, run(0))
  {
    assert Steady(c, run, 0);
  }

  /** The next state of a run that has not stopped: sound, and smaller unless it stops. */
  lemma NextTurn(c: Config, run: nat -> Search, n: nat) returns (next: Search)
    requires IsRun(c, run) && Inv(c, run(n)) && run(n).stop.None?
    ensures next == run(n + 1) && next == Step(c, run(n)) && Inv(c, next)
    ensures next.stop.Some? || (Smaller(next, run(n)) && |next.nodes| <= UINT64_MAX + 1)
  {
    assert Steady(c, run, n) && Steady(c, run, n + 1);
    next := StepShrinks(c, run(n));
    NodesBounded(next.nodes);
  }

  /** The emit callback, in the mode of the running request. */
  ghost function Emission(c: Config, reachability: bool, a: nat): (Search, Option<Transition>) -> Search {
    if reachability then Visitor(c, a) else Emitter(c, a)
  }

  /** A node is closed exactly when it has no heap slot, and its priority is up to date. */
  ghost predicate Lowerable(c: Config, nodes: seq<Node>, slots: seq<Option<nat>>, v: nat)
    requires v < |nodes| == |slots|
  {
    && (nodes[v].closed <==> slots[v].None?)
    && nodes[v].priority == Priority(c.options.algorithm, nodes[v].cost, nodes[v].heuristic)
  }

  ghost predicate AllLowerable(c: Config, nodes: seq<Node>, slots: seq<Option<nat>>)
    requires |nodes| == |slots|
  {
    forall v :: 0 <= v < |nodes| ==> Lowerable(c, nodes, slots, v)
  }

  lemma PartitionedIsLowerable(c: Config, nodes: seq<Node>, slots: seq<Option<nat>>)
    requires |nodes| == |slots|
    ensures Partitioned(c, nodes, Members(slots)) && Scored(c, nodes) ==> AllLowerable(c, nodes, slots)
  {
    if Partitioned(c, nodes, Members(slots)) && Scored(c, nodes) {
      forall v | 0 <= v < |nodes| ensures Lowerable(c, nodes, slots, v) {
        assert Placed(c, nodes, Members(slots), v) && ScoredAt(c, nodes, v);
      }
    }
  }

  /** Emissions after a stop are ignored. */
  lemma StoppedEmission(c: Config, reachability: bool, a: nat, s: Search, step: (Search, Option<Transition>) -> Search)
    requires s.stop.Some? && step == Emission(c, reachability, a)
    ensures forall e :: step(s, e) == s
  {
  }

  /** What a search keeps while it enumerates the transitions of a node. */
  ghost function Enumeration(c: Config, a: nat, node: Node): (Search, nat) -> bool {
    (s: Search, k: nat) => Enumerated(c, s, a, node, k)
  }

  lemma EnumeratedNext(c: Config, s: Search, a: nat, node: Node, k: nat, e: Option<Transition>)
    requires Enumerated(c, s, a, node, k)
    requires k < |c.adapter.neighbors(node.state)| && e == c.adapter.neighbors(node.state)[k]
    ensures Enumerated(c, Emitter(c, a)(s, e), a, node, k + 1)
  {
    if s.stop.None? {
      var s' := EmitKeeps(c, s, a, k, e);
    }
  }
}
