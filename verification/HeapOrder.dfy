/**
 The indexed binary heap: a list of node positions ordered by `Before`, and for
 each node a back-pointer to its slot.
 */
module HeapOrder {
  import opened SearchModel
  import opened Wrappers

  function Parent(p: nat): nat
    requires p > 0
  {
    (p - 1) / 2
  }

  /** Slots and back-pointers agree. */
  ghost predicate Backed(slots: seq<Option<nat>>, heap: seq<nat>) {
    && (forall p :: 0 <= p < |heap| ==> heap[p] < |slots| && slots[heap[p]] == Some(p))
    && (forall i :: 0 <= i < |slots| && slots[i].Some? ==>
          slots[i].value < |heap| && heap[slots[i].value] == i)
  }

  /** The entry in slot `q` does not come before the one in slot `p`. */
  ghost predicate InOrder(nodes: seq<Node>, heap: seq<nat>, p: nat, q: nat)
    requires p < |heap| && q < |heap| && heap[p] < |nodes| && heap[q] < |nodes|
  {
    !Before(nodes[heap[q]], nodes[heap[p]])
  }

  ghost predicate InTable(nodes: seq<Node>, heap: seq<nat>) {
    forall p :: 0 <= p < |heap| ==> heap[p] < |nodes|
  }

  ghost predicate Heaped(nodes: seq<Node>, heap: seq<nat>)
    requires InTable(nodes, heap)
  {
    forall p :: 0 < p < |heap| ==> InOrder(nodes, heap, Parent(p), p)
  }

  /** In heap order but for the entry in slot `hole`, which may belong further up. */
  ghost predicate HeapedBelow(nodes: seq<Node>, heap: seq<nat>, hole: nat)
    requires InTable(nodes, heap)
  {
    && (forall p :: 0 < p < |heap| && p != hole ==> InOrder(nodes, heap, Parent(p), p))
    && (forall p :: 0 < p < |heap| && Parent(p) == hole && hole > 0 ==>
          InOrder(nodes, heap, Parent(hole), p))
  }

  /** In heap order but for the entry in slot `hole`, which may belong further down. */
  ghost predicate HeapedAbove(nodes: seq<Node>, heap: seq<nat>, hole: nat)
    requires InTable(nodes, heap)
  {
    && (forall p :: 0 < p < |heap| && Parent(p) != hole ==> InOrder(nodes, heap, Parent(p), p))
    && (forall p :: 0 < p < |heap| && Parent(p) == hole && 0 < hole < |heap| ==>
          InOrder(nodes, heap, Parent(hole), p))
  }

  /** The two slots below `p`. */
  lemma Children(heap: seq<nat>, p: nat)
    ensures forall q: nat :: 0 < q && Parent(q) == p ==> q == 2 * p + 1 || q == 2 * p + 2
  {
  }

  /** The nodes that have a slot. */
  ghost function Members(slots: seq<Option<nat>>): set<nat> {
    set i: nat | i < |slots| && slots[i].Some?
  }

  lemma MembersCount(slots: seq<Option<nat>>, heap: seq<nat>)
    requires Backed(slots, heap)
    ensures Members(slots) == Elements(heap) && |Members(slots)| == |heap|
  {
    ElementsCount(heap);
    forall i: nat ensures i in Members(slots) <==> i in Elements(heap) {
      if i in Members(slots) {
        assert heap[slots[i].value] == i;
      }
    }
  }

  /** The root of a heap comes before every other entry. */
  lemma {:induction false} RootFirst(nodes: seq<Node>, heap: seq<nat>, p: nat)
    requires InTable(nodes, heap) && Heaped(nodes, heap) && p < |heap|
    ensures InOrder(nodes, heap, 0, p)
    decreases p
  {
    if p > 0 {
      RootFirst(nodes, heap, Parent(p));
      assert InOrder(nodes, heap, Parent(p), p);
    }
  }

  /** What pop removes is the unique least member. */
  lemma RootIsLeast(nodes: seq<Node>, slots: seq<Option<nat>>, heap: seq<nat>)
    requires |slots| == |nodes| && Backed(slots, heap) && Heaped(nodes, heap) && heap != []
    requires forall i :: 0 <= i < |nodes| ==> nodes[i].sequence == i
    ensures IsLeast(nodes, Members(slots), heap[0])
  {
    forall i | i in Members(slots) && i != heap[0]
      ensures Before(nodes[heap[0]], nodes[i])
    {
      RootFirst(nodes, heap, slots[i].value);
    }
  }

  /** A least member is unique. */
  lemma LeastUnique(nodes: seq<Node>, open: set<nat>, m: nat, n: nat)
    requires forall i :: i in open ==> i < |nodes|
    requires IsLeast(nodes, open, m) && IsLeast(nodes, open, n)
    ensures m == n
  {
  }

  /** Cheapening the node in slot `p` leaves at most that slot out of order, upwards. */
  lemma CheapenedHeap(nodes: seq<Node>, heap: seq<nat>, p: nat, node: Node)
    requires InTable(nodes, heap) && Heaped(nodes, heap) && p < |heap|
    requires forall q :: 0 <= q < |heap| && q != p ==> heap[q] != heap[p]
    requires !Before(nodes[heap[p]], node)
    ensures HeapedBelow(nodes[heap[p] := node], heap, p)
  {
    var nodes' := nodes[heap[p] := node];
    forall q | 0 < q < |heap| && q != p ensures InOrder(nodes', heap, Parent(q), q) {
      assert InOrder(nodes, heap, Parent(q), q);
    }
    forall q | 0 < q < |heap| && Parent(q) == p && p > 0 ensures InOrder(nodes', heap, Parent(p), q) {
      assert InOrder(nodes, heap, Parent(q), q) && InOrder(nodes, heap, Parent(p), p);
    }
  }

  /** A node outside the heap may change freely. */
  lemma UnlistedHeap(nodes: seq<Node>, heap: seq<nat>, v: nat, node: Node)
    requires InTable(nodes, heap) && Heaped(nodes, heap)
    requires v < |nodes| && forall p :: 0 <= p < |heap| ==> heap[p] != v
    ensures Heaped(nodes[v := node], heap)
  {
    forall p | 0 < p < |heap| ensures InOrder(nodes[v := node], heap, Parent(p), p) {
      assert InOrder(nodes, heap, Parent(p), p);
    }
  }

  /** A longer table leaves the heap alone. */
  lemma LongerTable(nodes: seq<Node>, heap: seq<nat>, node: Node)
    requires InTable(nodes, heap) && Heaped(nodes, heap)
    ensures InTable(nodes + [node], heap) && Heaped(nodes + [node], heap)
  {
    forall p | 0 < p < |heap| ensures InOrder(nodes + [node], heap, Parent(p), p) {
      assert InOrder(nodes, heap, Parent(p), p);
    }
  }

  /** Moving the last entry into the place of the first one. */
  lemma LastMoves(nodes: seq<Node>, slots: seq<Option<nat>>, heap: seq<nat>)
    requires Backed(slots, heap) && |slots| == |nodes| && Heaped(nodes, heap) && |heap| > 1
    ensures var last := |heap| - 1;
            var heap' := heap[..last][0 := heap[last]];
            var slots' := slots[heap[0] := None][heap[last] := Some(0)];
            Backed(slots', heap') && HeapedAbove(nodes, heap', 0) && Members(slots') == Members(slots) - {heap[0]}
  {
    var last := |heap| - 1;
    var heap' := heap[..last][0 := heap[last]];
    forall p | 0 < p < |heap'| && Parent(p) != 0 ensures InOrder(nodes, heap', Parent(p), p) {
      assert InOrder(nodes, heap, Parent(p), p);
    }
  }

  /** The heap with the entries of two slots exchanged. */
  function Swapped(heap: seq<nat>, p: nat, q: nat): seq<nat>
    requires p < |heap| && q < |heap|
  {
    heap[p := heap[q]][q := heap[p]]
  }

  lemma SwapUp(nodes: seq<Node>, heap: seq<nat>, p: nat)
    requires InTable(nodes, heap) && 0 < p < |heap| && HeapedBelow(nodes, heap, p)
    requires Before(nodes[heap[p]], nodes[heap[Parent(p)]])
    ensures InTable(nodes, Swapped(heap, p, Parent(p)))
    ensures HeapedBelow(nodes, Swapped(heap, p, Parent(p)), Parent(p))
  {
    var up := Parent(p);
    var heap' := Swapped(heap, p, up);
    forall q | 0 < q < |heap| && q != up ensures InOrder(nodes, heap', Parent(q), q) {
      assert q != p ==> InOrder(nodes, heap, Parent(q), q);
      assert Parent(q) == p ==> InOrder(nodes, heap, up, q);
    }
    forall q | 0 < q < |heap| && Parent(q) == up && up > 0 ensures InOrder(nodes, heap', Parent(up), q) {
      assert InOrder(nodes, heap, Parent(up), up);
      assert q != p ==> InOrder(nodes, heap, up, q);
    }
  }

  /** `child` is the child of slot `p` that comes first. */
  ghost predicate FirstChild(nodes: seq<Node>, heap: seq<nat>, p: nat, child: nat)
    requires InTable(nodes, heap)
  {
    && 0 < child < |heap| && Parent(child) == p
    && forall q :: 0 < q < |heap| && Parent(q) == p ==> InOrder(nodes, heap, child, q)
  }

  lemma SwapDown(nodes: seq<Node>, heap: seq<nat>, p: nat, child: nat)
    requires InTable(nodes, heap) && p < |heap| && HeapedAbove(nodes, heap, p)
    requires FirstChild(nodes, heap, p, child) && Before(nodes[heap[child]], nodes[heap[p]])
    ensures InTable(nodes, Swapped(heap, p, child))
    ensures HeapedAbove(nodes, Swapped(heap, p, child), child)
  {
    var heap' := Swapped(heap, p, child);
    forall q | 0 < q < |heap| && Parent(q) != child ensures InOrder(nodes, heap', Parent(q), q) {
      assert Parent(q) != p ==> InOrder(nodes, heap, Parent(q), q);
      assert Parent(q) == p ==> InOrder(nodes, heap, child, q);
      if q == p {
        assert Parent(child) == p && InOrder(nodes, heap, Parent(p), child);
      }
    }
    forall q | 0 < q < |heap| && Parent(q) == child ensures InOrder(nodes, heap', p, q) {
      assert InOrder(nodes, heap, child, q);
    }
  }

  /** When no child comes before slot `p` the hole is gone. */
  lemma HoleClosed(nodes: seq<Node>, heap: seq<nat>, p: nat)
    requires InTable(nodes, heap) && p < |heap| && HeapedAbove(nodes, heap, p)
    requires forall q :: 0 < q < |heap| && Parent(q) == p ==> InOrder(nodes, heap, p, q)
    ensures Heaped(nodes, heap)
  {
  }
}
