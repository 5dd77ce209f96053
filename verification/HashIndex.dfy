/**
 The open-addressing index from states to node positions.  An entry is zero when
 free and a node position plus one otherwise; collisions move on to the next
 slot, wrapping around.
 */
module HashIndex {
  import opened PathGraph
  import opened SearchModel
  import opened SearchInvariant
  import opened SearchTermination
  import opened Wrappers

  predicate PowerOfTwo(n: nat) {
    n == 1 || (n > 1 && n % 2 == 0 && PowerOfTwo(n / 2))
  }

  /** Where probing for a state begins; the capacity is a power of two, so this is its low bits. */
  function Home(mix: Word -> Word, state: Word, capacity: nat): (slot: nat)
    requires capacity > 0
    ensures slot < capacity
  {
    mix(state) % capacity
  }

  function NextSlot(slot: nat, capacity: nat): nat {
    if slot + 1 == capacity then 0 else slot + 1
  }

  /** How many probes after `from` the slot `to` is looked at. */
  function Distance(from: nat, to: nat, capacity: nat): int {
    if from <= to then to - from else to - from + capacity
  }

  /** Every slot probed from `home` before `slot` is taken. */
  ghost predicate Unbroken(hash: seq<nat>, home: nat, slot: nat) {
    forall j :: 0 <= j < |hash| && Distance(home, j, |hash|) < Distance(home, slot, |hash|) ==> hash[j] != 0
  }

  /** A taken slot holds a known node that probing finds. */
  ghost predicate EntryOk(mix: Word -> Word, hash: seq<nat>, nodes: seq<Node>, n: nat, j: nat)
    requires n <= |nodes| && j < |hash|
  {
    hash[j] != 0 ==>
      && hash[j] <= n
      && Unbroken(hash, Home(mix, nodes[hash[j] - 1].state, |hash|), j)
  }

  ghost predicate Indexes(hash: seq<nat>, i: nat, j: nat)
    requires j < |hash|
  {
    hash[j] == i + 1
  }

  /** Node `i` has exactly one slot. */
  ghost predicate HasSlot(hash: seq<nat>, i: nat) {
    exists j :: 0 <= j < |hash| && Indexes(hash, i, j)
  }

  ghost predicate SlotsDiffer(hash: seq<nat>, j: nat, k: nat)
    requires j < |hash| && k < |hash|
  {
    hash[j] == 0 || hash[j] != hash[k]
  }

  /** The index holds exactly the first `n` nodes and is at most half full. */
  ghost predicate IndexValid(mix: Word -> Word, hash: seq<nat>, nodes: seq<Node>, n: nat) {
    && n <= |nodes|
    && PowerOfTwo(|hash|) && 2 <= |hash| && 2 * n <= |hash|
    && (forall j :: 0 <= j < |hash| ==> EntryOk(mix, hash, nodes, n, j))
    && (forall i :: 0 <= i < n ==> HasSlot(hash, i))
    && (forall j, k :: 0 <= j < k < |hash| ==> SlotsDiffer(hash, j, k))
  }

  lemma EntryBound(mix: Word -> Word, hash: seq<nat>, nodes: seq<Node>, n: nat, slot: nat)
    requires IndexValid(mix, hash, nodes, n) && slot < |hash|
    ensures hash[slot] <= n
  {
    assert EntryOk(mix, hash, nodes, n, slot);
  }

  /** A table that is not full has a free slot, so probing comes to an end. */
  lemma FreeSlot(mix: Word -> Word, hash: seq<nat>, nodes: seq<Node>, n: nat)
    requires IndexValid(mix, hash, nodes, n)
    ensures exists j :: 0 <= j < |hash| && hash[j] == 0
  {
    if forall j :: 0 <= j < |hash| ==> hash[j] != 0 {
      var entries := seq(|hash|, j requires 0 <= j < |hash| => hash[j] - 1);
      forall j | 0 <= j < |hash| ensures 0 <= entries[j] < n {
        assert EntryOk(mix, hash, nodes, n, j);
      }
      forall j, k | 0 <= j < k < |hash| ensures entries[j] != entries[k] {
        assert SlotsDiffer(hash, j, k);
      }
      Pigeonhole(entries, n);
    }
  }

  /** Every slot probed before `slot` holds a node with another state. */
  ghost predicate Passed(hash: seq<nat>, nodes: seq<Node>, n: nat, home: nat, slot: nat, state: Word)
    requires n <= |nodes|
  {
    forall j :: 0 <= j < |hash| && Distance(home, j, |hash|) < Distance(home, slot, |hash|) ==>
      0 < hash[j] <= n && nodes[hash[j] - 1].state != state
  }

  /** One more probe adds exactly the slot just looked at, and has not passed the free slot yet. */
  lemma PassOne(hash: seq<nat>, nodes: seq<Node>, n: nat, home: nat, slot: nat, state: Word, free: nat)
    requires n <= |nodes| && home < |hash| && slot < |hash| && free < |hash|
    requires Passed(hash, nodes, n, home, slot, state)
    requires 0 < hash[slot] <= n && nodes[hash[slot] - 1].state != state
    requires hash[free] == 0 && Distance(home, slot, |hash|) <= Distance(home, free, |hash|)
    ensures NextSlot(slot, |hash|) < |hash|
    ensures Passed(hash, nodes, n, home, NextSlot(slot, |hash|), state)
    ensures Distance(home, slot, |hash|) < Distance(home, NextSlot(slot, |hash|), |hash|)
    ensures Distance(home, NextSlot(slot, |hash|), |hash|) <= Distance(home, free, |hash|)
  {
  }

  /** A probe that stopped at a free slot proves the state absent. */
  lemma FreeMeansAbsent(mix: Word -> Word, hash: seq<nat>, nodes: seq<Node>, n: nat, state: Word, slot: nat)
    requires IndexValid(mix, hash, nodes, n) && slot < |hash| && hash[slot] == 0
    requires Passed(hash, nodes, n, Home(mix, state, |hash|), slot, state)
    ensures forall i :: 0 <= i < n ==> nodes[i].state != state
    ensures Unbroken(hash, Home(mix, state, |hash|), slot)
  {
    forall i | 0 <= i < n ensures nodes[i].state != state {
      assert HasSlot(hash, i);
      var j :| 0 <= j < |hash| && Indexes(hash, i, j);
      assert EntryOk(mix, hash, nodes, n, j);
    }
  }

  /** Entering node `n` at the free slot its probe found. */
  lemma InsertKeeps(mix: Word -> Word, hash: seq<nat>, nodes: seq<Node>, n: nat, slot: nat)
    requires IndexValid(mix, hash, nodes, n) && n < |nodes| && 2 * (n + 1) <= |hash|
    requires slot < |hash| && hash[slot] == 0
    requires Unbroken(hash, Home(mix, nodes[n].state, |hash|), slot)
    ensures IndexValid(mix, hash[slot := n + 1], nodes, n + 1)
  {
    var m := n + 1;
    var hash' := hash[slot := m];
    forall j | 0 <= j < |hash'| ensures EntryOk(mix, hash', nodes, m, j) {
      assert EntryOk(mix, hash, nodes, n, j);
    }
    forall i | 0 <= i < m ensures HasSlot(hash', i) {
      if i == n {
        assert Indexes(hash', n, slot);
      } else {
        assert HasSlot(hash, i);
        var j :| 0 <= j < |hash| && Indexes(hash, i, j);
        assert Indexes(hash', i, j);
      }
    }
    forall j, k | 0 <= j < k < |hash'| ensures SlotsDiffer(hash', j, k) {
      assert SlotsDiffer(hash, j, k) && EntryOk(mix, hash, nodes, n, j) && EntryOk(mix, hash, nodes, n, k);
    }
  }

  lemma {:induction false} DoublingKeepsPower(n: nat)
    requires PowerOfTwo(n)
    ensures PowerOfTwo(2 * n)
  {
  }

  /** The index only looks at states, so other node fields may change freely. */
  lemma IndexIgnoresCosts(mix: Word -> Word, hash: seq<nat>, nodes: seq<Node>, nodes': seq<Node>, n: nat)
    requires IndexValid(mix, hash, nodes, n)
    requires n <= |nodes'| && forall i :: 0 <= i < n ==> nodes'[i].state == nodes[i].state
    ensures IndexValid(mix, hash, nodes', n)
  {
    forall j | 0 <= j < |hash| ensures EntryOk(mix, hash, nodes', n, j) {
      assert EntryOk(mix, hash, nodes, n, j);
    }
  }

  /** An all-zero table of suitable size indexes nothing. */
  lemma EmptyIndex(mix: Word -> Word, hash: seq<nat>, nodes: seq<Node>)
    requires PowerOfTwo(|hash|) && 2 <= |hash| && forall j :: 0 <= j < |hash| ==> hash[j] == 0
    ensures IndexValid(mix, hash, nodes, 0)
  {
    forall j | 0 <= j < |hash| ensures EntryOk(mix, hash, nodes, 0, j) {
    }
  }

  /** With distinct states the index finds the model's position. */
  lemma FindUnique(nodes: seq<Node>, state: Word, i: nat)
    requires Distinct(nodes) && i < |nodes| && nodes[i].state == state
    ensures Find(nodes, state) == Some(i)
  {
    var j := Find(nodes, state).value;
    assert i < j ==> Differ(nodes, i, j);
    assert j < i ==> Differ(nodes, j, i);
  }
}
