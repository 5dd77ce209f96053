/**
 Shared strings: a bucket table of intrusive chains.  Each record carries one
 word that is the bucket it heads when the top bit of its reference count is set,
 and the previous record of its chain when it is not.

 Records live in a store keyed by address; an address is the handle a caller
 holds.  Allocation picks any address not in use.
 */
module SharedStrings {
  import opened Wrappers

  const TABLE_SIZE: nat := 8266
  const TOPBIT: nat := 0x8000_0000_0000_0000
  const INT_MAX: int := 0x7FFF_FFFF
  const TWO_TO_32: int := 0x1_0000_0000

  /** `link` is the untagged word: a bucket or a previous record. */
  datatype Record = Record(link: nat, next: Option<nat>, refcount: nat, text: string)

  type Store = map<nat, Record>

  predicate IsHead(r: Record) {
    r.refcount >= TOPBIT
  }

  /** The count without the tag. */
  function Masked(r: Record): int {
    if IsHead(r) then r.refcount - TOPBIT else r.refcount
  }

  /** What an int of 32 bits keeps of a count. */
  function AsInt(count: int): int {
    var low := count % TWO_TO_32;
    if low <= INT_MAX then low else low - TWO_TO_32
  }

  // ---------------------------------------------------------------- chains

  /** Record `i` of the chain of bucket `b` is linked to its neighbours and tagged by its place. */
  ghost predicate RecordOk(store: Store, b: nat, c: seq<nat>, i: nat)
    requires i < |c|
  {
    && c[i] in store
    && var r := store[c[i]];
       && 0 < Masked(r) < TOPBIT
       && (IsHead(r) <==> i == 0)
       && r.link == (if i == 0 then b else c[i - 1])
       && r.next == (if i + 1 < |c| then Some(c[i + 1]) else None)
  }

  ghost predicate Distinct(c: seq<nat>, i: nat, j: nat)
    requires i < |c| && j < |c|
  {
    c[i] != c[j]
  }

  ghost predicate ChainOk(store: Store, b: nat, c: seq<nat>) {
    && (forall i :: 0 <= i < |c| ==> RecordOk(store, b, c, i))
    && (forall i, j :: 0 <= i < j < |c| ==> Distinct(c, i, j))
  }

  /** A chain does not notice changes to records it does not contain. */
  lemma ChainFrame(store: Store, store': Store, b: nat, c: seq<nat>)
    requires ChainOk(store, b, c)
    requires forall x :: x in c ==> x in store && x in store' && store'[x] == store[x]
    ensures ChainOk(store', b, c)
  {
    forall i | 0 <= i < |c| ensures RecordOk(store', b, c, i) {
      assert RecordOk(store, b, c, i) && c[i] in c;
    }
  }

  /** Counting one more or one fewer reference, above zero, keeps the chain. */
  lemma ChainCounts(store: Store, b: nat, c: seq<nat>, i: nat, refcount: nat)
    requires ChainOk(store, b, c) && i < |c| && c[i] in store
    requires IsHead(store[c[i]].(refcount := refcount)) == IsHead(store[c[i]])
    requires 0 < Masked(store[c[i]].(refcount := refcount)) < TOPBIT
    ensures ChainOk(store[c[i] := store[c[i]].(refcount := refcount)], b, c)
  {
    var store' := store[c[i] := store[c[i]].(refcount := refcount)];
    forall k | 0 <= k < |c| ensures RecordOk(store', b, c, k) {
      assert RecordOk(store, b, c, k);
      assert k < i ==> Distinct(c, k, i);
      assert i < k ==> Distinct(c, i, k);
    }
  }

  /** Linking a new record behind the last one. */
  lemma ChainAppend(store: Store, b: nat, c: seq<nat>, n: nat, text: string)
    requires ChainOk(store, b, c) && c != [] && n !in store && c[|c| - 1] in store
    ensures var t := c[|c| - 1];
      ChainOk(store[n := Record(t, None, 1, text)][t := store[t].(next := Some(n))], b, c + [n])
  {
    var t := c[|c| - 1];
    var c' := c + [n];
    var store' := store[n := Record(t, None, 1, text)][t := store[t].(next := Some(n))];
    forall k | 0 <= k < |c| ensures c[k] in store && c[k] != n {
      assert RecordOk(store, b, c, k);
    }
    forall k | 0 <= k < |c'| ensures RecordOk(store', b, c', k) {
      if k < |c| {
        assert RecordOk(store, b, c, k);
        assert k < |c| - 1 ==> Distinct(c, k, |c| - 1);
      }
    }
    forall i, j | 0 <= i < j < |c'| ensures Distinct(c', i, j) {
      assert j < |c| ==> Distinct(c, i, j);
    }
  }

  ghost function Without(c: seq<nat>, i: nat): seq<nat>
    requires i < |c|
  {
    c[..i] + c[i + 1..]
  }

  lemma WithoutDistinct(c: seq<nat>, c': seq<nat>, i: nat)
    requires i < |c| && c' == Without(c, i)
    requires forall j, k :: 0 <= j < k < |c| ==> Distinct(c, j, k)
    ensures forall j, k :: 0 <= j < k < |c'| ==> Distinct(c', j, k)
  {
    forall j, k | 0 <= j < k < |c'| ensures Distinct(c', j, k) {
      assert Distinct(c, if j < i then j else j + 1, if k < i then k else k + 1);
    }
  }

  /** Unlinking the head: its successor, if any, becomes the tagged head. */
  lemma ChainRemoveHead(store: Store, store': Store, b: nat, c: seq<nat>)
    requires ChainOk(store, b, c) && c != []
    requires forall x :: x in c && x != c[0] && (|c| < 2 || x != c[1]) ==>
               x in store && x in store' && store'[x] == store[x]
    requires |c| >= 2 ==>
               && c[1] in store && c[1] in store'
               && store'[c[1]] == store[c[1]].(link := b, refcount := store[c[1]].refcount + TOPBIT)
    ensures ChainOk(store', b, c[1..])
  {
    var c' := c[1..];
    assert c' == Without(c, 0);
    WithoutDistinct(c, c', 0);
    forall k | 0 <= k < |c'| ensures RecordOk(store', b, c', k) {
      assert RecordOk(store, b, c, k + 1) && c[k + 1] in c && Distinct(c, 0, k + 1);
      assert k > 0 ==> Distinct(c, 1, k + 1);
    }
  }

  /** Unlinking a later record: its neighbours are linked to each other. */
  lemma ChainRemoveLater(store: Store, store': Store, b: nat, c: seq<nat>, i: nat)
    requires ChainOk(store, b, c) && 0 < i < |c| && c[i - 1] in store && c[i - 1] in store'
    requires i + 1 < |c| ==>
               c[i + 1] in store && c[i + 1] in store' && store'[c[i + 1]] == store[c[i + 1]].(link := c[i - 1])
    requires store'[c[i - 1]] == store[c[i - 1]].(next := if i + 1 < |c| then Some(c[i + 1]) else None)
    requires forall k :: 0 <= k < |c| && k != i - 1 && k != i && k != i + 1 ==>
               c[k] in store' && c[k] in store && store'[c[k]] == store[c[k]]
    ensures ChainOk(store', b, Without(c, i))
  {
    var c' := Without(c, i);
    WithoutDistinct(c, c', i);
    forall k | 0 <= k < |c'| ensures RecordOk(store', b, c', k) {
      var j := if k < i then k else k + 1;
      assert RecordOk(store, b, c, j) && c'[k] == c[j];
      assert k > 0 ==> c'[k - 1] == c[if k - 1 < i then k - 1 else k];
      assert k + 1 < |c'| ==> c'[k + 1] == c[if k + 1 < i then k + 1 else k + 2];
    }
  }

  // ---------------------------------------------------------------- what callers see

  /** A live string: its one handle and its number of references. */
  datatype Live = Live(handle: nat, count: int)

  type View = map<string, Live>

  ghost predicate TextShown(store: Store, view: View, text: string)
    requires text in view
  {
    view[text].handle in store
    && store[view[text].handle].text == text && Masked(store[view[text].handle]) == view[text].count
  }

  ghost predicate HandleShown(store: Store, view: View, h: nat)
    requires h in store
  {
    store[h].text in view && view[store[h].text].handle == h
  }

  /** `view` is what the store holds: one handle for each live text, with its count. */
  ghost predicate Shows(store: Store, view: View) {
    && (forall text :: text in view ==> TextShown(store, view, text))
    && (forall h :: h in store ==> HandleShown(store, view, h))
  }

  /** Links and tags are invisible. */
  lemma ShowsIgnoresLinks(store: Store, store': Store, view: View)
    requires Shows(store, view) && store'.Keys == store.Keys
    requires forall h :: h in store ==> store'[h].text == store[h].text && Masked(store'[h]) == Masked(store[h])
    ensures Shows(store', view)
  {
    forall text | text in view ensures TextShown(store', view, text) {
      assert TextShown(store, view, text);
    }
    forall h | h in store' ensures HandleShown(store', view, h) {
      assert HandleShown(store, view, h);
    }
  }

  lemma ShowsSet(store: Store, view: View, h: nat, r: Record)
    requires Shows(store, view)
    requires if h in store then store[h].text == r.text else r.text !in view
    ensures Shows(store[h := r], view[r.text := Live(h, Masked(r))])
  {
    var store', view' := store[h := r], view[r.text := Live(h, Masked(r))];
    assert h in store ==> HandleShown(store, view, h);
    forall text | text in view' ensures TextShown(store', view', text) {
      assert text != r.text ==> TextShown(store, view, text);
    }
    forall k | k in store' ensures HandleShown(store', view', k) {
      assert k != h ==> HandleShown(store, view, k);
    }
  }

  lemma ShowsRemove(store: Store, view: View, h: nat)
    requires Shows(store, view) && h in store
    ensures Shows(store - {h}, view - {store[h].text})
  {
    var store', view' := store - {h}, view - {store[h].text};
    assert HandleShown(store, view, h);
    forall text | text in view' ensures TextShown(store', view', text) {
      assert TextShown(store, view, text);
    }
    forall k | k in store' ensures HandleShown(store', view', k) {
      assert HandleShown(store, view, k);
    }
  }

  function Slot(hash: string -> nat, text: string): (b: nat)
    ensures b < TABLE_SIZE
  {
    hash(text) % TABLE_SIZE
  }

  /** The bucket points at its chain, whose strings all hash to it. */
  ghost predicate BucketOk(hash: string -> nat, store: Store, head: Option<nat>, c: seq<nat>, b: nat) {
    && ChainOk(store, b, c)
    && head == (if c == [] then None else Some(c[0]))
    && forall x :: x in c ==> x in store && Slot(hash, store[x].text) == b
  }

  ghost predicate BucketAt(hash: string -> nat, buckets: seq<Option<nat>>, store: Store, chains: seq<seq<nat>>, b: nat)
    requires b < |buckets| == |chains|
  {
    BucketOk(hash, store, buckets[b], chains[b], b)
  }

  ghost predicate InChain(hash: string -> nat, store: Store, chains: seq<seq<nat>>, h: nat)
    requires h in store && |chains| == TABLE_SIZE
  {
    h in chains[Slot(hash, store[h].text)]
  }

  /** Every bucket is in order and every record is in the chain of its bucket. */
  ghost predicate Consistent(hash: string -> nat, buckets: seq<Option<nat>>, store: Store, chains: seq<seq<nat>>) {
    && |buckets| == TABLE_SIZE == |chains|
    && (forall b :: 0 <= b < TABLE_SIZE ==> BucketAt(hash, buckets, store, chains, b))
    && (forall h :: h in store ==> InChain(hash, store, chains, h))
  }

  /** A change confined to bucket `b` that leaves it in order leaves the whole table in order. */
  lemma OneBucketChanged(hash: string -> nat, buckets: seq<Option<nat>>, store: Store, chains: seq<seq<nat>>,
                         buckets': seq<Option<nat>>, store': Store, b: nat, c: seq<nat>)
    requires Consistent(hash, buckets, store, chains) && b < TABLE_SIZE
    requires |buckets'| == TABLE_SIZE && forall k :: 0 <= k < TABLE_SIZE && k != b ==> buckets'[k] == buckets[k]
    requires BucketOk(hash, store', buckets'[b], c, b)
    requires forall x :: x in store && Slot(hash, store[x].text) != b ==> x in store' && store'[x] == store[x]
    requires forall x :: x in store' && Slot(hash, store'[x].text) != b ==> x in store && store'[x] == store[x]
    requires forall x :: x in store' && Slot(hash, store'[x].text) == b ==> x in c
    ensures Consistent(hash, buckets', store', chains[b := c])
  {
    var chains' := chains[b := c];
    forall k | 0 <= k < TABLE_SIZE ensures BucketAt(hash, buckets', store', chains', k) {
      if k != b {
        assert BucketAt(hash, buckets, store, chains, k);
        ChainFrame(store, store', k, chains[k]);
      }
    }
    forall h | h in store' ensures InChain(hash, store', chains', h) {
      if Slot(hash, store'[h].text) != b {
        assert InChain(hash, store, chains, h);
      }
    }
  }

  class Table {
    const hash: string -> nat
    var buckets: seq<Option<nat>>
    var store: Store
    ghost var chains: seq<seq<nat>>
    ghost var view: View

    function Bucket(text: string): (b: nat)
      ensures b < TABLE_SIZE
    {
      Slot(hash, text)
    }

    ghost predicate Valid()
      reads this
    {
      Consistent(hash, buckets, store, chains) && Shows(store, view)
    }

    constructor (hash: string -> nat)
      ensures Valid() && view == map[]
    {
      this.hash := hash;
      store, view := map[], map[];
      buckets := seq(TABLE_SIZE, (b: nat) => None);
      chains := seq(TABLE_SIZE, (b: nat) => []);
    }

    /** Walks the chain of the text's bucket. */
    method Search(text: string) returns (found: Option<nat>, last: Option<nat>, ghost i: nat)
      requires Valid()
      ensures var c := chains[Bucket(text)];
        && (found.Some? ==> i < |c| && c[i] == found.value && found.value in store && store[found.value].text == text)
        && (found.None? ==> text !in view)
        && (found.None? && c != [] ==> last == Some(c[|c| - 1]))
        && (found.None? && c == [] ==> last == None)
    {
      var b := Bucket(text);
      assert BucketAt(hash, buckets, store, chains, b);
      ghost var c := chains[b];
      var current := buckets[b];
      i, found, last := 0, None, None;
      while current.Some?
        invariant i <= |c| && current == (if i < |c| then Some(c[i]) else None)
        invariant last == (if i == 0 then None else Some(c[i - 1]))
        invariant forall k :: 0 <= k < i ==> c[k] in store && store[c[k]].text != text
        decreases |c| - i
      {
        assert RecordOk(store, b, c, i);
        var ss := current.value;
        if store[ss].text == text {
          return Some(ss), last, i;
        }
        last := current;
        current := store[ss].next;
        i := i + 1;
      }
      forall h | h in store ensures store[h].text != text {
        assert InChain(hash, store, chains, h);
      }
      forall t | t in view ensures t != text {
        assert TextShown(store, view, t);
      }
    }

    /** Stores a record's new reference count, which stays above zero. */
    method Recount(h: nat, refcount: nat)
      requires Valid() && h in store
      requires IsHead(store[h].(refcount := refcount)) == IsHead(store[h])
      requires 0 < Masked(store[h].(refcount := refcount)) < TOPBIT
      modifies `store, `view
      ensures Valid() && h in old(store)
      ensures view == old(view)[old(store)[h].text := Live(h, Masked(old(store)[h].(refcount := refcount)))]
    {
      ghost var b := Bucket(store[h].text);
      ghost var c := chains[b];
      ghost var before := store;
      assert BucketAt(hash, buckets, store, chains, b) && InChain(hash, store, chains, h);
      ghost var i :| 0 <= i < |c| && c[i] == h;
      var r := store[h].(refcount := refcount);
      ChainCounts(store, b, c, i, refcount);
      ShowsSet(store, view, h, r);
      store := store[h := r];
      view := view[r.text := Live(h, Masked(r))];
      KeptInChain(hash, before, chains, b);
      OneBucketChanged(hash, buckets, before, chains, buckets, store, b, c);
      assert chains[b := c] == chains;
    }

    /** Adds a reference to a string, storing it first if it is not known. */
    method AddString(text: string) returns (h: nat)
      requires Valid() && (text in view ==> view[text].count + 1 < TOPBIT)
      modifies this
      ensures Valid()
      ensures text in old(view) ==> h == old(view)[text].handle
      ensures text !in old(view) ==> h !in old(store)
      ensures view == old(view)[text := Live(h, if text in old(view) then old(view)[text].count + 1 else 1)]
      ensures Performs(old(view), Add(text), view)
      ensures var b := Bucket(text);
        chains == if text in old(view) then old(chains) else old(chains)[b := old(chains)[b] + [h]]
    {
      var found, last;
      ghost var i;
      found, last, i := Search(text);
      if found.Some? {
        h := found.value;
        assert HandleShown(store, view, h) && TextShown(store, view, text);
        Recount(h, store[h].refcount + 1);
      } else {
        h := Allocate();
        AddNew(text, last, h);
      }
    }

    /** Any address that is not in use. */
    method Allocate() returns (h: nat)
      ensures h !in store
    {
      UnusedAddress(store.Keys);
      h :| h !in store;
    }

    /** Links a new record: as the head of an empty bucket, or behind the last record of its chain. */
    method AddNew(text: string, last: Option<nat>, h: nat)
      requires Valid() && text !in view && h !in store
      requires var c := chains[Bucket(text)]; last == if c == [] then None else Some(c[|c| - 1])
      modifies this
      ensures Valid() && view == old(view)[text := Live(h, 1)]
      ensures chains == old(chains)[Bucket(text) := old(chains)[Bucket(text)] + [h]]
    {
      var b := Bucket(text);
      ghost var c := chains[b];
      if last.None? {
        HeadAdded(hash, buckets, store, chains, h, text);
        ShowsSet(store, view, h, Record(b, None, 1 + TOPBIT, text));
        store := store[h := Record(b, None, 1 + TOPBIT, text)];
        buckets := buckets[b := Some(h)];
      } else {
        var t := last.value;
        TailAdded(hash, buckets, store, chains, view, h, t, text);
        store := store[h := Record(t, None, 1, text)];
        store := store[t := store[t].(next := Some(h))];
      }
      view := view[text := Live(h, 1)];
      chains := chains[b := c + [h]];
    }

    /** A live string's handle, without adding a reference. */
    method FindString(text: string) returns (h: Option<nat>)
      requires Valid()
      ensures h == if text in view then Some(view[text].handle) else None
    {
      var last;
      ghost var i;
      h, last, i := Search(text);
      if h.Some? {
        assert HandleShown(store, view, h.value);
      }
    }

    /** One more reference to a string the caller already holds. */
    method AddRefcount(h: nat)
      requires Valid() && h in store && Masked(store[h]) + 1 < TOPBIT
      modifies `store, `view
      ensures Valid() && h in old(store)
      ensures view == old(view)[old(store)[h].text := Live(h, Masked(old(store)[h]) + 1)]
      ensures Performs(old(view), Reference(old(store)[h].text), view)
    {
      assert HandleShown(store, view, h) && TextShown(store, view, store[h].text);
      Recount(h, store[h].refcount + 1);
    }

    /** The count is narrowed to an int on its way out, and so is right up to INT_MAX only. */
    method QueryRefcount(h: nat) returns (count: int)
      requires Valid() && h in store
      ensures store[h].text in view && view[store[h].text].handle == h
      ensures var n := view[store[h].text].count;
              (count == n <==> n <= INT_MAX) && (count - n) % TWO_TO_32 == 0 && -INT_MAX - 1 <= count <= INT_MAX
    {
      assert HandleShown(store, view, h) && TextShown(store, view, store[h].text);
      count := AsInt(Masked(store[h]));
    }

    /** Gives a reference up; the last one removes the string. */
    method FreeString(h: nat)
      requires Valid() && h in store
      modifies this
      ensures Valid() && h in old(store)
      ensures var text := old(store)[h].text;
        text in old(view) && old(view)[text].handle == h
        && view == if old(view)[text].count > 1 then old(view)[text := Live(h, old(view)[text].count - 1)]
                   else old(view) - {text}
      ensures Performs(old(view), Free(old(store)[h].text), view)
    {
      var text := store[h].text;
      assert HandleShown(store, view, h) && TextShown(store, view, text);
      CountPositive(hash, buckets, store, chains, h);
      if Masked(store[h]) > 1 {
        Recount(h, store[h].refcount - 1);
      } else {
        Unlink(h);
      }
    }

    /** Takes a record out of its chain and frees it. */
    method Unlink(h: nat)
      requires Valid() && h in store
      modifies this
      ensures Valid() && h in old(store) && view == old(view) - {old(store)[h].text}
      ensures var b := Bucket(old(store)[h].text);
        exists i :: 0 <= i < |old(chains)[b]| && old(chains)[b][i] == h
                    && chains == old(chains)[b := Without(old(chains)[b], i)]
    {
      ghost var b := Bucket(store[h].text);
      ghost var c := chains[b];
      ghost var i := Place(hash, buckets, store, chains, h, b);
      ghost var before, heads, shown := store, buckets, view;
      var r := store[h];
      if IsHead(r) {
        UnlinkHead(h, c, b);
      } else {
        UnlinkLater(h, c, i, b);
      }
      ShowsUnlinked(before, store, shown, c, i, b);
      view := view - {r.text};
      Unlinked(hash, heads, before, chains, buckets, store, b, i);
      chains := chains[b := Without(c, i)];
    }

    method UnlinkHead(h: nat, ghost c: seq<nat>, ghost b: nat)
      requires h in store && c != [] && c[0] == h && ChainOk(store, b, c) && b < |buckets|
      modifies `buckets, `store
      ensures IsUnlinked(old(store), store, c, 0, b)
      ensures buckets == old(buckets)[b := if |c| > 1 then Some(c[1]) else None]
    {
      var r := store[h];
      assert RecordOk(store, b, c, 0);
      if r.next.Some? {
        var x := r.next.value;
        assert RecordOk(store, b, c, 1) && Distinct(c, 0, 1);
        buckets := buckets[r.link := Some(x)];
        store := store[x := store[x].(link := r.link, refcount := store[x].refcount + TOPBIT)];
      } else {
        buckets := buckets[r.link := None];
      }
      store := store - {h};
    }

    method UnlinkLater(h: nat, ghost c: seq<nat>, ghost i: nat, ghost b: nat)
      requires h in store && 0 < i < |c| && c[i] == h && ChainOk(store, b, c)
      modifies `store
      ensures IsUnlinked(old(store), store, c, i, b)
    {
      var r := store[h];
      assert RecordOk(store, b, c, i) && RecordOk(store, b, c, i - 1);
      Neighbours(c, i);
      if r.next.Some? {
        var x := r.next.value;
        assert RecordOk(store, b, c, i + 1);
        store := store[x := store[x].(link := r.link)];
      }
      store := store[r.link := store[r.link].(next := r.next)];
      store := store - {h};
    }
  }

  /** Where in its chain a record is; only the first record is tagged. */
  lemma Place(hash: string -> nat, buckets: seq<Option<nat>>, store: Store, chains: seq<seq<nat>>, h: nat, b: nat)
      returns (i: nat)
    requires Consistent(hash, buckets, store, chains) && h in store && b == Slot(hash, store[h].text)
    ensures i < |chains[b]| && chains[b][i] == h && ChainOk(store, b, chains[b]) && (IsHead(store[h]) <==> i == 0)
  {
    assert BucketAt(hash, buckets, store, chains, b) && InChain(hash, store, chains, h);
    i :| 0 <= i < |chains[b]| && chains[b][i] == h;
    assert RecordOk(store, b, chains[b], i);
  }

  /** Unlinking a record hides its text and nothing else. */
  lemma ShowsUnlinked(store: Store, store': Store, view: View, c: seq<nat>, i: nat, b: nat)
    requires i < |c| && ChainOk(store, b, c) && IsUnlinked(store, store', c, i, b)
    requires Shows(store, view) && c[i] in store
    ensures Shows(store', view - {store[c[i]].text})
  {
    var relinked := store'[c[i] := store[c[i]]];
    Neighbours(c, i);
    assert i + 1 < |c| ==> RecordOk(store, b, c, i + 1);
    assert i > 0 ==> RecordOk(store, b, c, i - 1);
    ShowsIgnoresLinks(store, relinked, view);
    ShowsRemove(relinked, view, c[i]);
    assert relinked - {c[i]} == store';
  }

  lemma CountPositive(hash: string -> nat, buckets: seq<Option<nat>>, store: Store, chains: seq<seq<nat>>, h: nat)
    requires Consistent(hash, buckets, store, chains) && h in store
    ensures 0 < Masked(store[h]) < TOPBIT
  {
    var b := Slot(hash, store[h].text);
    assert BucketAt(hash, buckets, store, chains, b) && InChain(hash, store, chains, h);
    var i :| 0 <= i < |chains[b]| && chains[b][i] == h;
    assert RecordOk(store, b, chains[b], i);
  }

  lemma Neighbours(c: seq<nat>, i: nat)
    requires i < |c| && forall j, k :: 0 <= j < k < |c| ==> Distinct(c, j, k)
    ensures i > 0 ==> c[i - 1] != c[i]
    ensures i + 1 < |c| ==> c[i + 1] != c[i]
    ensures 0 < i && i + 1 < |c| ==> c[i - 1] != c[i + 1]
  {
    assert i > 0 ==> Distinct(c, i - 1, i);
    assert i + 1 < |c| ==> Distinct(c, i, i + 1);
    assert 0 < i && i + 1 < |c| ==> Distinct(c, i - 1, i + 1);
  }

  lemma WithoutHas(c: seq<nat>, i: nat)
    requires i < |c| && forall j, k :: 0 <= j < k < |c| ==> Distinct(c, j, k)
    ensures forall x :: x in Without(c, i) <==> x in c && x != c[i]
  {
    var c' := Without(c, i);
    forall x | x in c' ensures x in c && x != c[i] {
      var k :| 0 <= k < |c'| && c'[k] == x;
      var j := if k < i then k else k + 1;
      assert x == c[j] && if j < i then Distinct(c, j, i) else Distinct(c, i, j);
    }
    forall x | x in c && x != c[i] ensures x in c' {
      var k :| 0 <= k < |c| && c[k] == x;
      assert c'[if k < i then k else k - 1] == x;
    }
  }

  /** The store after record `i` of chain `c` was unlinked and freed. */
  ghost predicate IsUnlinked(store: Store, store': Store, c: seq<nat>, i: nat, b: nat)
    requires i < |c|
  {
    && (forall x :: x in store' <==> x in store && x != c[i])
    && (forall x :: x in store' && (i == 0 || x != c[i - 1]) && (i + 1 == |c| || x != c[i + 1]) ==>
          store'[x] == store[x])
    && (i > 0 && c[i - 1] in store' ==>
          store'[c[i - 1]] == store[c[i - 1]].(next := if i + 1 < |c| then Some(c[i + 1]) else None))
    && (i + 1 < |c| && c[i + 1] in store' ==>
          store'[c[i + 1]] == if i == 0 then store[c[1]].(link := b, refcount := store[c[1]].refcount + TOPBIT)
                              else store[c[i + 1]].(link := c[i - 1]))
  }

  /** The chain without its i-th record. */
  lemma UnlinkedChain(store: Store, store': Store, b: nat, c: seq<nat>, i: nat)
    requires ChainOk(store, b, c) && i < |c| && IsUnlinked(store, store', c, i, b)
    requires forall x :: x in c ==> x in store
    ensures ChainOk(store', b, Without(c, i))
  {
    forall k | 0 <= k < |c| ensures c[k] in store && (k != i ==> c[k] != c[i]) {
      assert c[k] in c;
      assert k < i ==> Distinct(c, k, i);
      assert i < k ==> Distinct(c, i, k);
    }
    if i == 0 {
      assert Without(c, i) == c[1..];
      ChainRemoveHead(store, store', b, c);
    } else {
      forall k | 0 <= k < |c| && k != i - 1 && k != i && k != i + 1 ensures store'[c[k]] == store[c[k]] {
        assert if k < i then Distinct(c, k, i - 1) else Distinct(c, i - 1, k);
        assert i + 1 < |c| ==> if k < i then Distinct(c, k, i + 1) else Distinct(c, i + 1, k);
      }
      ChainRemoveLater(store, store', b, c, i);
    }
  }

  /** Unlinking leaves the table in order. */
  lemma Unlinked(hash: string -> nat, buckets: seq<Option<nat>>, store: Store, chains: seq<seq<nat>>,
                 buckets': seq<Option<nat>>, store': Store, b: nat, i: nat)
    requires Consistent(hash, buckets, store, chains) && b < TABLE_SIZE && i < |chains[b]|
    requires IsUnlinked(store, store', chains[b], i, b)
    requires buckets' == if i > 0 then buckets
                         else buckets[b := if |chains[b]| > 1 then Some(chains[b][1]) else None]
    ensures Consistent(hash, buckets', store', chains[b := Without(chains[b], i)])
  {
    var c := chains[b];
    var c' := Without(c, i);
    assert BucketAt(hash, buckets, store, chains, b);
    KeptInChain(hash, store, chains, b);
    UnlinkedChain(store, store', b, c, i);
    if i == 0 {
      assert c' == c[1..];
    }
    WithoutHas(c, i);
    assert forall x :: x in c' ==> x in store' && store'[x].text == store[x].text;
    OneBucketChanged(hash, buckets, store, chains, buckets', store', b, c');
  }

  /** The first record of an empty bucket. */
  lemma HeadAdded(hash: string -> nat, buckets: seq<Option<nat>>, store: Store, chains: seq<seq<nat>>, h: nat,
                  text: string)
    requires Consistent(hash, buckets, store, chains) && h !in store && chains[Slot(hash, text)] == []
    ensures var b := Slot(hash, text);
      Consistent(hash, buckets[b := Some(h)], store[h := Record(b, None, 1 + TOPBIT, text)], chains[b := [] + [h]])
  {
    var b := Slot(hash, text);
    var store' := store[h := Record(b, None, 1 + TOPBIT, text)];
    KeptInChain(hash, store, chains, b);
    assert RecordOk(store', b, [h], 0);
    OneBucketChanged(hash, buckets, store, chains, buckets[b := Some(h)], store', b, [] + [h]);
  }

  /** A record linked behind the last one of its chain. */
  lemma TailAdded(hash: string -> nat, buckets: seq<Option<nat>>, store: Store, chains: seq<seq<nat>>, view: View,
                  h: nat, t: nat, text: string)
    requires Consistent(hash, buckets, store, chains) && Shows(store, view) && h !in store && text !in view
    requires var c := chains[Slot(hash, text)]; c != [] && t == c[|c| - 1]
    ensures t in store && t != h
    ensures var b := Slot(hash, text);
      var store' := store[h := Record(t, None, 1, text)][t := store[t].(next := Some(h))];
      Consistent(hash, buckets, store', chains[b := chains[b] + [h]]) && Shows(store', view[text := Live(h, 1)])
  {
    var b := Slot(hash, text);
    var c := chains[b];
    assert BucketAt(hash, buckets, store, chains, b);
    assert RecordOk(store, b, c, |c| - 1) && t in c;
    var added := store[h := Record(t, None, 1, text)];
    var store' := added[t := store[t].(next := Some(h))];
    ShowsSet(store, view, h, Record(t, None, 1, text));
    ShowsIgnoresLinks(added, store', view[text := Live(h, 1)]);
    ChainAppend(store, b, c, h, text);
    KeptInChain(hash, store, chains, b);
    OneBucketChanged(hash, buckets, store, chains, buckets, store', b, c + [h]);
  }

  lemma KeptInChain(hash: string -> nat, store: Store, chains: seq<seq<nat>>, b: nat)
    requires |chains| == TABLE_SIZE && b < TABLE_SIZE && forall h :: h in store ==> InChain(hash, store, chains, h)
    ensures forall x :: x in store && Slot(hash, store[x].text) == b ==> x in chains[b]
  {
    forall x | x in store && Slot(hash, store[x].text) == b ensures x in chains[b] {
      assert InChain(hash, store, chains, x);
    }
  }

  /** A finite set of addresses leaves one free. */
  lemma {:induction false} UnusedAddress(used: set<nat>)
    ensures exists h: nat :: h !in used
    decreases |used|
  {
    var bound := Above(used);
    assert bound !in used;
  }

  ghost function Above(used: set<nat>): (bound: nat)
    ensures forall h :: h in used ==> h < bound
    decreases |used|
  {
    if used == {} then 0
    else
      var x :| x in used;
      var rest := Above(used - {x});
      assert forall h :: h in used ==> h == x || h in used - {x};
      if x < rest then rest else x + 1
  }

  // ---------------------------------------------------------------- over every run

  /** Two live handles are the same object exactly when their contents are equal. */
  lemma HandlesAreCanonical(store: Store, view: View, h: nat, k: nat)
    requires Shows(store, view) && h in store && k in store
    ensures h == k <==> store[h].text == store[k].text
  {
    assert HandleShown(store, view, h) && HandleShown(store, view, k);
  }

  datatype Operation = Add(text: string) | Reference(text: string) | Free(text: string)

  /** What one call does to the view; references and frees are made with a live handle. */
  ghost predicate Performs(view: View, op: Operation, view': View) {
    var text := op.text;
    match op
    case Add(_) =>
      if text in view then view' == view[text := Live(view[text].handle, view[text].count + 1)]
      else text in view' && view' == view[text := Live(view'[text].handle, 1)]
    case Reference(_) => text in view && view' == view[text := Live(view[text].handle, view[text].count + 1)]
    case Free(_) =>
      && text in view
      && view' == if view[text].count > 1 then view[text := Live(view[text].handle, view[text].count - 1)]
                  else view - {text}
  }

  /** A run from the empty table. */
  ghost predicate IsRun(trace: seq<View>, ops: seq<Operation>) {
    && |trace| == |ops| + 1 && trace[0] == map[]
    && forall k :: 0 <= k < |ops| ==> Performs(trace[k], ops[k], trace[k + 1])
  }

  /** Adds plus references minus frees of a text. */
  ghost function Balance(ops: seq<Operation>, text: string): int {
    if ops == [] then 0
    else
      var op := ops[|ops| - 1];
      Balance(ops[..|ops| - 1], text) + if op.text != text then 0 else if op.Free? then -1 else 1
  }

  /** After every run a text is live exactly while its balance is positive, and its count is the balance. */
  lemma {:induction false} CountIsBalance(trace: seq<View>, ops: seq<Operation>, k: nat, text: string)
    requires IsRun(trace, ops) && k < |trace|
    ensures text in trace[k] <==> Balance(ops[..k], text) > 0
    ensures text in trace[k] ==> trace[k][text].count == Balance(ops[..k], text)
    ensures Balance(ops[..k], text) >= 0
  {
    if k > 0 {
      CountIsBalance(trace, ops, k - 1, text);
      assert Performs(trace[k - 1], ops[k - 1], trace[k]);
      assert ops[..k][..k - 1] == ops[..k - 1];
    }
  }

  /** A handle stays the same for as long as its text stays live. */
  lemma {:induction false} HandleIsStable(trace: seq<View>, ops: seq<Operation>, i: nat, k: nat, text: string)
    requires IsRun(trace, ops) && i <= k < |trace|
    requires forall j :: i <= j <= k ==> text in trace[j]
    ensures trace[k][text].handle == trace[i][text].handle
    decreases k
  {
    if i < k {
      HandleIsStable(trace, ops, i, k - 1, text);
      assert Performs(trace[k - 1], ops[k - 1], trace[k]);
    }
  }
}
