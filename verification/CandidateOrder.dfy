/**
 How connection candidates are ranked and grouped before they race: by route
 kind, with the requested kind moved to the front of its class, and with every
 NAT-derived candidate serialised through one task.
 */
module CandidateOrder {
  import opened Wrappers

  datatype Kind = Lan | Ipv6 | Prflx | Mapped | Srflx | Directory

  datatype Candidate = Candidate(kind: Kind, host: string, port: nat)

  const PRIORITIES: seq<Kind> := [Lan, Ipv6, Prflx, Mapped, Srflx, Directory]

  predicate IsLocal(kind: Kind) {
    kind == Lan || kind == Ipv6
  }

  predicate IsNat(kind: Kind) {
    kind == Prflx || kind == Mapped || kind == Srflx
  }

  /** The kinds in the list other than the one to skip. */
  function Without(kinds: seq<Kind>, skip: Option<Kind>): seq<Kind> {
    if kinds == [] then []
    else
      var k := |kinds| - 1;
      Without(kinds[..k], skip) + if skip == Some(kinds[k]) then [] else [kinds[k]]
  }

  function Front(preferred: Option<Kind>, local: bool): seq<Kind> {
    if preferred.Some? && IsLocal(preferred.value) == local then [preferred.value] else []
  }

  /** The order in which kinds are tried. */
  function KindOrder(preferred: Option<Kind>): seq<Kind> {
    Front(preferred, true) + Without(PRIORITIES[..2], preferred)
    + Front(preferred, false) + Without(PRIORITIES[2..], preferred)
  }

  method OrderKinds(preferred: Option<Kind>) returns (order: seq<Kind>)
    ensures order == KindOrder(preferred)
  {
    order := AppendOthers(Front(preferred, true), PRIORITIES, 0, 2, preferred);
    order := AppendOthers(order + Front(preferred, false), PRIORITIES, 2, 6, preferred);
    assert PRIORITIES[0..2] == PRIORITIES[..2] && PRIORITIES[2..6] == PRIORITIES[2..];
  }

  /** The loop over the kinds of one class. */
  method AppendOthers(order: seq<Kind>, kinds: seq<Kind>, from: nat, to: nat, preferred: Option<Kind>)
      returns (longer: seq<Kind>)
    requires from <= to <= |kinds|
    ensures longer == order + Without(kinds[from..to], preferred)
  {
    longer := order;
    for i := from to to
      invariant longer == order + Without(kinds[from..i], preferred)
    {
      assert kinds[from..i + 1][..i - from] == kinds[from..i];
      if preferred != Some(kinds[i]) {
        longer := longer + [kinds[i]];
      }
    }
  }

  lemma KindOrderIsTable(preferred: Option<Kind>, order: seq<Kind>)
    requires order == KindOrder(preferred)
    ensures order == Table(preferred)
  {
    assert PRIORITIES[..2] == [Lan, Ipv6] && PRIORITIES[2..] == [Prflx, Mapped] + [Srflx, Directory];
    WithoutPair(Lan, Ipv6, preferred);
    WithoutConcat([Prflx, Mapped], [Srflx, Directory], preferred);
    WithoutPair(Prflx, Mapped, preferred);
    WithoutPair(Srflx, Directory, preferred);
    OrderIsTable(preferred, order);
  }

  /**
   Every kind is tried once, local ones first, and the preferred one first in its class; the
   others of a class are tried in the order of their places.
   */
  lemma KindOrderShape(preferred: Option<Kind>, order: seq<Kind>)
    requires order == KindOrder(preferred)
    ensures |order| == 6 && NoRepeats(order) && forall kind :: kind in order
    ensures forall i :: 0 <= i < 6 ==> (IsLocal(order[i]) <==> i < 2)
    ensures preferred.Some? ==> order[if IsLocal(preferred.value) then 0 else 2] == preferred.value
    ensures preferred.None? ==> order == PRIORITIES
    ensures forall i, j :: 0 <= i < j < 6 ==> Desire(preferred, order[i]) < Desire(preferred, order[j])
    ensures forall i, j | 0 <= i < j < 6 && (j < 2 || i >= 2) && preferred != Some(order[i]) ::
              Place(order[i]) < Place(order[j]) && preferred != Some(order[j])
  {
    KindOrderIsTable(preferred, order);
    TableOnce(preferred);
    TableByClass(preferred);
    OrderByPlace(preferred, order);
    forall kind: Kind ensures kind in order {
      TableHasAll(preferred, kind);
    }
  }

  /** The place of a kind when nothing is preferred. */
  function Place(kind: Kind): nat {
    match kind
    case Lan => 0
    case Ipv6 => 1
    case Prflx => 2
    case Mapped => 3
    case Srflx => 4
    case Directory => 5
  }

  /** Local kinds first; within each of the two classes the preferred kind, then the others by their places. */
  function Desire(preferred: Option<Kind>, kind: Kind): nat {
    (if kind == Lan || kind == Ipv6 then 0 else 10) + if preferred == Some(kind) then 0 else 1 + Place(kind)
  }

  function Unless(skip: Option<Kind>, kind: Kind): seq<Kind> {
    if skip == Some(kind) then [] else [kind]
  }

  /** The seven possible orders, written out. */
  function Table(preferred: Option<Kind>): seq<Kind> {
    match preferred
    case None => [Lan, Ipv6, Prflx, Mapped, Srflx, Directory]
    case Some(Lan) => [Lan, Ipv6, Prflx, Mapped, Srflx, Directory]
    case Some(Ipv6) => [Ipv6, Lan, Prflx, Mapped, Srflx, Directory]
    case Some(Prflx) => [Lan, Ipv6, Prflx, Mapped, Srflx, Directory]
    case Some(Mapped) => [Lan, Ipv6, Mapped, Prflx, Srflx, Directory]
    case Some(Srflx) => [Lan, Ipv6, Srflx, Prflx, Mapped, Directory]
    case Some(Directory) => [Lan, Ipv6, Directory, Prflx, Mapped, Srflx]
  }

  lemma LocalsInTable(preferred: Option<Kind>)
    ensures Front(preferred, true) + (Unless(preferred, Lan) + Unless(preferred, Ipv6)) == Table(preferred)[..2]
  {
  }

  lemma RemotesInTable(preferred: Option<Kind>)
    ensures Front(preferred, false)
            + ((Unless(preferred, Prflx) + Unless(preferred, Mapped))
               + (Unless(preferred, Srflx) + Unless(preferred, Directory)))
            == Table(preferred)[2..]
  {
  }

  lemma OrderIsTable(preferred: Option<Kind>, order: seq<Kind>)
    requires order == Front(preferred, true) + (Unless(preferred, Lan) + Unless(preferred, Ipv6))
                      + Front(preferred, false)
                      + ((Unless(preferred, Prflx) + Unless(preferred, Mapped))
                         + (Unless(preferred, Srflx) + Unless(preferred, Directory)))
    ensures order == Table(preferred)
  {
    LocalsInTable(preferred);
    RemotesInTable(preferred);
    assert order == Table(preferred)[..2] + Table(preferred)[2..];
  }

  lemma TableOnce(preferred: Option<Kind>)
    ensures NoRepeats(Table(preferred))
  {
    var t := Table(preferred);
    forall i, j | 0 <= i < j < 6 ensures t[i] != t[j] {
      assert i == 0 || i == 1 || i == 2 || i == 3 || i == 4;
      assert j == 1 || j == 2 || j == 3 || j == 4 || j == 5;
    }
  }

  lemma TableByClass(preferred: Option<Kind>)
    ensures forall i :: 0 <= i < 6 ==> (IsLocal(Table(preferred)[i]) <==> i < 2)
    ensures preferred.Some? ==> Table(preferred)[if IsLocal(preferred.value) then 0 else 2] == preferred.value
    ensures preferred.None? ==> Table(preferred) == PRIORITIES
  {
    var t := Table(preferred);
    forall i | 0 <= i < 6 ensures IsLocal(t[i]) <==> i < 2 {
      assert i == 0 || i == 1 || i == 2 || i == 3 || i == 4 || i == 5;
    }
  }

  lemma ByPlace(preferred: Option<Kind>, a: Kind, b: Kind)
    requires Desire(preferred, a) < Desire(preferred, b) && IsLocal(a) == IsLocal(b) && preferred != Some(a)
    ensures Place(a) < Place(b) && preferred != Some(b)
  {
  }

  lemma NextDesire(preferred: Option<Kind>, i: nat)
    requires i < 5
    ensures Desire(preferred, Table(preferred)[i]) < Desire(preferred, Table(preferred)[i + 1])
  {
    match preferred
    case None =>
    case Some(kind) => assert i == 0 || i == 1 || i == 2 || i == 3 || i == 4;
  }

  lemma {:induction false} TableByDesire(preferred: Option<Kind>, i: nat, j: nat)
    requires i < j < 6
    ensures Desire(preferred, Table(preferred)[i]) < Desire(preferred, Table(preferred)[j])
    decreases j
  {
    NextDesire(preferred, j - 1);
    if i < j - 1 {
      TableByDesire(preferred, i, j - 1);
    }
  }

  /** The whole order: by desire, so that within each class the kinds not preferred keep their places. */
  lemma OrderByPlace(preferred: Option<Kind>, order: seq<Kind>)
    requires order == Table(preferred)
    ensures forall i, j :: 0 <= i < j < 6 ==> Desire(preferred, order[i]) < Desire(preferred, order[j])
    ensures forall i, j | 0 <= i < j < 6 && (j < 2 || i >= 2) && preferred != Some(order[i]) ::
              Place(order[i]) < Place(order[j]) && preferred != Some(order[j])
  {
    TableByClass(preferred);
    forall i, j | 0 <= i < j < 6 ensures Desire(preferred, order[i]) < Desire(preferred, order[j]) {
      TableByDesire(preferred, i, j);
    }
    forall i, j | 0 <= i < j < 6 && (j < 2 || i >= 2) && preferred != Some(order[i])
      ensures Place(order[i]) < Place(order[j]) && preferred != Some(order[j])
    {
      ByPlace(preferred, order[i], order[j]);
    }
  }

  lemma TableHasAll(preferred: Option<Kind>, kind: Kind)
    ensures kind in Table(preferred)
  {
    var t := Table(preferred);
    assert t[0] in t && t[1] in t && t[2] in t && t[3] in t && t[4] in t && t[5] in t;
  }

  lemma WithoutPair(a: Kind, b: Kind, skip: Option<Kind>)
    ensures Without([a, b], skip) == Unless(skip, a) + Unless(skip, b)
  {
    assert [a, b][..1] == [a] && [a][..0] == [];
    assert Without([a], skip) == Unless(skip, a);
  }

  lemma {:induction false} WithoutConcat(xs: seq<Kind>, ys: seq<Kind>, skip: Option<Kind>)
    ensures Without(xs + ys, skip) == Without(xs, skip) + Without(ys, skip)
    decreases |ys|
  {
    if ys == [] {
      assert xs + ys == xs;
    } else {
      var k := |ys| - 1;
      assert (xs + ys)[..|xs| + k] == xs + ys[..k];
      WithoutConcat(xs, ys[..k], skip);
    }
  }

  // ---------------------------------------------------------------- ranking

  /** The candidates of one kind, in their given order. */
  function OfKind(candidates: seq<Candidate>, kind: Kind): seq<Candidate> {
    if candidates == [] then []
    else
      var k := |candidates| - 1;
      OfKind(candidates[..k], kind) + if candidates[k].kind == kind then [candidates[k]] else []
  }

  /** Kind by kind, keeping the given order within each kind. */
  function Ranked(candidates: seq<Candidate>, order: seq<Kind>): seq<Candidate> {
    if order == [] then []
    else Ranked(candidates, order[..|order| - 1]) + OfKind(candidates, order[|order| - 1])
  }

  method RankCandidates(candidates: seq<Candidate>, order: seq<Kind>) returns (ranked: seq<Candidate>)
    ensures ranked == Ranked(candidates, order)
  {
    ranked := [];
    for p := 0 to |order|
      invariant ranked == Ranked(candidates, order[..p])
    {
      ghost var before := ranked;
      for i := 0 to |candidates|
        invariant ranked == before + OfKind(candidates[..i], order[p])
      {
        assert candidates[..i + 1][..i] == candidates[..i];
        if candidates[i].kind == order[p] {
          ranked := ranked + [candidates[i]];
        }
      }
      assert candidates[..|candidates|] == candidates;
      assert order[..p + 1][..p] == order[..p];
    }
    assert order[..|order|] == order;
  }

  lemma {:induction false} OfKindHas(candidates: seq<Candidate>, kind: Kind)
    ensures forall c :: multiset(OfKind(candidates, kind))[c] == if c.kind == kind then multiset(candidates)[c] else 0
    decreases |candidates|
  {
    if candidates != [] {
      var k := |candidates| - 1;
      OfKindHas(candidates[..k], kind);
      assert candidates == candidates[..k] + [candidates[k]];
    }
  }

  lemma {:induction false} RankedHas(candidates: seq<Candidate>, order: seq<Kind>, c: Candidate)
    requires NoRepeats(order)
    ensures multiset(Ranked(candidates, order))[c] == if c.kind in order then multiset(candidates)[c] else 0
    decreases |order|
  {
    if order != [] {
      var k := |order| - 1;
      RankedHas(candidates, order[..k], c);
      OfKindHas(candidates, order[k]);
      assert order == order[..k] + [order[k]];
    }
  }

  /** Ranking loses no candidate and invents none. */
  lemma RankedIsPermutation(candidates: seq<Candidate>, order: seq<Kind>)
    requires NoRepeats(order) && forall kind :: kind in order
    ensures multiset(Ranked(candidates, order)) == multiset(candidates)
  {
    forall c ensures multiset(Ranked(candidates, order))[c] == multiset(candidates)[c] {
      RankedHas(candidates, order, c);
    }
  }

  lemma {:induction false} OfKindOnly(candidates: seq<Candidate>, kind: Kind)
    ensures forall i :: 0 <= i < |OfKind(candidates, kind)| ==> OfKind(candidates, kind)[i].kind == kind
    decreases |candidates|
  {
    if candidates != [] {
      OfKindOnly(candidates[..|candidates| - 1], kind);
    }
  }

  /** A better rank never has a less preferred kind. */
  lemma {:induction false} RankedByKind(candidates: seq<Candidate>, order: seq<Kind>, i: nat, j: nat)
      returns (p: nat, q: nat)
    requires i <= j < |Ranked(candidates, order)|
    ensures p <= q < |order| && order[p] == Ranked(candidates, order)[i].kind
    ensures order[q] == Ranked(candidates, order)[j].kind
    decreases |order|
  {
    var k := |order| - 1;
    var front := Ranked(candidates, order[..k]);
    OfKindOnly(candidates, order[k]);
    if j < |front| {
      p, q := RankedByKind(candidates, order[..k], i, j);
    } else if i < |front| {
      p, q := RankedByKind(candidates, order[..k], i, i);
      q := k;
    } else {
      p, q := k, k;
    }
  }

  /** The i-th of the candidates ranked stood at place from[i]. */
  ghost predicate StoodAt(candidates: seq<Candidate>, ranked: seq<Candidate>, from: seq<nat>, i: nat)
    requires i < |ranked| == |from|
  {
    from[i] < |candidates| && candidates[from[i]] == ranked[i]
  }

  /** Candidates of one kind are ranked in the order in which they stood. */
  ghost predicate StableAt(ranked: seq<Candidate>, from: seq<nat>, i: nat, j: nat)
    requires i < |ranked| == |from| && j < |ranked|
  {
    from[i] != from[j] && (ranked[i].kind == ranked[j].kind ==> from[i] < from[j])
  }

  ghost predicate Stable(candidates: seq<Candidate>, ranked: seq<Candidate>, from: seq<nat>) {
    && |from| == |ranked|
    && (forall i :: 0 <= i < |ranked| ==> StoodAt(candidates, ranked, from, i))
    && (forall i, j :: 0 <= i < j < |ranked| ==> StableAt(ranked, from, i, j))
  }

  lemma {:induction false} OfKindStable(candidates: seq<Candidate>, kind: Kind) returns (from: seq<nat>)
    ensures Stable(candidates, OfKind(candidates, kind), from)
    decreases |candidates|
  {
    from := [];
    if candidates != [] {
      var k := |candidates| - 1;
      var front := OfKind(candidates[..k], kind);
      from := OfKindStable(candidates[..k], kind);
      StableLonger(candidates, k, front, from);
      if candidates[k].kind == kind {
        from := from + [k];
      } else {
        assert front + [] == front;
      }
    }
  }

  /** One more candidate at the end, ranked behind the others or not at all. */
  lemma StableLonger(candidates: seq<Candidate>, k: nat, front: seq<Candidate>, from: seq<nat>)
    requires k + 1 == |candidates| && Stable(candidates[..k], front, from)
    ensures Stable(candidates, front, from)
    ensures Stable(candidates, front + [candidates[k]], from + [k])
  {
    var ranked, all := front + [candidates[k]], from + [k];
    forall i | 0 <= i < |front|
      ensures StoodAt(candidates, front, from, i) && StoodAt(candidates, ranked, all, i) && from[i] < k
    {
      assert StoodAt(candidates[..k], front, from, i);
    }
    assert StoodAt(candidates, ranked, all, |front|);
    forall i, j | 0 <= i < j < |ranked| ensures StableAt(ranked, all, i, j) {
      if j < |front| {
        assert StableAt(front, from, i, j);
      } else {
        assert StoodAt(candidates[..k], front, from, i);
      }
    }
  }

  /** Two runs of candidates that share no kind. */
  lemma StableConcat(candidates: seq<Candidate>, a: seq<Candidate>, b: seq<Candidate>, from: seq<nat>, from': seq<nat>)
    requires Stable(candidates, a, from) && Stable(candidates, b, from')
    requires forall i, j :: 0 <= i < |a| && 0 <= j < |b| ==> a[i].kind != b[j].kind
    ensures Stable(candidates, a + b, from + from')
  {
    var ranked, all := a + b, from + from';
    forall i | 0 <= i < |ranked| ensures StoodAt(candidates, ranked, all, i) {
      assert if i < |a| then StoodAt(candidates, a, from, i) else StoodAt(candidates, b, from', i - |a|);
    }
    forall i, j | 0 <= i < j < |ranked| ensures StableAt(ranked, all, i, j) {
      if j < |a| {
        assert StableAt(a, from, i, j);
      } else if i < |a| {
        assert StoodAt(candidates, a, from, i) && StoodAt(candidates, b, from', j - |a|);
      } else {
        assert StableAt(b, from', i - |a|, j - |a|);
      }
    }
  }

  /** Ranking is stable: `from` tells where each candidate stood, and no two stood at the same place. */
  lemma {:induction false} RankedIsStable(candidates: seq<Candidate>, order: seq<Kind>) returns (from: seq<nat>)
    requires NoRepeats(order)
    ensures Stable(candidates, Ranked(candidates, order), from)
    decreases |order|
  {
    from := [];
    if order != [] {
      var k := |order| - 1;
      var front, last := Ranked(candidates, order[..k]), OfKind(candidates, order[k]);
      var before := RankedIsStable(candidates, order[..k]);
      var from' := OfKindStable(candidates, order[k]);
      OfKindOnly(candidates, order[k]);
      forall i, j | 0 <= i < |front| && 0 <= j < |last| ensures front[i].kind != last[j].kind {
        var p, q := RankedByKind(candidates, order[..k], i, i);
      }
      StableConcat(candidates, front, last, before, from');
      from := before + from';
    }
  }

  // ---------------------------------------------------------------- grouping

  /** The ranks a task tries, in order. */
  type Group = seq<nat>

  ghost predicate Ascending(group: Group) {
    forall i, j :: 0 <= i < j < |group| ==> group[i] < group[j]
  }

  lemma AscendingSnoc(group: Group, rank: nat)
    requires Ascending(group) && forall r :: r in group ==> r < rank
    ensures Ascending(group + [rank])
  {
    forall i | 0 <= i < |group| ensures group[i] < rank {
      assert group[i] in group;
    }
  }

  /** `g` and only `g` holds the rank. */
  ghost predicate InGroup(groups: seq<Group>, rank: nat, g: nat) {
    g < |groups| && rank in groups[g] && forall k :: 0 <= k < |groups| && k != g ==> rank !in groups[k]
  }

  /** A group holds resolved ranks in ascending order; only the shared NAT group has several. */
  ghost predicate GroupOk(ranked: seq<Candidate>, resolves: seq<bool>, group: Group, isShared: bool, n: nat)
    requires n <= |ranked| == |resolves|
  {
    && group != [] && Ascending(group)
    && (forall rank :: rank in group ==>
          rank < n && resolves[rank] && (ranked[rank].kind in {Prflx, Mapped, Srflx} <==> isShared))
    && (!isShared ==> |group| == 1)
  }

  ghost predicate Placed(groups: seq<Group>, rank: nat) {
    exists g :: InGroup(groups, rank, g)
  }

  lemma StaysPlaced(groups: seq<Group>, groups': seq<Group>, rank: nat, added: nat)
    requires Placed(groups, rank) && rank != added && |groups| <= |groups'|
    requires forall g :: 0 <= g < |groups| ==> (rank in groups'[g] <==> rank in groups[g])
    requires forall g :: |groups| <= g < |groups'| ==> rank !in groups'[g]
    ensures Placed(groups', rank)
  {
    var g :| InGroup(groups, rank, g);
    assert InGroup(groups', rank, g);
  }

  ghost predicate StartsBefore(groups: seq<Group>, g: nat, h: nat)
    requires g < |groups| && h < |groups|
  {
    groups[g] != [] && groups[h] != [] && groups[g][0] < groups[h][0]
  }

  /** The candidates ranked below n are in groups. */
  ghost predicate Grouped(ranked: seq<Candidate>, resolves: seq<bool>, groups: seq<Group>, shared: Option<nat>, n: nat)
    requires n <= |ranked| == |resolves|
  {
    && (shared.Some? ==> shared.value < |groups|)
    && (forall g :: 0 <= g < |groups| ==> GroupOk(ranked, resolves, groups[g], shared == Some(g), n))
    && (forall rank :: 0 <= rank < n && resolves[rank] ==> Placed(groups, rank))
    && (forall g, h :: 0 <= g < h < |groups| ==> StartsBefore(groups, g, h))
  }

  /** A group of its own for the next candidate. */
  lemma OpensGroup(ranked: seq<Candidate>, resolves: seq<bool>, groups: seq<Group>, shared: Option<nat>, rank: nat,
                   groups': seq<Group>, shared': Option<nat>)
    requires rank < |ranked| == |resolves| && resolves[rank] && Grouped(ranked, resolves, groups, shared, rank)
    requires IsNat(ranked[rank].kind) ==> shared.None?
    requires groups' == groups + [[rank]] && shared' == if IsNat(ranked[rank].kind) then Some(|groups|) else shared
    ensures Grouped(ranked, resolves, groups', shared', rank + 1)
  {
    forall g | 0 <= g < |groups| ensures GroupOk(ranked, resolves, groups'[g], shared' == Some(g), rank + 1) {
      assert GroupOk(ranked, resolves, groups[g], shared == Some(g), rank);
    }
    assert InGroup(groups', rank, |groups|);
    forall r | 0 <= r < rank && resolves[r] ensures Placed(groups', r) {
      StaysPlaced(groups, groups', r, rank);
    }
    forall g, h | 0 <= g < h < |groups'| ensures StartsBefore(groups', g, h) {
      assert GroupOk(ranked, resolves, groups[g], shared == Some(g), rank) && groups[g][0] in groups[g];
      assert h < |groups| ==> StartsBefore(groups, g, h);
    }
  }

  /** The next NAT candidate joins the others. */
  lemma JoinsShared(ranked: seq<Candidate>, resolves: seq<bool>, groups: seq<Group>, shared: Option<nat>, rank: nat,
                    groups': seq<Group>)
    requires rank < |ranked| == |resolves| && resolves[rank] && Grouped(ranked, resolves, groups, shared, rank)
    requires IsNat(ranked[rank].kind) && shared.Some?
    requires groups' == groups[shared.value := groups[shared.value] + [rank]]
    ensures Grouped(ranked, resolves, groups', shared, rank + 1)
  {
    forall g | 0 <= g < |groups| ensures GroupOk(ranked, resolves, groups'[g], shared == Some(g), rank + 1) {
      assert GroupOk(ranked, resolves, groups[g], shared == Some(g), rank);
      AscendingSnoc(groups[g], rank);
    }
    assert InGroup(groups', rank, shared.value);
    forall r | 0 <= r < rank && resolves[r] ensures Placed(groups', r) {
      StaysPlaced(groups, groups', r, rank);
    }
    forall g, h | 0 <= g < h < |groups'| ensures StartsBefore(groups', g, h) {
      assert StartsBefore(groups, g, h);
    }
  }

  /** Distributes the resolvable candidates, by rank, over the threads that will race. */
  method GroupCandidates(ranked: seq<Candidate>, resolves: seq<bool>) returns (groups: seq<Group>, shared: Option<nat>)
    requires |resolves| == |ranked|
    ensures shared.Some? ==> shared.value < |groups|
    ensures forall g :: 0 <= g < |groups| ==> GroupOk(ranked, resolves, groups[g], shared == Some(g), |ranked|)
    ensures forall rank :: 0 <= rank < |ranked| && resolves[rank] ==> Placed(groups, rank)
    ensures forall g, h :: 0 <= g < h < |groups| ==> StartsBefore(groups, g, h)
  {
    groups, shared := [], None;
    for rank := 0 to |ranked|
      invariant Grouped(ranked, resolves, groups, shared, rank)
    {
      if resolves[rank] {
        ghost var before, shared0 := groups, shared;
        var g;
        if IsNat(ranked[rank].kind) {
          if shared.None? {
            shared := Some(|groups|);
            groups := groups + [[]];
          }
          g := shared.value;
        } else {
          g := |groups|;
          groups := groups + [[]];
        }
        groups := groups[g := groups[g] + [rank]];
        if |groups| > |before| {
          assert groups[|before|] == [rank] && groups == before + [[rank]];
          OpensGroup(ranked, resolves, before, shared0, rank, groups, shared);
        } else {
          JoinsShared(ranked, resolves, before, shared0, rank, groups);
        }
      }
    }
  }
}
