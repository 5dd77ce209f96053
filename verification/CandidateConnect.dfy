/**
 From candidates to a connection: ranking, grouping and the race put together, so that
 what the race returns is a statement about the kinds of route.
 */
module CandidateConnect {
  import opened CandidateOrder
  import opened CandidateRace
  import opened CandidateTries
  import opened Wrappers

  /** The race as it starts: who is ranked where, and which task tries which ranks. */
  datatype Plan = Plan(ranked: seq<Candidate>, groups: seq<Group>, shared: Option<nat>, first: nat, race: Race)

  predicate StartsInDirectory(ranked: seq<Candidate>, group: Group) {
    group != [] && group[0] < |ranked| && ranked[group[0]].kind == Directory
  }

  /** The first group that starts with the directory candidate, else the first group of all. */
  ghost predicate DirectoryFirst(ranked: seq<Candidate>, groups: seq<Group>, k: nat) {
    && k < |groups| && (forall i :: 0 <= i < k ==> !StartsInDirectory(ranked, groups[i]))
    && (StartsInDirectory(ranked, groups[k])
        || (k == 0 && forall i :: 0 <= i < |groups| ==> !StartsInDirectory(ranked, groups[i])))
  }

  /** Which task gets the socket that was used for signalling: the NAT task if there is one. */
  ghost predicate GetsSocket(ranked: seq<Candidate>, groups: seq<Group>, shared: Option<nat>, k: nat) {
    k < |groups| && if shared.Some? then k == shared.value else DirectoryFirst(ranked, groups, k)
  }

  method PickTask(ranked: seq<Candidate>, groups: seq<Group>, shared: Option<nat>) returns (k: nat)
    requires groups != [] && (shared.Some? ==> shared.value < |groups|)
    ensures GetsSocket(ranked, groups, shared, k)
  {
    if shared.Some? {
      return shared.value;
    }
    for i := 0 to |groups|
      invariant forall j :: 0 <= j < i ==> !StartsInDirectory(ranked, groups[j])
    {
      if StartsInDirectory(ranked, groups[i]) {
        return i;
      }
    }
    k := 0;
  }

  function TaskOf(group: Group, socket: Option<nat>): Task {
    Task(group, Idle, 0, socket, None, 0)
  }

  function TasksOf(groups: seq<Group>, first: nat): seq<Task> {
    seq(|groups|, i requires 0 <= i < |groups| => TaskOf(groups[i], if i == first then Some(0) else None))
  }

  function RaceOf(groups: seq<Group>, first: nat): Race {
    Race(TasksOf(groups, first), Spawning, 0, 0, None, false, 1, multiset{}, None, None, None, [], [], [])
  }

  function Resolved(resolves: nat -> bool, n: nat): seq<bool> {
    seq(n, (rank: nat) => resolves(rank))
  }

  /** All that the steps before the race promise about it. */
  ghost predicate Planned(candidates: seq<Candidate>, preferred: Option<Kind>, resolves: nat -> bool, plan: Plan) {
    && plan.ranked == Ranked(candidates, KindOrder(preferred))
    && |plan.ranked| == |candidates|
    && Grouped(plan.ranked, Resolved(resolves, |plan.ranked|), plan.groups, plan.shared, |plan.ranked|)
    && GetsSocket(plan.ranked, plan.groups, plan.shared, plan.first)
    && plan.race == RaceOf(plan.groups, plan.first)
  }

  /** The part of socket_quic_client_create before the race; there is none if no candidate resolves. */
  method PlanRace(candidates: seq<Candidate>, preferred: Option<Kind>, resolves: nat -> bool)
      returns (plan: Option<Plan>)
    ensures plan.Some? <==> exists rank: nat :: rank < |candidates| && resolves(rank)
    ensures plan.Some? ==> Planned(candidates, preferred, resolves, plan.value) && Initial(plan.value.race)
  {
    var order := OrderKinds(preferred);
    KindOrderShape(preferred, order);
    var ranked := RankCandidates(candidates, order);
    RankedIsPermutation(candidates, order);
    SameLength(ranked, candidates);
    var groups, shared := GroupCandidates(ranked, Resolved(resolves, |ranked|));
    SomeGroup(ranked, resolves, groups, shared);
    if groups == [] {
      return None;
    }
    var first := PickTask(ranked, groups, shared);
    RaceStarts(groups, first);
    plan := Some(Plan(ranked, groups, shared, first, RaceOf(groups, first)));
  }

  lemma SameLength(a: seq<Candidate>, b: seq<Candidate>)
    requires multiset(a) == multiset(b)
    ensures |a| == |b|
  {
    assert |multiset(a)| == |multiset(b)|;
  }

  lemma RaceStarts(groups: seq<Group>, first: nat)
    requires first < |groups|
    ensures Initial(RaceOf(groups, first))
  {
    var r := RaceOf(groups, first);
    assert r.tasks[first].socket == Some(0);
  }

  lemma SomeGroup(ranked: seq<Candidate>, resolves: nat -> bool, groups: seq<Group>, shared: Option<nat>)
    requires Grouped(ranked, Resolved(resolves, |ranked|), groups, shared, |ranked|)
    ensures groups != [] <==> exists rank: nat :: rank < |ranked| && resolves(rank)
  {
    var resolved := Resolved(resolves, |ranked|);
    if groups != [] {
      assert GroupOk(ranked, resolved, groups[0], shared == Some(0), |ranked|);
      assert groups[0][0] in groups[0];
    }
    if rank: nat :| rank < |ranked| && resolves(rank) {
      assert resolved[rank] && Placed(groups, rank);
    }
  }

  // ---------------------------------------------------------------- what the connection is

  /** Kind `a` comes no later than kind `b`. */
  ghost predicate NoLater(order: seq<Kind>, a: Kind, b: Kind) {
    exists p, q :: 0 <= p <= q < |order| && order[p] == a && order[q] == b
  }

  predicate HasKind(plan: Plan, rank: nat, kind: Kind) {
    rank < |plan.ranked| && plan.ranked[rank].kind == kind
  }

  predicate HasLocalKind(plan: Plan, rank: nat) {
    rank < |plan.ranked| && IsLocal(plan.ranked[rank].kind)
  }

  /** No rank is given to two tasks, or to one of them twice. */
  lemma RanksAreDistinct(candidates: seq<Candidate>, preferred: Option<Kind>, resolves: nat -> bool, plan: Plan,
                         rank: nat, g: nat, h: nat)
    requires Planned(candidates, preferred, resolves, plan) && g < |plan.groups| && h < |plan.groups|
    requires rank in plan.groups[g] && rank in plan.groups[h]
    ensures g == h && rank < |plan.ranked| && resolves(rank) && NoRepeats(plan.groups[g])
  {
    var n := |plan.ranked|;
    assert GroupOk(plan.ranked, Resolved(resolves, n), plan.groups[g], plan.shared == Some(g), n);
    assert Resolved(resolves, n)[rank];
    assert Placed(plan.groups, rank);
  }

  /** Two successes of one rank are the same success. */
  lemma WinsAreDistinct(candidates: seq<Candidate>, preferred: Option<Kind>, resolves: nat -> bool, plan: Plan,
                        trace: seq<Race>, steps: seq<Step>, k: nat, win: Win, win': Win)
    requires Planned(candidates, preferred, resolves, plan)
    requires IsRun(trace, steps) && trace[0] == plan.race && k < |trace|
    requires win in trace[k].wins && win' in trace[k].wins && win.rank == win'.rank
    ensures win == win' && win.rank < |plan.ranked| && resolves(win.rank)
  {
    var i := WonByTask(trace, steps, k, win);
    var j := WonByTask(trace, steps, k, win');
    RanksAreDistinct(candidates, preferred, resolves, plan, win.rank, i, j);
  }

  /**
   The connection is that of one candidate, and no candidate whose handshake succeeded
   has a kind that comes earlier in the order of kinds.
   */
  lemma BestKindReturned(candidates: seq<Candidate>, preferred: Option<Kind>, resolves: nat -> bool, plan: Plan,
                         trace: seq<Race>, steps: seq<Step>, k: nat, win: Win)
    requires Planned(candidates, preferred, resolves, plan)
    requires IsRun(trace, steps) && trace[0] == plan.race && k < |trace| && trace[k].main == Returned
    requires win in trace[k].wins
    ensures var r := trace[k];
      && r.selected.Some? && r.selectedRank.Some?
      && r.selectedRank.value <= win.rank < |plan.ranked|
      && NoLater(KindOrder(preferred), plan.ranked[r.selectedRank.value].kind, plan.ranked[win.rank].kind)
      && (win.rank == r.selectedRank.value ==> win.socket == r.selected.value)
      && Desire(preferred, plan.ranked[r.selectedRank.value].kind) <= Desire(preferred, plan.ranked[win.rank].kind)
  {
    ReturnsBest(trace, steps, k);
    var r := trace[k];
    var best := Win(r.selectedRank.value, r.selected.value);
    WinsAreDistinct(candidates, preferred, resolves, plan, trace, steps, k, win, win);
    if win.rank == best.rank {
      WinsAreDistinct(candidates, preferred, resolves, plan, trace, steps, k, best, win);
    }
    var p, q := RankedByKind(candidates, KindOrder(preferred), best.rank, win.rank);
    KindOrderShape(preferred, KindOrder(preferred));
  }

  /**
   A candidate that was found by way of the NAT is tried, and connects, on the socket that was
   used for signalling, and on no other.
   */
  lemma NatOnFirstSocket(candidates: seq<Candidate>, preferred: Option<Kind>, resolves: nat -> bool, plan: Plan,
                         trace: seq<Race>, steps: seq<Step>, k: nat)
    requires Planned(candidates, preferred, resolves, plan)
    requires IsRun(trace, steps) && trace[0] == plan.race && k < |trace|
    ensures forall a :: a in trace[k].attempts && NatRank(plan, a.rank) ==> a.socket == Some(0)
    ensures forall win :: win in trace[k].wins && NatRank(plan, win.rank) ==> win.socket == 0
  {
    forall a | a in trace[k].attempts && NatRank(plan, a.rank) ensures a.socket == Some(0) {
      TriesItsRanks(trace, steps, k, a);
      NatIsShared(candidates, preferred, resolves, plan, a.rank, a.owner);
      FirstSocketKept(trace, steps, k, a.owner);
    }
    forall win | win in trace[k].wins && NatRank(plan, win.rank) ensures win.socket == 0 {
      var i := WonByTask(trace, steps, k, win);
      NatIsShared(candidates, preferred, resolves, plan, win.rank, i);
      FirstSocketKept(trace, steps, k, i);
    }
  }

  predicate NatRank(plan: Plan, rank: nat) {
    rank < |plan.ranked| && plan.ranked[rank].kind in {Prflx, Mapped, Srflx}
  }

  lemma NatIsShared(candidates: seq<Candidate>, preferred: Option<Kind>, resolves: nat -> bool, plan: Plan,
                    rank: nat, g: nat)
    requires Planned(candidates, preferred, resolves, plan) && NatRank(plan, rank)
    requires g < |plan.race.tasks| && rank in plan.race.tasks[g].ranks
    ensures plan.shared == Some(g) && plan.race.tasks[g].socket == Some(0)
  {
    var n := |plan.ranked|;
    assert GroupOk(plan.ranked, Resolved(resolves, n), plan.groups[g], plan.shared == Some(g), n);
  }

  /** Some successful handshake was with a candidate of this kind. */
  ghost predicate KindWon(plan: Plan, r: Race, kind: Kind) {
    exists win :: win in r.wins && HasKind(plan, win.rank, kind)
  }

  ghost predicate LocalWon(plan: Plan, r: Race) {
    exists win :: win in r.wins && HasLocalKind(plan, win.rank)
  }

  lemma PreferredIfWon(candidates: seq<Candidate>, preferred: Option<Kind>, resolves: nat -> bool, plan: Plan,
                       trace: seq<Race>, steps: seq<Step>, k: nat)
    requires Planned(candidates, preferred, resolves, plan) && preferred.Some?
    requires IsRun(trace, steps) && trace[0] == plan.race && k < |trace| && trace[k].main == Returned
    requires KindWon(plan, trace[k], preferred.value) && (IsLocal(preferred.value) || !LocalWon(plan, trace[k]))
    ensures trace[k].selectedRank.Some? && HasKind(plan, trace[k].selectedRank.value, preferred.value)
  {
    var r := trace[k];
    var win :| win in r.wins && HasKind(plan, win.rank, preferred.value);
    BestKindReturned(candidates, preferred, resolves, plan, trace, steps, k, win);
    ReturnsBest(trace, steps, k);
    var best := Win(r.selectedRank.value, r.selected.value);
    assert best in r.wins && HasLocalKind(plan, best.rank) ==> LocalWon(plan, r);
    FirstOfClass(preferred, KindOrder(preferred), plan.ranked[best.rank].kind);
  }

  lemma WonIfPreferred(candidates: seq<Candidate>, preferred: Option<Kind>, resolves: nat -> bool, plan: Plan,
                       trace: seq<Race>, steps: seq<Step>, k: nat)
    requires Planned(candidates, preferred, resolves, plan) && preferred.Some?
    requires IsRun(trace, steps) && trace[0] == plan.race && k < |trace| && trace[k].main == Returned
    requires trace[k].selectedRank.Some? && HasKind(plan, trace[k].selectedRank.value, preferred.value)
    ensures KindWon(plan, trace[k], preferred.value) && (IsLocal(preferred.value) || !LocalWon(plan, trace[k]))
  {
    var r := trace[k];
    ReturnsResultOrNothing(trace, steps, k);
    ReturnsBest(trace, steps, k);
    assert Win(r.selectedRank.value, r.selected.value) in r.wins;
    forall win | win in r.wins && HasLocalKind(plan, win.rank) ensures IsLocal(preferred.value) {
      BestKindReturned(candidates, preferred, resolves, plan, trace, steps, k, win);
      KindOrderShape(preferred, KindOrder(preferred));
      LocalsFirst(KindOrder(preferred), preferred.value, plan.ranked[win.rank].kind);
    }
  }

  lemma ReturnsResultOrNothing(trace: seq<Race>, steps: seq<Step>, k: nat)
    requires IsRun(trace, steps) && k < |trace|
    ensures trace[k].selected.Some? <==> trace[k].selectedRank.Some?
  {
    RunInv(trace, steps, k);
  }

  /**
   The connection has the preferred kind exactly if a candidate of that kind succeeded
   and, unless the preferred kind is a local one, no local candidate did.
   */
  lemma PreferredKindReturned(candidates: seq<Candidate>, preferred: Option<Kind>, resolves: nat -> bool, plan: Plan,
                              trace: seq<Race>, steps: seq<Step>, k: nat)
    requires Planned(candidates, preferred, resolves, plan) && preferred.Some?
    requires IsRun(trace, steps) && trace[0] == plan.race && k < |trace| && trace[k].main == Returned
    ensures var r := trace[k];
      (r.selectedRank.Some? && HasKind(plan, r.selectedRank.value, preferred.value))
      <==> KindWon(plan, r, preferred.value) && (IsLocal(preferred.value) || !LocalWon(plan, r))
  {
    var r := trace[k];
    if KindWon(plan, r, preferred.value) && (IsLocal(preferred.value) || !LocalWon(plan, r)) {
      PreferredIfWon(candidates, preferred, resolves, plan, trace, steps, k);
    } else if r.selectedRank.Some? && HasKind(plan, r.selectedRank.value, preferred.value) {
      WonIfPreferred(candidates, preferred, resolves, plan, trace, steps, k);
    }
  }

  lemma LocalsFirst(order: seq<Kind>, a: Kind, b: Kind)
    requires |order| == 6 && NoLater(order, a, b)
    requires forall i :: 0 <= i < 6 ==> (IsLocal(order[i]) <==> i < 2)
    ensures IsLocal(b) ==> IsLocal(a)
  {
  }

  lemma FirstOfClass(preferred: Option<Kind>, order: seq<Kind>, kind: Kind)
    requires preferred.Some? && order == KindOrder(preferred) && NoLater(order, kind, preferred.value)
    ensures kind == preferred.value || (IsLocal(kind) && !IsLocal(preferred.value))
  {
    KindOrderShape(preferred, order);
    var p, q :| 0 <= p <= q < |order| && order[p] == kind && order[q] == preferred.value;
    var at := if IsLocal(preferred.value) then 0 else 2;
    assert order[at] == preferred.value && order[q] == order[at];
  }
}
