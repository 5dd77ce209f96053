/**
 The race between QUIC connection candidates: worker threads that share a lock,
 a best rank and a cancellation flag, and a main thread that starts them, stops
 waiting, joins them and selects a socket.  Handshakes and socket creation
 succeed or fail arbitrarily, and the steps of all threads interleave freely.
 */
module CandidateRace {
  import opened Wrappers

  datatype Stage = Idle | Polling | Opening | Shaking | Closing | Reporting | Done

  /** A worker: the ranks it tries in order, and what it owns. */
  datatype Task = Task(
    ranks: seq<nat>,
    stage: Stage,
    next: nat,
    socket: Option<nat>,
    result: Option<nat>,
    selectedRank: nat)

  datatype Phase = Spawning | Inline | Waiting | Joining | Selecting | Returned

  /** A handshake that succeeded: the candidate's rank and the socket it connected. */
  datatype Win = Win(rank: nat, socket: nat)

  /** A candidate that was tried, and on which socket; none if no socket could be opened for it. */
  datatype Attempt = Attempt(owner: nat, rank: nat, socket: Option<nat>, connected: bool)

  /**
   The whole race.  Sockets are numbered in order of creation.  The last three fields
   are history: every handshake that succeeded, every candidate that was tried, and for
   every socket but the first the worker that opened it.
   */
  datatype Race = Race(
    tasks: seq<Task>,
    main: Phase,
    cursor: nat,
    completed: nat,
    bestRank: Option<nat>,
    cancelled: bool,
    sockets: nat,
    destroyed: multiset<nat>,
    selected: Option<nat>,
    selectedIndex: Option<nat>,
    selectedRank: Option<nat>,
    wins: seq<Win>,
    attempts: seq<Attempt>,
    openers: seq<nat>)

  /** What a worker does next; opening a socket and shaking hands may fail. */
  datatype Action = Poll | Open(created: bool) | Shake(connected: bool) | Close | Report

  /** What the main thread does next. */
  datatype Move = Spawn(threaded: bool) | InlineReturns | StopWaiting | Join | Select

  datatype Step = Worker(i: nat, action: Action) | Driver(move: Move)

  /** The stage in which a worker takes an action. */
  function StageOf(action: Action): Stage {
    match action
    case Poll => Polling
    case Open(_) => Opening
    case Shake(_) => Shaking
    case Close => Closing
    case Report => Reporting
  }

  predicate CanWork(r: Race, i: nat, action: Action) {
    && i < |r.tasks| && r.tasks[i].stage == StageOf(action)
    && (action.Open? || action.Shake? ==> r.tasks[i].next < |r.tasks[i].ranks|)
    && (action.Shake? ==> r.tasks[i].socket.Some?)
  }

  predicate IsDone(r: Race, i: nat) {
    i < |r.tasks| && r.tasks[i].stage == Done
  }

  predicate CanMove(r: Race, move: Move) {
    match move
    case Spawn(_) => r.main == Spawning
    case InlineReturns => r.main == Inline && IsDone(r, r.cursor)
    // the wait ends when every task has completed, or some time after a success
    case StopWaiting => r.main == Waiting && (r.completed >= |r.tasks| || r.bestRank.Some?)
    case Join => r.main == Joining && (r.cursor == |r.tasks| || IsDone(r, r.cursor))
    case Select => r.main == Selecting && r.cursor <= |r.tasks|
  }

  predicate Enabled(r: Race, step: Step) {
    match step
    case Worker(i, action) => CanWork(r, i, action)
    case Driver(move) => CanMove(r, move)
  }

  function SetTask(r: Race, i: nat, t: Task): Race
    requires i < |r.tasks|
  {
    r.(tasks := r.tasks[i := t])
  }

  function Work(r: Race, i: nat, action: Action): Race
    requires CanWork(r, i, action)
  {
    var t := r.tasks[i];
    match action
    case Poll =>
      SetTask(r, i, t.(stage := if t.next >= |t.ranks| || r.cancelled then Closing else Opening))
    case Open(created) =>
      if t.socket.Some? then SetTask(r, i, t.(stage := Shaking))
      else if created then
        SetTask(r, i, t.(stage := Shaking, socket := Some(r.sockets)))
          .(sockets := r.sockets + 1, openers := r.openers + [i])
      else
        SetTask(r, i, t.(stage := Polling, next := t.next + 1))
          .(attempts := r.attempts + [Attempt(i, t.ranks[t.next], None, false)])
    case Shake(connected) =>
      if connected then
        SetTask(r, i, t.(stage := Closing, result := t.socket, socket := None, selectedRank := t.ranks[t.next]))
          .(wins := r.wins + [Win(t.ranks[t.next], t.socket.value)],
            attempts := r.attempts + [Attempt(i, t.ranks[t.next], t.socket, true)])
      else
        SetTask(r, i, t.(stage := Polling, next := t.next + 1))
          .(attempts := r.attempts + [Attempt(i, t.ranks[t.next], t.socket, false)])
    case Close =>
      SetTask(r, i, t.(stage := Reporting, socket := None)).(destroyed := r.destroyed + Held(t.socket))
    case Report =>
      var better := t.result.Some? && (r.bestRank.None? || t.selectedRank < r.bestRank.value);
      SetTask(r, i, t.(stage := Done))
        .(completed := r.completed + 1, bestRank := if better then Some(t.selectedRank) else r.bestRank)
  }

  function Proceed(r: Race, move: Move): Race
    requires CanMove(r, move)
  {
    match move
    case Spawn(threaded) =>
      if r.cursor >= |r.tasks| then r.(main := Waiting)
      else
        var s := SetTask(r, r.cursor, r.tasks[r.cursor].(stage := Polling));
        if threaded then s.(cursor := r.cursor + 1) else s.(main := Inline)
    case InlineReturns => r.(main := Spawning, cursor := r.cursor + 1)
    case StopWaiting => r.(main := Joining, cursor := 0, cancelled := r.cancelled || r.bestRank.Some?)
    case Join => if r.cursor == |r.tasks| then r.(main := Selecting, cursor := 0) else r.(cursor := r.cursor + 1)
    case Select =>
      if r.cursor == |r.tasks| then r.(main := Returned)
      else
        var t := r.tasks[r.cursor];
        var s := r.(cursor := r.cursor + 1);
        if t.result.None? then s
        else if r.selectedRank.None? || t.selectedRank < r.selectedRank.value then
          s.(selected := t.result, selectedIndex := Some(r.cursor), selectedRank := Some(t.selectedRank),
             destroyed := r.destroyed + Held(r.selected))
        else s.(destroyed := r.destroyed + Held(t.result))
  }

  function Apply(r: Race, step: Step): Race
    requires Enabled(r, step)
  {
    match step
    case Worker(i, action) => Work(r, i, action)
    case Driver(move) => Proceed(r, move)
  }

  function Held(socket: Option<nat>): multiset<nat> {
    if socket.Some? then multiset{socket.value} else multiset{}
  }

  /** At the start one task holds the socket that was used for signalling. */
  predicate Initial(r: Race) {
    && r.tasks != []
    && (forall i :: 0 <= i < |r.tasks| ==>
          r.tasks[i].stage == Idle && r.tasks[i].next == 0 && r.tasks[i].result.None?)
    && (exists k :: 0 <= k < |r.tasks| && r.tasks[k].socket == Some(0)
          && forall i :: 0 <= i < |r.tasks| && i != k ==> r.tasks[i].socket.None?)
    && r.main == Spawning && r.cursor == 0 && r.completed == 0 && r.bestRank.None? && !r.cancelled
    && r.sockets == 1 && r.destroyed == multiset{} && r.selected.None?
    && r.selectedIndex.None? && r.selectedRank.None? && r.wins == [] && r.attempts == [] && r.openers == []
  }

  /** The k-th step of a run is enabled and leads to the next state. */
  predicate StepAt(trace: seq<Race>, steps: seq<Step>, k: nat)
    requires |trace| == |steps| + 1 && k < |steps|
  {
    Enabled(trace[k], steps[k]) && trace[k + 1] == Apply(trace[k], steps[k])
  }

  /** `trace` is a run: each state comes from its predecessor by one enabled step. */
  predicate IsRun(trace: seq<Race>, steps: seq<Step>) {
    && |trace| == |steps| + 1
    && Initial(trace[0])
    && forall k :: 0 <= k < |steps| ==> StepAt(trace, steps, k)
  }

  // ---------------------------------------------------------------- conservation of sockets

  /** Whether this is the socket, as a number. */
  ghost function Holds(socket: Option<nat>, id: nat): nat {
    if socket == Some(id) then 1 else 0
  }

  /** How many tasks still work with the socket. */
  ghost function Working(tasks: seq<Task>, id: nat): nat {
    if tasks == [] then 0 else Working(tasks[..|tasks| - 1], id) + Holds(tasks[|tasks| - 1].socket, id)
  }

  /** How many tasks the selection has not looked at yet offer the socket, connected. */
  ghost function Offered(tasks: seq<Task>, from: nat, id: nat): nat {
    if |tasks| <= from then 0
    else Offered(tasks[..|tasks| - 1], from, id) + Holds(tasks[|tasks| - 1].result, id)
  }

  ghost function Looked(r: Race): nat {
    if r.main == Selecting || r.main == Returned then r.cursor else 0
  }

  /** How many times the socket exists, wherever it is. */
  ghost function Copies(r: Race, id: nat): nat {
    r.destroyed[id] + Working(r.tasks, id) + Offered(r.tasks, Looked(r), id) + Holds(r.selected, id)
  }

  /** A socket that was created exists once; one that was not does not. */
  ghost predicate Conserved(r: Race, id: nat) {
    Copies(r, id) == if id < r.sockets then 1 else 0
  }

  lemma {:induction false} WorkingUpdate(tasks: seq<Task>, i: nat, t: Task, id: nat)
    requires i < |tasks|
    ensures Working(tasks[i := t], id) == Working(tasks, id) - Holds(tasks[i].socket, id) + Holds(t.socket, id)
    decreases |tasks|
  {
    var k := |tasks| - 1;
    if i == k {
      assert tasks[i := t][..k] == tasks[..k];
    } else {
      assert tasks[i := t][..k] == tasks[..k][i := t];
      WorkingUpdate(tasks[..k], i, t, id);
    }
  }

  lemma {:induction false} OfferedUpdate(tasks: seq<Task>, from: nat, i: nat, t: Task, id: nat)
    requires from <= i < |tasks|
    ensures Offered(tasks[i := t], from, id)
         == Offered(tasks, from, id) - Holds(tasks[i].result, id) + Holds(t.result, id)
    decreases |tasks|
  {
    var k := |tasks| - 1;
    if i == k {
      assert tasks[i := t][..k] == tasks[..k];
    } else {
      assert tasks[i := t][..k] == tasks[..k][i := t];
      OfferedUpdate(tasks[..k], from, i, t, id);
    }
  }

  lemma {:induction false} OfferedNext(tasks: seq<Task>, from: nat, id: nat)
    requires from < |tasks|
    ensures Offered(tasks, from, id) == Holds(tasks[from].result, id) + Offered(tasks, from + 1, id)
    decreases |tasks|
  {
    var k := |tasks| - 1;
    if from < k {
      OfferedNext(tasks[..k], from, id);
    }
  }

  /** How many tasks have finished. */
  ghost function Finished(tasks: seq<Task>): nat {
    if tasks == [] then 0
    else Finished(tasks[..|tasks| - 1]) + if tasks[|tasks| - 1].stage == Done then 1 else 0
  }

  lemma {:induction false} FinishedUpdate(tasks: seq<Task>, i: nat, t: Task)
    requires i < |tasks|
    ensures Finished(tasks[i := t]) == Finished(tasks)
         - (if tasks[i].stage == Done then 1 else 0) + (if t.stage == Done then 1 else 0)
    decreases |tasks|
  {
    var k := |tasks| - 1;
    if i == k {
      assert tasks[i := t][..k] == tasks[..k];
    } else {
      assert tasks[i := t][..k] == tasks[..k][i := t];
      FinishedUpdate(tasks[..k], i, t);
    }
  }

  lemma {:induction false} FinishedBounds(tasks: seq<Task>)
    ensures Finished(tasks) <= |tasks|
    ensures Finished(tasks) == |tasks| || exists i :: 0 <= i < |tasks| && tasks[i].stage != Done
    ensures (forall i :: 0 <= i < |tasks| ==> tasks[i].stage != Done) ==> Finished(tasks) == 0
    decreases |tasks|
  {
    if tasks != [] {
      var k := |tasks| - 1;
      FinishedBounds(tasks[..k]);
      if tasks[k].stage == Done && Finished(tasks[..k]) < k {
        var i :| 0 <= i < k && tasks[..k][i].stage != Done;
        assert tasks[i].stage != Done;
      }
    }
  }

  lemma {:induction false} NothingHeld(tasks: seq<Task>, id: nat)
    ensures (forall i :: 0 <= i < |tasks| ==> tasks[i].socket.None?) ==> Working(tasks, id) == 0
    ensures (forall i :: 0 <= i < |tasks| ==> tasks[i].result.None?) ==> Offered(tasks, 0, id) == 0
    decreases |tasks|
  {
    if tasks != [] {
      NothingHeld(tasks[..|tasks| - 1], id);
    }
  }

  // ---------------------------------------------------------------- the invariant

  /** What the stage of a worker says about it and about the race. */
  ghost predicate TaskOk(r: Race, i: nat)
    requires i < |r.tasks|
  {
    var t := r.tasks[i];
    && t.next <= |t.ranks|
    && (t.stage == Opening || t.stage == Shaking ==> t.next < |t.ranks|)
    && (t.stage == Shaking ==> t.socket.Some?)
    && (t.stage in {Idle, Polling, Opening, Shaking} ==> t.result.None?)
    && (t.result.Some? ==> t.socket.None? && Win(t.selectedRank, t.result.value) in r.wins)
    && (t.stage in {Reporting, Done} ==> t.socket.None?)
    && (t.stage in {Closing, Reporting, Done} && t.result.None? ==> t.next == |t.ranks| || r.cancelled)
    && (t.stage == Done && t.result.Some? ==> r.bestRank.Some? && r.bestRank.value <= t.selectedRank)
    && (t.stage == Idle <==> (r.main == Spawning && r.cursor <= i) || (r.main == Inline && r.cursor < i))
    && (r.main == Joining && i < r.cursor ==> t.stage == Done)
    && (r.main == Selecting || r.main == Returned ==> t.stage == Done)
  }

  /** Some task holds the result of this handshake. */
  ghost predicate Won(tasks: seq<Task>, win: Win) {
    exists i :: 0 <= i < |tasks| && Offers(tasks[i], win)
  }

  predicate Offers(t: Task, win: Win) {
    t.result == Some(win.socket) && t.selectedRank == win.rank
  }

  /** Some successful handshake had this rank. */
  ghost predicate HasRank(wins: seq<Win>, rank: nat) {
    exists win :: win in wins && win.rank == rank
  }

  /** What is selected is the result of the selected task, and its rank is that task's. */
  predicate SelectionOk(r: Race) {
    && (r.selected.Some? <==> r.selectedIndex.Some?)
    && (r.selected.Some? <==> r.selectedRank.Some?)
    && (r.selected.Some? ==>
          && r.selectedIndex.value < |r.tasks|
          && Offers(r.tasks[r.selectedIndex.value], Win(r.selectedRank.value, r.selected.value))
          && Win(r.selectedRank.value, r.selected.value) in r.wins)
    && (r.main != Selecting && r.main != Returned ==> r.selected.None?)
  }

  /** The selection so far is the best of what it has looked at. */
  ghost predicate SelectedBest(r: Race) {
    && SelectionOk(r)
    && (forall i :: 0 <= i < Looked(r) && i < |r.tasks| && r.tasks[i].result.Some? ==>
          r.selectedRank.Some? && r.selectedRank.value <= r.tasks[i].selectedRank)
  }

  ghost predicate Counted(r: Race) {
    && r.cursor <= |r.tasks|
    && (r.main == Inline ==> r.cursor < |r.tasks|)
    && (r.main == Returned ==> r.cursor == |r.tasks|)
    && (r.cancelled ==> r.bestRank.Some?)
    && (r.bestRank.Some? ==> HasRank(r.wins, r.bestRank.value))
  }

  ghost predicate Inv(r: Race) {
    && Counted(r) && r.completed == Finished(r.tasks)
    && SelectedBest(r)
    && (forall i :: 0 <= i < |r.tasks| ==> TaskOk(r, i))
    && (forall win :: win in r.wins ==> Won(r.tasks, win))
    && (forall id :: Conserved(r, id))
  }

  lemma InitialInv(r: Race)
    requires Initial(r)
    ensures Inv(r)
  {
    var k :| 0 <= k < |r.tasks| && r.tasks[k].socket == Some(0)
      && forall i :: 0 <= i < |r.tasks| && i != k ==> r.tasks[i].socket.None?;
    FinishedBounds(r.tasks);
    var none := r.tasks[k := r.tasks[k].(socket := None)];
    forall id: nat ensures Conserved(r, id) {
      NothingHeld(none, id);
      NothingHeld(r.tasks, id);
      WorkingUpdate(r.tasks, k, none[k], id);
    }
  }

  lemma TaskConserves(r: Race, r': Race, i: nat, id: nat)
    requires i < |r.tasks| == |r'.tasks| && r'.tasks == r.tasks[i := r'.tasks[i]]
    ensures Working(r'.tasks, id) - Holds(r'.tasks[i].socket, id) == Working(r.tasks, id) - Holds(r.tasks[i].socket, id)
    ensures Offered(r'.tasks, 0, id) - Holds(r'.tasks[i].result, id)
         == Offered(r.tasks, 0, id) - Holds(r.tasks[i].result, id)
  {
    WorkingUpdate(r.tasks, i, r'.tasks[i], id);
    OfferedUpdate(r.tasks, 0, i, r'.tasks[i], id);
  }

  /** A worker's step leaves everything that is not its own alone. */
  ghost predicate Framed(r: Race, r': Race, i: nat) {
    && i < |r.tasks| == |r'.tasks| && r'.tasks == r.tasks[i := r'.tasks[i]]
    && r'.main == r.main && r'.cursor == r.cursor && r'.cancelled == r.cancelled
    && r'.selected == r.selected && r'.selectedIndex == r.selectedIndex && r'.selectedRank == r.selectedRank
    && r.wins <= r'.wins && Looked(r) == 0 && r.main != Selecting && r.main != Returned
  }

  lemma WorkFrame(r: Race, i: nat, action: Action, r': Race)
    requires CanWork(r, i, action) && r' == Work(r, i, action) && TaskOk(r, i)
    ensures Framed(r, r', i)
  {
  }

  /** Where the sockets of the worker are after its step: with it, connected, or destroyed. */
  ghost predicate Moves(r: Race, r': Race, i: nat, id: nat)
    requires i < |r.tasks| == |r'.tasks|
  {
    && r.sockets <= r'.sockets <= r.sockets + 1
    && r'.destroyed[id] + Holds(r'.tasks[i].socket, id) + Holds(r'.tasks[i].result, id)
       == r.destroyed[id] + Holds(r.tasks[i].socket, id) + Holds(r.tasks[i].result, id)
          + if r.sockets <= id < r'.sockets then 1 else 0
  }

  lemma WorkMoves(r: Race, i: nat, action: Action, r': Race, id: nat)
    requires CanWork(r, i, action) && r' == Work(r, i, action) && TaskOk(r, i)
    ensures |r'.tasks| == |r.tasks| && Moves(r, r', i, id)
  {
  }

  lemma MovedConserves(r: Race, r': Race, i: nat, id: nat)
    requires Framed(r, r', i) && Moves(r, r', i, id) && Conserved(r, id)
    ensures Conserved(r', id)
  {
    TaskConserves(r, r', i, id);
  }

  /** No worker's step loses a socket, duplicates one, or destroys one twice. */
  lemma WorkConserves(r: Race, i: nat, action: Action, r': Race, id: nat)
    requires CanWork(r, i, action) && r' == Work(r, i, action)
    requires TaskOk(r, i) && Conserved(r, id)
    ensures Conserved(r', id)
  {
    WorkFrame(r, i, action, r');
    WorkMoves(r, i, action, r', id);
    MovedConserves(r, r', i, id);
  }

  lemma HeldCounts(destroyed: multiset<nat>, socket: Option<nat>, id: nat)
    ensures (destroyed + Held(socket))[id] == destroyed[id] + Holds(socket, id)
  {
  }

  /** The socket looked at is selected, or destroyed, or the one selected before is. */
  lemma SelectSettles(r: Race, r': Race, id: nat)
    requires CanMove(r, Select) && r' == Proceed(r, Select) && r.cursor < |r.tasks|
    ensures r'.tasks == r.tasks && r'.main == r.main && r'.cursor == r.cursor + 1 && r'.sockets == r.sockets
    ensures r'.destroyed[id] + Holds(r'.selected, id)
         == r.destroyed[id] + Holds(r.selected, id) + Holds(r.tasks[r.cursor].result, id)
  {
    HeldCounts(r.destroyed, r.selected, id);
    HeldCounts(r.destroyed, r.tasks[r.cursor].result, id);
  }

  lemma SelectConserves(r: Race, r': Race, id: nat)
    requires CanMove(r, Select) && r' == Proceed(r, Select) && Conserved(r, id)
    ensures Conserved(r', id)
  {
    if r.cursor < |r.tasks| {
      SelectSettles(r, r', id);
      OfferedNext(r.tasks, r.cursor, id);
    }
  }

  /** Nor does any step of the main thread. */
  lemma ProceedConserves(r: Race, move: Move, r': Race, id: nat)
    requires CanMove(r, move) && r' == Proceed(r, move)
    requires Counted(r) && Conserved(r, id)
    ensures Conserved(r', id)
  {
    if move.Select? {
      SelectConserves(r, r', id);
    } else if move.Spawn? && r.cursor < |r.tasks| {
      TaskConserves(r, r', r.cursor, id);
    }
  }

  lemma TryKeepsTask(r: Race, i: nat, action: Action, r': Race)
    requires action.Poll? || action.Open? || action.Shake?
    requires CanWork(r, i, action) && r' == Work(r, i, action) && TaskOk(r, i) && Counted(r)
    ensures TaskOk(r', i)
  {
  }

  lemma EndingKeepsTask(r: Race, i: nat, action: Action, r': Race)
    requires action.Close? || action.Report?
    requires CanWork(r, i, action) && r' == Work(r, i, action) && TaskOk(r, i) && Counted(r)
    ensures TaskOk(r', i)
  {
  }

  lemma WorkKeepsTask(r: Race, i: nat, action: Action, r': Race)
    requires CanWork(r, i, action) && r' == Work(r, i, action) && TaskOk(r, i) && Counted(r)
    ensures TaskOk(r', i)
  {
    if action.Close? || action.Report? {
      EndingKeepsTask(r, i, action, r');
    } else {
      TryKeepsTask(r, i, action, r');
    }
  }

  lemma WorkKeepsOthers(r: Race, i: nat, action: Action, r': Race, k: nat)
    requires CanWork(r, i, action) && r' == Work(r, i, action)
    requires k < |r.tasks| && k != i && TaskOk(r, k)
    ensures TaskOk(r', k) && r'.tasks[k] == r.tasks[k]
  {
    assert r.wins <= r'.wins;
  }

  lemma StartKeepsTask(r: Race, move: Move, r': Race, k: nat)
    requires move.Spawn? || move.InlineReturns?
    requires CanMove(r, move) && r' == Proceed(r, move)
    requires k < |r.tasks| && TaskOk(r, k) && Counted(r)
    ensures TaskOk(r', k)
  {
  }

  lemma ProceedKeepsTask(r: Race, move: Move, r': Race, k: nat)
    requires CanMove(r, move) && r' == Proceed(r, move)
    requires k < |r.tasks| && TaskOk(r, k) && Counted(r)
    requires r.main == Joining && r.cursor == |r.tasks| ==> r.tasks[k].stage == Done
    ensures TaskOk(r', k)
  {
    if move.Spawn? || move.InlineReturns? {
      StartKeepsTask(r, move, r', k);
    }
  }

  /** A win is never lost. */
  lemma WorkKeepsWins(r: Race, i: nat, action: Action, r': Race, win: Win)
    requires CanWork(r, i, action) && r' == Work(r, i, action) && TaskOk(r, i)
    requires win in r.wins ==> Won(r.tasks, win)
    requires win in r'.wins
    ensures Won(r'.tasks, win)
  {
    if win in r.wins {
      var k :| 0 <= k < |r.tasks| && Offers(r.tasks[k], win);
      assert Offers(r'.tasks[k], win);
    } else {
      assert Offers(r'.tasks[i], win);
    }
  }

  lemma ProceedKeepsWins(r: Race, move: Move, r': Race, win: Win)
    requires CanMove(r, move) && r' == Proceed(r, move) && win in r.wins && Won(r.tasks, win)
    ensures r'.wins == r.wins && Won(r'.tasks, win)
  {
    var k :| 0 <= k < |r.tasks| && Offers(r.tasks[k], win);
    assert Offers(r'.tasks[k], win);
  }

  lemma WorkKeepsBestRank(r: Race, i: nat, action: Action, r': Race)
    requires CanWork(r, i, action) && r' == Work(r, i, action) && TaskOk(r, i) && Counted(r)
    ensures r'.bestRank.Some? ==> HasRank(r'.wins, r'.bestRank.value)
    ensures r.bestRank.Some? ==> r'.bestRank.Some?
  {
    if r'.bestRank != r.bestRank {
      var t := r.tasks[i];
      assert Win(t.selectedRank, t.result.value) in r'.wins;
    } else if r.bestRank.Some? {
      var win :| win in r.wins && win.rank == r.bestRank.value;
      assert r.wins <= r'.wins && win in r'.wins;
    }
  }

  lemma FramedKeepsRest(r: Race, r': Race, i: nat)
    requires Framed(r, r', i) && Counted(r) && SelectedBest(r)
    requires r'.bestRank.Some? ==> HasRank(r'.wins, r'.bestRank.value)
    requires r.bestRank.Some? ==> r'.bestRank.Some?
    ensures Counted(r') && SelectedBest(r')
  {
  }

  lemma WorkKeepsRest(r: Race, i: nat, action: Action, r': Race)
    requires CanWork(r, i, action) && r' == Work(r, i, action) && TaskOk(r, i)
    requires Counted(r) && SelectedBest(r)
    ensures Counted(r') && SelectedBest(r')
  {
    WorkFrame(r, i, action, r');
    WorkKeepsBestRank(r, i, action, r');
    FramedKeepsRest(r, r', i);
  }

  lemma SelectKeepsRest(r: Race, r': Race)
    requires CanMove(r, Select) && r' == Proceed(r, Select)
    requires Counted(r) && SelectedBest(r)
    requires r.cursor < |r.tasks| ==> TaskOk(r, r.cursor)
    ensures Counted(r') && SelectedBest(r')
  {
  }

  /** Before the selection the main thread touches stages, phases and the cursor only. */
  lemma OtherMoveKeepsRest(r: Race, move: Move, r': Race)
    requires !move.Select? && CanMove(r, move) && r' == Proceed(r, move)
    requires Counted(r) && SelectedBest(r)
    ensures Counted(r') && SelectedBest(r')
  {
  }

  lemma ProceedKeepsRest(r: Race, move: Move, r': Race)
    requires CanMove(r, move) && r' == Proceed(r, move)
    requires Counted(r) && SelectedBest(r)
    requires r.cursor < |r.tasks| ==> TaskOk(r, r.cursor)
    ensures Counted(r') && SelectedBest(r')
  {
    if move.Select? {
      SelectKeepsRest(r, r');
    } else {
      OtherMoveKeepsRest(r, move, r');
    }
  }

  lemma WorkKeeps(r: Race, i: nat, action: Action, r': Race)
    requires Inv(r) && CanWork(r, i, action) && r' == Work(r, i, action)
    ensures Inv(r')
  {
    assert TaskOk(r, i) && |r'.tasks| == |r.tasks|;
    forall id ensures Conserved(r', id) {
      assert Conserved(r, id);
      WorkConserves(r, i, action, r', id);
    }
    forall k | 0 <= k < |r'.tasks| ensures TaskOk(r', k) {
      if k == i {
        WorkKeepsTask(r, i, action, r');
      } else {
        assert TaskOk(r, k);
        WorkKeepsOthers(r, i, action, r', k);
      }
    }
    forall win | win in r'.wins ensures Won(r'.tasks, win) {
      WorkKeepsWins(r, i, action, r', win);
    }
    WorkKeepsRest(r, i, action, r');
    FinishedUpdate(r.tasks, i, r'.tasks[i]);
  }

  lemma ProceedKeeps(r: Race, move: Move, r': Race)
    requires Inv(r) && CanMove(r, move) && r' == Proceed(r, move)
    ensures Inv(r')
  {
    assert |r'.tasks| == |r.tasks| && r'.wins == r.wins;
    forall id ensures Conserved(r', id) {
      assert Conserved(r, id);
      ProceedConserves(r, move, r', id);
    }
    forall k | 0 <= k < |r'.tasks| ensures TaskOk(r', k) {
      assert TaskOk(r, k);
      ProceedKeepsTask(r, move, r', k);
    }
    forall win | win in r'.wins ensures Won(r'.tasks, win) {
      ProceedKeepsWins(r, move, r', win);
    }
    assert r.cursor < |r.tasks| ==> TaskOk(r, r.cursor);
    ProceedKeepsRest(r, move, r');
    if move.Spawn? && r.cursor < |r.tasks| {
      assert TaskOk(r, r.cursor);
      FinishedUpdate(r.tasks, r.cursor, r'.tasks[r.cursor]);
    }
  }

  /** Every step of every thread keeps the invariant. */
  lemma StepKeeps(r: Race, step: Step, r': Race)
    requires Inv(r) && Enabled(r, step) && r' == Apply(r, step)
    ensures Inv(r')
  {
    match step
    case Worker(i, action) => WorkKeeps(r, i, action, r');
    case Driver(move) => ProceedKeeps(r, move, r');
  }

  lemma {:induction false} RunInv(trace: seq<Race>, steps: seq<Step>, k: nat)
    requires IsRun(trace, steps) && k < |trace|
    ensures Inv(trace[k])
  {
    if k == 0 {
      InitialInv(trace[0]);
    } else {
      RunInv(trace, steps, k - 1);
      assert StepAt(trace, steps, k - 1);
      StepKeeps(trace[k - 1], steps[k - 1], trace[k]);
    }
  }

  // ---------------------------------------------------------------- ranks

  /** Task `i` still tries the ranks it was given, and its result has one of them. */
  ghost predicate TaskTries(r0: Race, r: Race, i: nat)
    requires i < |r.tasks| == |r0.tasks|
  {
    && r.tasks[i].ranks == r0.tasks[i].ranks
    && (r.tasks[i].result.Some? ==> r.tasks[i].selectedRank in r.tasks[i].ranks)
  }

  ghost predicate Tries(r0: Race, r: Race) {
    |r.tasks| == |r0.tasks| && forall i :: 0 <= i < |r.tasks| ==> TaskTries(r0, r, i)
  }

  lemma WorkTries(r0: Race, r: Race, i: nat, action: Action, r': Race)
    requires Tries(r0, r) && CanWork(r, i, action) && r' == Work(r, i, action)
    ensures |r'.tasks| == |r.tasks| && TaskTries(r0, r', i)
    ensures r'.tasks == r.tasks[i := r'.tasks[i]]
  {
    assert TaskTries(r0, r, i);
  }

  lemma ProceedTries(r: Race, move: Move, r': Race, i: nat)
    requires i < |r.tasks| && CanMove(r, move) && r' == Proceed(r, move)
    ensures |r'.tasks| == |r.tasks| && r'.tasks[i] == r.tasks[i].(stage := r'.tasks[i].stage)
  {
  }

  lemma StepTries(r0: Race, r: Race, step: Step, r': Race)
    requires Tries(r0, r) && Enabled(r, step) && r' == Apply(r, step)
    ensures Tries(r0, r')
  {
    assert |r'.tasks| == |r.tasks|;
    forall k | 0 <= k < |r.tasks| ensures TaskTries(r0, r', k) {
      assert TaskTries(r0, r, k);
      match step
      case Worker(i, action) => WorkTries(r0, r, i, action, r');
      case Driver(move) => ProceedTries(r, move, r', k);
    }
  }

  lemma {:induction false} RunTries(trace: seq<Race>, steps: seq<Step>, k: nat)
    requires IsRun(trace, steps) && k < |trace|
    ensures Tries(trace[0], trace[k])
  {
    if k > 0 {
      RunTries(trace, steps, k - 1);
      assert StepAt(trace, steps, k - 1);
      StepTries(trace[0], trace[k - 1], steps[k - 1], trace[k]);
    }
  }

  /** Whoever has won holds a rank that one of the tasks was given. */
  lemma WonByTask(trace: seq<Race>, steps: seq<Step>, k: nat, win: Win) returns (i: nat)
    requires IsRun(trace, steps) && k < |trace| && win in trace[k].wins
    ensures i < |trace[k].tasks| == |trace[0].tasks| && Offers(trace[k].tasks[i], win)
    ensures win.rank in trace[0].tasks[i].ranks
  {
    RunInv(trace, steps, k);
    RunTries(trace, steps, k);
    assert Won(trace[k].tasks, win);
    i :| 0 <= i < |trace[k].tasks| && Offers(trace[k].tasks[i], win);
    assert TaskTries(trace[0], trace[k], i);
  }

  // ---------------------------------------------------------------- what every run guarantees

  /** When the function returns, every socket is the returned one or was destroyed once, never both. */
  lemma ReturnedOrDestroyedOnce(trace: seq<Race>, steps: seq<Step>, k: nat, id: nat)
    requires IsRun(trace, steps) && k < |trace| && trace[k].main == Returned && id < trace[k].sockets
    ensures var r := trace[k];
      if r.selected == Some(id) then r.destroyed[id] == 0 else r.destroyed[id] == 1
  {
    RunInv(trace, steps, k);
    var r := trace[k];
    forall i | 0 <= i < |r.tasks| ensures r.tasks[i].socket.None? {
      assert TaskOk(r, i);
    }
    NothingHeld(r.tasks, id);
    assert Conserved(r, id);
  }

  /**
   The returned socket is the one that its handshake connected, and no successful
   handshake had a lower rank.
   */
  lemma ReturnsBest(trace: seq<Race>, steps: seq<Step>, k: nat)
    requires IsRun(trace, steps) && k < |trace| && trace[k].main == Returned
    ensures var r := trace[k];
      && (r.selected.Some? <==> r.wins != [])
      && (r.selected.Some? ==>
            && r.selectedRank.Some? && Win(r.selectedRank.value, r.selected.value) in r.wins
            && forall win :: win in r.wins ==> r.selectedRank.value <= win.rank)
  {
    RunInv(trace, steps, k);
    var r := trace[k];
    forall win | win in r.wins ensures r.selectedRank.Some? && r.selectedRank.value <= win.rank {
      assert Won(r.tasks, win);
    }
    assert r.wins != [] ==> r.wins[0] in r.wins;
  }

  /** The race returns the result of its selected task, and keeps no other. */
  lemma ReturnsResultOfSelected(trace: seq<Race>, steps: seq<Step>, k: nat)
    requires IsRun(trace, steps) && k < |trace| && trace[k].main == Returned && trace[k].selected.Some?
    ensures var r := trace[k];
      && r.selectedIndex.Some? && r.selectedIndex.value < |r.tasks|
      && r.tasks[r.selectedIndex.value].result == r.selected
      && r.selectedRank == Some(r.tasks[r.selectedIndex.value].selectedRank)
  {
    RunInv(trace, steps, k);
  }

  /** Nothing is returned only if every candidate of every task was tried and failed. */
  lemma ReturnsNothingOnlyIfAllFailed(trace: seq<Race>, steps: seq<Step>, k: nat, i: nat)
    requires IsRun(trace, steps) && k < |trace| && trace[k].main == Returned && trace[k].selected.None?
    requires i < |trace[k].tasks|
    ensures trace[k].wins == [] && trace[k].tasks[i].next == |trace[k].tasks[i].ranks|
  {
    RunInv(trace, steps, k);
    ReturnsBest(trace, steps, k);
    var r := trace[k];
    assert TaskOk(r, i);
  }

  /** Cancellation is only ever set once a success has been recorded. */
  lemma CancelledOnlyAfterSuccess(trace: seq<Race>, steps: seq<Step>, k: nat)
    requires IsRun(trace, steps) && k < |trace| && trace[k].cancelled
    ensures trace[k].bestRank.Some? && HasRank(trace[k].wins, trace[k].bestRank.value)
  {
    RunInv(trace, steps, k);
  }

  // ---------------------------------------------------------------- every run ends

  /** Steps a worker may still take. */
  ghost function TaskWork(t: Task): nat {
    var left := if t.next <= |t.ranks| then 3 * (|t.ranks| - t.next) else 0;
    match t.stage
    case Idle => left + 4
    case Polling => left + 3
    case Opening => left + 2
    case Shaking => left + 1
    case Closing => 2
    case Reporting => 1
    case Done => 0
  }

  ghost function AllWork(tasks: seq<Task>): nat {
    if tasks == [] then 0 else AllWork(tasks[..|tasks| - 1]) + TaskWork(tasks[|tasks| - 1])
  }

  lemma {:induction false} AllWorkUpdate(tasks: seq<Task>, i: nat, t: Task)
    requires i < |tasks|
    ensures AllWork(tasks[i := t]) == AllWork(tasks) - TaskWork(tasks[i]) + TaskWork(t)
    decreases |tasks|
  {
    var k := |tasks| - 1;
    if i == k {
      assert tasks[i := t][..k] == tasks[..k];
    } else {
      assert tasks[i := t][..k] == tasks[..k][i := t];
      AllWorkUpdate(tasks[..k], i, t);
    }
  }

  /** Steps the main thread may still take. */
  ghost function DriverWork(r: Race): int {
    var n := |r.tasks|;
    match r.main
    case Spawning => 2 * n + 4 + 2 * (n - r.cursor)
    case Inline => 2 * n + 3 + 2 * (n - r.cursor)
    case Waiting => 2 * n + 3
    case Joining => 2 * n + 2 - r.cursor
    case Selecting => n + 1 - r.cursor
    case Returned => 0
  }

  ghost function Remaining(r: Race): int {
    DriverWork(r) + AllWork(r.tasks)
  }

  lemma TaskUsesWork(r: Race, i: nat, action: Action, r': Race)
    requires CanWork(r, i, action) && TaskOk(r, i) && r' == Work(r, i, action)
    ensures i < |r'.tasks| && TaskWork(r'.tasks[i]) < TaskWork(r.tasks[i])
  {
  }

  lemma FramedUsesWork(r: Race, r': Race, i: nat)
    requires Framed(r, r', i) && TaskWork(r'.tasks[i]) < TaskWork(r.tasks[i])
    ensures Remaining(r') < Remaining(r)
  {
    AllWorkUpdate(r.tasks, i, r'.tasks[i]);
  }

  lemma WorkUsesWork(r: Race, i: nat, action: Action, r': Race)
    requires CanWork(r, i, action) && TaskOk(r, i) && r' == Work(r, i, action)
    ensures Remaining(r') < Remaining(r)
  {
    WorkFrame(r, i, action, r');
    TaskUsesWork(r, i, action, r');
    FramedUsesWork(r, r', i);
  }

  lemma ProceedUsesWork(r: Race, move: Move, r': Race)
    requires Counted(r) && CanMove(r, move) && r' == Proceed(r, move)
    requires r.main == Spawning && r.cursor < |r.tasks| ==> r.tasks[r.cursor].stage == Idle
    ensures Remaining(r') < Remaining(r)
  {
    if move.Spawn? && r.cursor < |r.tasks| {
      AllWorkUpdate(r.tasks, r.cursor, r'.tasks[r.cursor]);
    }
  }

  /** Every step uses up some of the finite work, so no run goes on for ever. */
  lemma StepUsesWork(r: Race, step: Step, r': Race)
    requires Inv(r) && Enabled(r, step) && r' == Apply(r, step)
    ensures Remaining(r') < Remaining(r)
  {
    match step
    case Worker(i, action) =>
      assert TaskOk(r, i);
      WorkUsesWork(r, i, action, r');
    case Driver(move) =>
      assert r.cursor < |r.tasks| ==> TaskOk(r, r.cursor);
      ProceedUsesWork(r, move, r');
  }

  lemma WorkIsLeft(r: Race)
    requires Counted(r)
    ensures 0 <= Remaining(r)
  {
  }

  lemma RunUsesWork(trace: seq<Race>, steps: seq<Step>, k: nat)
    requires IsRun(trace, steps) && k < |steps|
    ensures Remaining(trace[k + 1]) < Remaining(trace[k])
  {
    RunInv(trace, steps, k);
    assert StepAt(trace, steps, k);
    StepUsesWork(trace[k], steps[k], trace[k + 1]);
  }

  /** A run cannot have more steps than the work it started with. */
  lemma {:induction false} RunsAreBounded(trace: seq<Race>, steps: seq<Step>, k: nat)
    requires IsRun(trace, steps) && k < |trace|
    ensures k + Remaining(trace[k]) <= Remaining(trace[0])
    ensures 0 <= Remaining(trace[k])
  {
    RunInv(trace, steps, k);
    WorkIsLeft(trace[k]);
    if k > 0 {
      RunsAreBounded(trace, steps, k - 1);
      RunUsesWork(trace, steps, k - 1);
    }
  }

  /** A task that was started and is not done can always take its next step. */
  lemma WorkerNeverStuck(r: Race, i: nat) returns (step: Step)
    requires i < |r.tasks| && TaskOk(r, i) && r.tasks[i].stage != Idle && r.tasks[i].stage != Done
    ensures Enabled(r, step)
  {
    match r.tasks[i].stage
    case Polling => step := Worker(i, Poll);
    case Opening => step := Worker(i, Open(true));
    case Shaking => step := Worker(i, Shake(true));
    case Closing => step := Worker(i, Close);
    case Reporting => step := Worker(i, Report);
  }

  /** Until the function has returned some thread can take a step: the race cannot deadlock. */
  lemma NeverStuck(r: Race) returns (step: Step)
    requires Inv(r) && r.main != Returned
    ensures Enabled(r, step)
  {
    var i := r.cursor;
    step := Driver(match r.main
                   case Spawning => Spawn(true)
                   case Inline => InlineReturns
                   case Waiting => StopWaiting
                   case Joining => Join
                   case Selecting => Select
                   case Returned => Select);
    if r.main == Waiting && r.completed < |r.tasks| {
      FinishedBounds(r.tasks);
      i :| 0 <= i < |r.tasks| && r.tasks[i].stage != Done;
    }
    if !Enabled(r, step) {
      assert TaskOk(r, i);
      step := WorkerNeverStuck(r, i);
    }
  }

  lemma LongerRun(trace: seq<Race>, steps: seq<Step>, step: Step) returns (longer: seq<Race>, more: seq<Step>)
    requires IsRun(trace, steps) && Enabled(trace[|steps|], step)
    ensures IsRun(longer, more) && more == steps + [step]
    ensures longer == trace + [Apply(trace[|steps|], step)]
  {
    longer, more := trace + [Apply(trace[|steps|], step)], steps + [step];
    forall j | 0 <= j < |more| ensures StepAt(longer, more, j) {
      assert j < |steps| ==> StepAt(trace, steps, j);
    }
  }

  /** Whatever has happened so far, the race can be brought to its end. */
  lemma {:induction false} EveryRunCanFinish(trace: seq<Race>, steps: seq<Step>)
      returns (trace': seq<Race>, steps': seq<Step>)
    requires IsRun(trace, steps)
    ensures IsRun(trace', steps') && trace <= trace' && trace'[|trace'| - 1].main == Returned
    decreases Remaining(trace[|trace| - 1])
  {
    var k := |trace| - 1;
    trace', steps' := trace, steps;
    RunInv(trace, steps, k);
    if trace[k].main != Returned {
      var step := NeverStuck(trace[k]);
      StepUsesWork(trace[k], step, Apply(trace[k], step));
      var longer, more := LongerRun(trace, steps, step);
      RunsAreBounded(longer, more, k + 1);
      trace', steps' := EveryRunCanFinish(longer, more);
    }
  }
}
