/**
 Which candidates the race tries, in which order and on which sockets: each worker goes
 through its ranks without leaving one out, stays on one socket - the one it started with,
 if any - and begins nothing new once the race is cancelled.
 */
module CandidateTries {
  import opened CandidateRace
  import opened Wrappers

  /** The attempts of one worker, in order. */
  function Own(attempts: seq<Attempt>, i: nat): seq<Attempt> {
    if attempts == [] then []
    else
      var k := |attempts| - 1;
      Own(attempts[..k], i) + if attempts[k].owner == i then [attempts[k]] else []
  }

  lemma OwnSnoc(attempts: seq<Attempt>, a: Attempt, i: nat)
    ensures Own(attempts + [a], i) == Own(attempts, i) + if a.owner == i then [a] else []
  {
    assert (attempts + [a])[..|attempts|] == attempts;
  }

  // ---------------------------------------------------------------- nothing left out

  /** A worker has tried its first ranks in order; all failed but for the last one if it has a result. */
  ghost predicate InTurn(t: Task, own: seq<Attempt>) {
    && |own| == t.next + (if t.result.Some? then 1 else 0) && |own| <= |t.ranks|
    && (forall k :: 0 <= k < |own| ==>
          own[k].rank == t.ranks[k] && (own[k].connected <==> t.result.Some? && k == |own| - 1))
    && (t.result.Some? ==> own[|own| - 1].socket == t.result && own[|own| - 1].rank == t.selectedRank)
  }

  ghost predicate TaskInTurn(r: Race, i: nat)
    requires i < |r.tasks|
  {
    InTurn(r.tasks[i], Own(r.attempts, i))
  }

  ghost predicate AllInTurn(r: Race) {
    forall i :: 0 <= i < |r.tasks| ==> TaskInTurn(r, i)
  }

  /** What a worker's step adds to the attempts. */
  function Tried(r: Race, i: nat, action: Action): seq<Attempt>
    requires CanWork(r, i, action)
  {
    var t := r.tasks[i];
    match action
    case Open(created) => if t.socket.Some? || created then [] else [Attempt(i, t.ranks[t.next], None, false)]
    case Shake(connected) => [Attempt(i, t.ranks[t.next], t.socket, connected)]
    case _ => []
  }

  lemma WorkTried(r: Race, i: nat, action: Action, r': Race)
    requires CanWork(r, i, action) && r' == Work(r, i, action)
    ensures r'.attempts == r.attempts + Tried(r, i, action)
    ensures |r'.tasks| == |r.tasks| && r'.tasks == r.tasks[i := r'.tasks[i]]
  {
  }

  lemma OwnTried(r: Race, i: nat, action: Action, k: nat)
    requires CanWork(r, i, action)
    ensures Own(r.attempts + Tried(r, i, action), k)
         == Own(r.attempts, k) + if k == i then Tried(r, i, action) else []
  {
    var more := Tried(r, i, action);
    if more == [] {
      assert r.attempts + more == r.attempts && Own(r.attempts, k) + [] == Own(r.attempts, k);
    } else {
      assert more == [more[0]] && more[0].owner == i;
      OwnSnoc(r.attempts, more[0], k);
    }
  }

  lemma ShakeInTurn(r: Race, i: nat, connected: bool, r': Race, own: seq<Attempt>)
    requires CanWork(r, i, Shake(connected)) && r' == Work(r, i, Shake(connected)) && TaskOk(r, i)
    requires InTurn(r.tasks[i], own)
    ensures |r'.tasks| == |r.tasks| && InTurn(r'.tasks[i], own + Tried(r, i, Shake(connected)))
  {
  }

  lemma WorkInTurn(r: Race, i: nat, action: Action, r': Race, own: seq<Attempt>)
    requires CanWork(r, i, action) && r' == Work(r, i, action) && TaskOk(r, i) && InTurn(r.tasks[i], own)
    ensures |r'.tasks| == |r.tasks| && InTurn(r'.tasks[i], own + Tried(r, i, action))
  {
    if action.Shake? {
      ShakeInTurn(r, i, action.connected, r', own);
    } else {
      OtherInTurn(r, i, action, r', own);
    }
  }

  lemma OtherInTurn(r: Race, i: nat, action: Action, r': Race, own: seq<Attempt>)
    requires !action.Shake? && CanWork(r, i, action) && r' == Work(r, i, action) && TaskOk(r, i)
    requires InTurn(r.tasks[i], own)
    ensures |r'.tasks| == |r.tasks| && InTurn(r'.tasks[i], own + Tried(r, i, action))
  {
    var more := Tried(r, i, action);
    if more == [] {
      assert own + more == own;
    }
  }

  lemma WorkKeepsTurn(r: Race, i: nat, action: Action, r': Race, k: nat)
    requires CanWork(r, i, action) && r' == Work(r, i, action) && TaskOk(r, i) && k < |r.tasks| && TaskInTurn(r, k)
    ensures |r'.tasks| == |r.tasks| && TaskInTurn(r', k)
  {
    WorkTried(r, i, action, r');
    OwnTried(r, i, action, k);
    if k == i {
      WorkInTurn(r, i, action, r', Own(r.attempts, i));
    } else {
      assert Own(r.attempts, k) + [] == Own(r.attempts, k);
    }
  }

  lemma ProceedKeepsTurn(r: Race, move: Move, r': Race, k: nat)
    requires CanMove(r, move) && r' == Proceed(r, move) && k < |r.tasks| && TaskInTurn(r, k)
    ensures |r'.tasks| == |r.tasks| && TaskInTurn(r', k)
  {
    ProceedTries(r, move, r', k);
    ProceedLogs(r, move, r');
  }

  lemma StepInTurn(r: Race, step: Step, r': Race)
    requires Inv(r) && AllInTurn(r) && Enabled(r, step) && r' == Apply(r, step)
    ensures AllInTurn(r')
  {
    match step
    case Worker(i, action) =>
      assert TaskOk(r, i);
      forall k | 0 <= k < |r.tasks| ensures |r'.tasks| == |r.tasks| && TaskInTurn(r', k) {
        assert TaskInTurn(r, k);
        WorkKeepsTurn(r, i, action, r', k);
      }
      WorkTried(r, i, action, r');
    case Driver(move) =>
      forall k | 0 <= k < |r.tasks| ensures |r'.tasks| == |r.tasks| && TaskInTurn(r', k) {
        assert TaskInTurn(r, k);
        ProceedKeepsTurn(r, move, r', k);
      }
      ProceedLogs(r, move, r');
  }

  lemma ProceedLogs(r: Race, move: Move, r': Race)
    requires CanMove(r, move) && r' == Proceed(r, move)
    ensures r'.attempts == r.attempts && r'.openers == r.openers && r'.wins == r.wins && r'.sockets == r.sockets
    ensures |r'.tasks| == |r.tasks|
  {
  }

  lemma {:induction false} RunInTurn(trace: seq<Race>, steps: seq<Step>, k: nat)
    requires IsRun(trace, steps) && k < |trace|
    ensures AllInTurn(trace[k])
  {
    if k == 0 {
      forall i | 0 <= i < |trace[0].tasks| ensures TaskInTurn(trace[0], i) {
      }
    } else {
      RunInTurn(trace, steps, k - 1);
      RunInv(trace, steps, k - 1);
      assert StepAt(trace, steps, k - 1);
      StepInTurn(trace[k - 1], steps[k - 1], trace[k]);
    }
  }

  /**
   A worker tries its ranks from the first on and leaves none out: its attempts are a prefix
   of them, and one that connected is the last, so that all ranks before it have failed.
   */
  lemma TriesInOrder(trace: seq<Race>, steps: seq<Step>, k: nat, i: nat)
    requires IsRun(trace, steps) && k < |trace| && i < |trace[0].tasks|
    ensures var own := Own(trace[k].attempts, i);
      && |own| <= |trace[0].tasks[i].ranks|
      && forall j :: 0 <= j < |own| ==>
           own[j].rank == trace[0].tasks[i].ranks[j] && (own[j].connected ==> j == |own| - 1)
  {
    RunInTurn(trace, steps, k);
    CandidateRace.RunTries(trace, steps, k);
    assert TaskInTurn(trace[k], i) && TaskTries(trace[0], trace[k], i);
  }

  /** When nothing is returned, every worker has tried all its ranks, and none connected. */
  lemma NothingReturnedAllTried(trace: seq<Race>, steps: seq<Step>, k: nat, i: nat)
    requires IsRun(trace, steps) && k < |trace| && trace[k].main == Returned && trace[k].selected.None?
    requires i < |trace[0].tasks|
    ensures var own := Own(trace[k].attempts, i);
      && |own| == |trace[0].tasks[i].ranks|
      && forall j :: 0 <= j < |own| ==> own[j].rank == trace[0].tasks[i].ranks[j] && !own[j].connected
  {
    var r := trace[k];
    RunInTurn(trace, steps, k);
    RunInv(trace, steps, k);
    CandidateRace.RunTries(trace, steps, k);
    assert TaskInTurn(r, i) && TaskTries(trace[0], r, i) && TaskOk(r, i);
    ReturnsNothingOnlyIfAllFailed(trace, steps, k, i);
  }

  lemma {:induction false} OwnHas(attempts: seq<Attempt>, a: Attempt)
    requires a in attempts
    ensures a in Own(attempts, a.owner)
    decreases |attempts|
  {
    var k := |attempts| - 1;
    if a != attempts[k] {
      assert a in attempts[..k];
      OwnHas(attempts[..k], a);
    }
  }

  /** Whoever tries a rank was given it. */
  lemma TriesItsRanks(trace: seq<Race>, steps: seq<Step>, k: nat, a: Attempt)
    requires IsRun(trace, steps) && k < |trace| && a in trace[k].attempts
    ensures a.owner < |trace[0].tasks| && a.rank in trace[0].tasks[a.owner].ranks
  {
    RunOneEach(trace, steps, k);
    assert AttemptSocket(trace[0], trace[k].openers, a);
    TriesInOrder(trace, steps, k, a.owner);
    OwnHas(trace[k].attempts, a);
  }

  // ---------------------------------------------------------------- sockets

  /** Worker `i` came by socket `id` at the start, or opened it. */
  ghost predicate Owns(r0: Race, openers: seq<nat>, i: nat, id: nat) {
    if id == 0 then i < |r0.tasks| && r0.tasks[i].socket == Some(0)
    else id - 1 < |openers| && openers[id - 1] == i
  }

  predicate Ending(t: Task) {
    t.stage == Closing || t.stage == Reporting || t.stage == Done
  }

  /** The sockets of worker `i` are its own, and it opens none while it has one. */
  ghost predicate TaskOwns(r0: Race, t: Task, openers: seq<nat>, i: nat) {
    && (t.socket.Some? ==> Owns(r0, openers, i, t.socket.value))
    && (t.result.Some? ==> Owns(r0, openers, i, t.result.value))
    && (i in openers ==> t.socket.Some? || Ending(t))
  }

  /** Whoever started with the first socket has it until it ends. */
  ghost predicate KeepsFirst(t: Task, openers: seq<nat>, i: nat) {
    && i !in openers
    && (t.socket == Some(0) || t.result == Some(0) || t.stage == Reporting || t.stage == Done)
    && (t.result.Some? ==> Ending(t))
  }

  ghost predicate TaskSockets(r0: Race, t: Task, openers: seq<nat>, i: nat)
    requires i < |r0.tasks|
  {
    TaskOwns(r0, t, openers, i) && (r0.tasks[i].socket == Some(0) ==> KeepsFirst(t, openers, i))
  }

  /** An attempt is made on a socket of its worker, and on the first one if the worker started with it. */
  ghost predicate AttemptSocket(r0: Race, openers: seq<nat>, a: Attempt) {
    && a.owner < |r0.tasks|
    && (a.socket.Some? ==> Owns(r0, openers, a.owner, a.socket.value))
    && (r0.tasks[a.owner].socket == Some(0) ==> a.socket == Some(0))
  }

  ghost predicate OneEach(r0: Race, r: Race) {
    && |r.tasks| == |r0.tasks| && |r.openers| + 1 == r.sockets && NoRepeats(r.openers)
    && (forall i :: 0 <= i < |r.tasks| ==> TaskSockets(r0, r.tasks[i], r.openers, i))
    && (forall a :: a in r.attempts ==> AttemptSocket(r0, r.openers, a))
  }

  lemma OpensOnce(openers: seq<nat>, i: nat)
    requires NoRepeats(openers) && i !in openers
    ensures NoRepeats(openers + [i])
  {
  }

  /** Who opens a socket in this step. */
  function Opened(r: Race, i: nat, action: Action): seq<nat>
    requires CanWork(r, i, action)
  {
    if action.Open? && action.created && r.tasks[i].socket.None? then [i] else []
  }

  lemma WorkOpened(r: Race, i: nat, action: Action, r': Race)
    requires CanWork(r, i, action) && r' == Work(r, i, action)
    ensures r'.openers == r.openers + Opened(r, i, action) && r'.sockets == r.sockets + |Opened(r, i, action)|
  {
  }

  lemma WorkTaskOwns(r0: Race, r: Race, i: nat, action: Action, r': Race)
    requires CanWork(r, i, action) && r' == Work(r, i, action) && TaskOk(r, i)
    requires TaskOwns(r0, r.tasks[i], r.openers, i) && |r.openers| + 1 == r.sockets
    ensures |r'.tasks| == |r.tasks| && TaskOwns(r0, r'.tasks[i], r.openers + Opened(r, i, action), i)
    ensures Opened(r, i, action) != [] ==> i !in r.openers
  {
  }

  lemma WorkKeepsFirst(r: Race, i: nat, action: Action, r': Race)
    requires CanWork(r, i, action) && r' == Work(r, i, action) && TaskOk(r, i)
    requires KeepsFirst(r.tasks[i], r.openers, i)
    ensures |r'.tasks| == |r.tasks| && KeepsFirst(r'.tasks[i], r.openers + Opened(r, i, action), i)
  {
  }

  lemma WorkTaskSockets(r0: Race, r: Race, i: nat, action: Action, r': Race)
    requires CanWork(r, i, action) && r' == Work(r, i, action) && TaskOk(r, i) && OneEach(r0, r)
    ensures |r'.tasks| == |r.tasks| && TaskSockets(r0, r'.tasks[i], r.openers + Opened(r, i, action), i)
    ensures Opened(r, i, action) != [] ==> i !in r.openers
  {
    assert TaskSockets(r0, r.tasks[i], r.openers, i);
    WorkTaskOwns(r0, r, i, action, r');
    if r0.tasks[i].socket == Some(0) {
      WorkKeepsFirst(r, i, action, r');
    }
  }

  lemma OthersSockets(r0: Race, t: Task, openers: seq<nat>, more: seq<nat>, k: nat)
    requires k < |r0.tasks| && TaskSockets(r0, t, openers, k) && k !in more
    ensures TaskSockets(r0, t, openers + more, k)
  {
  }

  lemma WorkOneEach(r0: Race, r: Race, i: nat, action: Action, r': Race)
    requires CanWork(r, i, action) && r' == Work(r, i, action) && TaskOk(r, i) && OneEach(r0, r)
    ensures OneEach(r0, r')
  {
    var more := Opened(r, i, action);
    WorkTried(r, i, action, r');
    WorkOpened(r, i, action, r');
    WorkTaskSockets(r0, r, i, action, r');
    if more == [i] {
      OpensOnce(r.openers, i);
    }
    forall k | 0 <= k < |r'.tasks| ensures TaskSockets(r0, r'.tasks[k], r'.openers, k) {
      if k != i {
        assert TaskSockets(r0, r.tasks[k], r.openers, k);
        OthersSockets(r0, r.tasks[k], r.openers, more, k);
      }
    }
    forall a | a in r'.attempts ensures AttemptSocket(r0, r'.openers, a) {
      if a in r.attempts {
        assert AttemptSocket(r0, r.openers, a);
      } else {
        assert a in Tried(r, i, action);
        TriedOnOwn(r0, r, i, action, a);
      }
    }
  }

  lemma TriedOnOwn(r0: Race, r: Race, i: nat, action: Action, a: Attempt)
    requires CanWork(r, i, action) && TaskOk(r, i) && OneEach(r0, r) && a in Tried(r, i, action)
    ensures AttemptSocket(r0, r.openers + Opened(r, i, action), a)
  {
    assert TaskSockets(r0, r.tasks[i], r.openers, i);
  }

  lemma StepOneEach(r0: Race, r: Race, step: Step, r': Race)
    requires Inv(r) && OneEach(r0, r) && Enabled(r, step) && r' == Apply(r, step)
    ensures OneEach(r0, r')
  {
    match step
    case Worker(i, action) =>
      assert TaskOk(r, i);
      WorkOneEach(r0, r, i, action, r');
    case Driver(move) =>
      ProceedLogs(r, move, r');
      assert |r'.tasks| == |r.tasks|;
      forall k | 0 <= k < |r'.tasks| ensures TaskSockets(r0, r'.tasks[k], r'.openers, k) {
        assert TaskSockets(r0, r.tasks[k], r.openers, k) && TaskOk(r, k);
        ProceedTries(r, move, r', k);
        ProceedEnds(r, move, r', k);
      }
  }

  /** The main thread only starts workers. */
  lemma ProceedEnds(r: Race, move: Move, r': Race, k: nat)
    requires k < |r.tasks| && Counted(r) && TaskOk(r, k) && CanMove(r, move) && r' == Proceed(r, move)
    ensures |r'.tasks| == |r.tasks|
    ensures r.tasks[k].stage != Idle ==> r'.tasks[k].stage == r.tasks[k].stage
    ensures r'.tasks[k].stage in {r.tasks[k].stage, Polling}
  {
  }

  lemma {:induction false} RunOneEach(trace: seq<Race>, steps: seq<Step>, k: nat)
    requires IsRun(trace, steps) && k < |trace|
    ensures OneEach(trace[0], trace[k])
  {
    if k > 0 {
      RunOneEach(trace, steps, k - 1);
      RunInv(trace, steps, k - 1);
      assert StepAt(trace, steps, k - 1);
      StepOneEach(trace[0], trace[k - 1], steps[k - 1], trace[k]);
    }
  }

  /** All that a worker tries, it tries on one socket, and it opens at most one. */
  lemma OneSocketPerTask(trace: seq<Race>, steps: seq<Step>, k: nat)
    requires IsRun(trace, steps) && k < |trace|
    ensures var r := trace[k];
      && (forall a, b | a in r.attempts && b in r.attempts && a.owner == b.owner && a.socket.Some? && b.socket.Some? ::
            a.socket == b.socket)
      && |r.openers| == r.sockets - 1 && NoRepeats(r.openers)
      && forall i :: 0 <= i < |trace[0].tasks| && trace[0].tasks[i].socket.Some? ==> i !in r.openers
  {
    RunOneEach(trace, steps, k);
    var r0, r := trace[0], trace[k];
    forall i | 0 <= i < |r0.tasks| && r0.tasks[i].socket.Some? ensures i !in r.openers {
      assert TaskSockets(r0, r.tasks[i], r.openers, i);
    }
    forall a, b | a in r.attempts && b in r.attempts && a.owner == b.owner && a.socket.Some? && b.socket.Some?
      ensures a.socket == b.socket
    {
      assert AttemptSocket(r0, r.openers, a) && AttemptSocket(r0, r.openers, b);
    }
  }

  lemma {:induction false} WorkingHas(tasks: seq<Task>, i: nat, id: nat)
    requires i < |tasks| && tasks[i].socket == Some(id)
    ensures Working(tasks, id) >= 1
    decreases |tasks|
  {
    if i < |tasks| - 1 {
      WorkingHas(tasks[..|tasks| - 1], i, id);
    }
  }

  lemma {:induction false} OfferedHas(tasks: seq<Task>, i: nat, id: nat)
    requires i < |tasks| && tasks[i].result == Some(id)
    ensures Offered(tasks, 0, id) >= 1
    decreases |tasks|
  {
    if i < |tasks| - 1 {
      OfferedHas(tasks[..|tasks| - 1], i, id);
    }
  }

  /**
   The worker that was given the socket used for signalling tries all its candidates on that
   socket, connects on it if it connects at all, and does not give it up before it has ended.
   */
  lemma FirstSocketKept(trace: seq<Race>, steps: seq<Step>, k: nat, h: nat)
    requires IsRun(trace, steps) && k < |trace| && h < |trace[0].tasks| && trace[0].tasks[h].socket == Some(0)
    ensures |trace[k].tasks| == |trace[0].tasks|
    ensures forall a :: a in trace[k].attempts && a.owner == h ==> a.socket == Some(0)
    ensures trace[k].tasks[h].result.Some? ==> trace[k].tasks[h].result == Some(0)
    ensures trace[k].destroyed[0] > 0 ==> trace[k].tasks[h].stage == Reporting || trace[k].tasks[h].stage == Done
  {
    RunOneEach(trace, steps, k);
    RunInv(trace, steps, k);
    var r := trace[k];
    var t := r.tasks[h];
    assert TaskSockets(trace[0], t, r.openers, h) && TaskOk(r, h);
    forall a | a in r.attempts && a.owner == h ensures a.socket == Some(0) {
      assert AttemptSocket(trace[0], r.openers, a);
    }
    assert Conserved(r, 0);
    if t.socket == Some(0) {
      WorkingHas(r.tasks, h, 0);
    } else if t.result == Some(0) {
      OfferedHas(r.tasks, h, 0);
    }
  }

  /** The handshakes that succeeded are the attempts that connected. */
  ghost predicate WinsTried(r: Race) {
    forall win :: win in r.wins <==>
      exists a :: a in r.attempts && a.connected && a.rank == win.rank && a.socket == Some(win.socket)
  }

  lemma {:induction false} RunWinsTried(trace: seq<Race>, steps: seq<Step>, k: nat)
    requires IsRun(trace, steps) && k < |trace|
    ensures WinsTried(trace[k])
  {
    if k > 0 {
      RunWinsTried(trace, steps, k - 1);
      assert StepAt(trace, steps, k - 1);
      var r, r' := trace[k - 1], trace[k];
      match steps[k - 1]
      case Worker(i, action) => WorkWinsTried(r, i, action, r');
      case Driver(move) => ProceedLogs(r, move, r');
    }
  }

  predicate Matches(a: Attempt, win: Win) {
    a.connected && a.rank == win.rank && a.socket == Some(win.socket)
  }

  lemma WorkWinsTried(r: Race, i: nat, action: Action, r': Race)
    requires CanWork(r, i, action) && r' == Work(r, i, action) && WinsTried(r)
    ensures WinsTried(r')
  {
    WorkTried(r, i, action, r');
    var more := Tried(r, i, action);
    WorkWins(r, i, action, r');
    forall win
      ensures win in r'.wins <==>
        exists a :: a in r'.attempts && a.connected && a.rank == win.rank && a.socket == Some(win.socket)
    {
      assert win in r'.wins <==> win in r.wins || exists a :: a in more && Matches(a, win);
      if a :| a in r'.attempts && Matches(a, win) {
        assert a in r.attempts || a in more;
      }
      if a :| a in r.attempts && Matches(a, win) {
        assert a in r'.attempts;
      }
      if a :| a in more && Matches(a, win) {
        assert a in r'.attempts;
      }
    }
  }

  lemma WorkWins(r: Race, i: nat, action: Action, r': Race)
    requires CanWork(r, i, action) && r' == Work(r, i, action)
    ensures forall win :: win in r'.wins <==> win in r.wins || exists a :: a in Tried(r, i, action) && Matches(a, win)
  {
    var t := r.tasks[i];
    if action.Shake? && action.connected {
      var a := Attempt(i, t.ranks[t.next], t.socket, true);
      assert a in Tried(r, i, action) && r'.wins == r.wins + [Win(a.rank, a.socket.value)];
    } else {
      assert r'.wins == r.wins && forall a :: a in Tried(r, i, action) ==> !a.connected;
    }
  }

  // ---------------------------------------------------------------- cancellation

  predicate PastWaiting(main: Phase) {
    main == Joining || main == Selecting || main == Returned
  }

  /** The race is cancelled after the wait only, and then unless all has ended without a success. */
  ghost predicate WaitedOut(r: Race) {
    && (r.cancelled ==> PastWaiting(r.main))
    && (PastWaiting(r.main) ==> r.cancelled || (r.wins == [] && forall i :: 0 <= i < |r.tasks| ==> IsDone(r, i)))
  }

  lemma AllFinished(r: Race)
    requires Inv(r) && r.completed >= |r.tasks| && r.bestRank.None?
    ensures r.wins == [] && forall i :: 0 <= i < |r.tasks| ==> IsDone(r, i)
  {
    assert r.wins != [] ==> r.wins[0] in r.wins && Won(r.tasks, r.wins[0]);
    FinishedAll(r.tasks);
    forall i | 0 <= i < |r.tasks| ensures IsDone(r, i) && r.tasks[i].result.None? {
      assert TaskOk(r, i);
    }
  }

  lemma {:induction false} FinishedAll(tasks: seq<Task>)
    requires Finished(tasks) >= |tasks|
    ensures forall i :: 0 <= i < |tasks| ==> tasks[i].stage == Done
    decreases |tasks|
  {
    if tasks != [] {
      var k := |tasks| - 1;
      FinishedBounds(tasks[..k]);
      FinishedAll(tasks[..k]);
      forall i | 0 <= i < |tasks| ensures tasks[i].stage == Done {
        assert i < k ==> tasks[..k][i] == tasks[i];
      }
    }
  }

  lemma WorkWaitsOut(r: Race, i: nat, action: Action, r': Race)
    requires CanWork(r, i, action) && r' == Work(r, i, action) && TaskOk(r, i) && WaitedOut(r)
    ensures WaitedOut(r')
  {
    assert !IsDone(r, i);
    WorkFrame(r, i, action, r');
  }

  lemma ProceedWaitsOut(r: Race, move: Move, r': Race)
    requires Inv(r) && CanMove(r, move) && r' == Proceed(r, move) && WaitedOut(r)
    ensures WaitedOut(r')
  {
    ProceedLogs(r, move, r');
    if r.main == Waiting && r.bestRank.None? {
      AllFinished(r);
    }
    forall i | 0 <= i < |r.tasks| && IsDone(r, i) ensures IsDone(r', i) {
      assert TaskOk(r, i);
      ProceedEnds(r, move, r', i);
    }
  }

  /** The wait can end as soon as one worker has ended with a success, which cancels the others. */
  lemma FirstSuccessEndsWaiting(trace: seq<Race>, steps: seq<Step>, k: nat, i: nat)
    requires IsRun(trace, steps) && k < |trace| && trace[k].main == Waiting
    requires IsDone(trace[k], i) && trace[k].tasks[i].result.Some?
    ensures Enabled(trace[k], Driver(StopWaiting)) && Apply(trace[k], Driver(StopWaiting)).cancelled
  {
    RunInv(trace, steps, k);
    assert TaskOk(trace[k], i);
  }

  /**
   When the main thread stops waiting while some worker has not ended, the others are told to
   stop; it never gives up before a success is recorded or everything has failed.
   */
  lemma {:induction false} CancelledAfterWaiting(trace: seq<Race>, steps: seq<Step>, k: nat)
    requires IsRun(trace, steps) && k < |trace|
    ensures WaitedOut(trace[k])
  {
    if k > 0 {
      CancelledAfterWaiting(trace, steps, k - 1);
      RunInv(trace, steps, k - 1);
      assert StepAt(trace, steps, k - 1);
      match steps[k - 1]
      case Worker(i, action) =>
        assert TaskOk(trace[k - 1], i);
        WorkWaitsOut(trace[k - 1], i, action, trace[k]);
      case Driver(move) => ProceedWaitsOut(trace[k - 1], move, trace[k]);
    }
  }

  /** Attempts made, and one that is under way. */
  ghost function Begun(r: Race, i: nat): nat
    requires i < |r.tasks|
  {
    |Own(r.attempts, i)| + UnderWay(r.tasks[i])
  }

  function UnderWay(t: Task): nat {
    if t.stage == Opening || t.stage == Shaking then 1 else 0
  }

  lemma TaskBegins(r: Race, i: nat, action: Action, r': Race)
    requires CanWork(r, i, action) && r' == Work(r, i, action) && TaskOk(r, i) && r.cancelled
    ensures |r'.tasks| == |r.tasks| && r'.cancelled
    ensures |Tried(r, i, action)| + UnderWay(r'.tasks[i]) <= UnderWay(r.tasks[i])
  {
  }

  lemma WorkBegins(r: Race, j: nat, action: Action, r': Race, i: nat)
    requires CanWork(r, j, action) && r' == Work(r, j, action) && i < |r.tasks| && TaskOk(r, j) && r.cancelled
    ensures |r'.tasks| == |r.tasks| && r'.cancelled && Begun(r', i) <= Begun(r, i)
  {
    WorkTried(r, j, action, r');
    OwnTried(r, j, action, i);
    TaskBegins(r, j, action, r');
  }

  lemma ProceedBegins(r: Race, move: Move, r': Race, i: nat)
    requires CanMove(r, move) && r' == Proceed(r, move) && i < |r.tasks| && r.cancelled && PastWaiting(r.main)
    ensures |r'.tasks| == |r.tasks| && r'.cancelled && Begun(r', i) == Begun(r, i)
  {
    ProceedLogs(r, move, r');
  }

  /** Once the race is cancelled no worker begins another attempt: it ends those under way, one each at most. */
  lemma {:induction false} NothingBegunAfterCancel(trace: seq<Race>, steps: seq<Step>, k: nat, l: nat, i: nat)
    requires IsRun(trace, steps) && k <= l < |trace| && trace[k].cancelled && i < |trace[k].tasks|
    ensures |trace[l].tasks| == |trace[k].tasks| && trace[l].cancelled && Begun(trace[l], i) <= Begun(trace[k], i)
    decreases l
  {
    if k < l {
      NothingBegunAfterCancel(trace, steps, k, l - 1, i);
      RunInv(trace, steps, l - 1);
      CancelledAfterWaiting(trace, steps, l - 1);
      assert StepAt(trace, steps, l - 1);
      match steps[l - 1]
      case Worker(j, action) =>
        assert TaskOk(trace[l - 1], j);
        WorkBegins(trace[l - 1], j, action, trace[l], i);
      case Driver(move) => ProceedBegins(trace[l - 1], move, trace[l], i);
    }
  }
}
