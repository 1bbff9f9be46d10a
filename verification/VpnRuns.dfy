/** Runs of the VPN loop, built step by step, that show what can happen. */
module VpnRuns {
  import opened VpnLoop
  import opened VpnProgress
  import opened VpnHistory

  // ---------------------------------------------------------------- building runs

  lemma Extend(r: Run, a: Action) returns (longer: Run)
    requires IsRun(r) && Enabled(Last(r), a)
    ensures IsRun(longer) && Last(longer) == Apply(Last(r), a)
    ensures longer.acts == r.acts + [a]
    ensures r.states[|r.acts|] == Last(r) && longer.states[..|r.states|] == r.states
  {
    longer := Run(r.states + [Apply(Last(r), a)], r.acts + [a]);
    forall i | 0 <= i < |longer.acts|
      ensures Next(longer.states[i], longer.acts[i], longer.states[i + 1])
    {
      if i < |r.acts| {
        assert Next(r.states[i], r.acts[i], r.states[i + 1]);
      }
    }
  }

  lemma ByCallerStep(r: Run, c: Id, step: CallerStep) returns (longer: Run)
    requires IsRun(r) && CallerEnabled(Last(r), c, step)
    ensures IsRun(longer) && Last(longer) == CallerApply(Last(r), c, step)
  {
    longer := Extend(r, CallerAction(c, step));
  }

  lemma ByMeeting(r: Run, c: Id, meeting: Meeting) returns (longer: Run)
    requires IsRun(r) && MeetEnabled(Last(r), c, meeting)
    ensures IsRun(longer) && Last(longer) == MeetApply(Last(r), c, meeting)
  {
    longer := Extend(r, MeetAction(c, meeting));
  }

  lemma ByLoopStep(r: Run, step: LoopStep) returns (longer: Run)
    requires IsRun(r) && LoopEnabled(Last(r), step)
    ensures IsRun(longer) && Last(longer) == LoopApply(Last(r), step)
    ensures longer.acts == r.acts + [LoopAction(step)]
    ensures r.states[|r.acts|] == Last(r) && longer.states[..|r.states|] == r.states
  {
    longer := Extend(r, LoopAction(step));
  }

  lemma Begin() returns (r: Run)
    ensures IsRun(r) && Init(Last(r))
  {
    r := Run([State(Stopped, Free, Free, map[], FirstStart, true, Runner({}, 0, false, false), false)], []);
  }

  lemma MoveTwice(s: State, c: Id, pc: Caller, pc': Caller)
    ensures Move(Move(s, c, pc), c, pc') == Move(s, c, pc')
  {
  }

  lemma SwitchForgets(s: State, c: Id, pc: Caller, req: Status, existing: Status)
    requires s.statusMu == Free
    ensures Switched(Move(s, c, pc).(statusMu := ByCaller(c)), c, req, existing) == Switched(s, c, req, existing)
  {
    MoveTwice(s, c, pc, Leaving);
    MoveTwice(s, c, pc, StartSending);
    MoveTwice(s, c, pc, StopSending);
  }

  lemma LockBoth(r: Run, c: Id, req: Status) returns (longer: Run)
    requires IsRun(r) && c !in Last(r).callers && Last(r).loopMu == Free && Last(r).statusMu == Free
    ensures IsRun(longer)
    ensures var s := Last(r);
      Last(longer) == Move(s, c, Decide(req, s.status)).(loopMu := ByCaller(c), statusMu := ByCaller(c))
  {
    hide IsRun, Last;
    var s := Last(r);
    longer := ByCallerStep(r, c, Call(req));
    longer := ByCallerStep(longer, c, LockLoop);
    MoveTwice(s, c, WantLoop(req), WantStatus(req));
    longer := ByCallerStep(longer, c, LockStatus);
    MoveTwice(s, c, WantStatus(req), Decide(req, s.status));
  }

  /** A call from outside up to the switch, when nobody holds a mutex. */
  lemma Ask(r: Run, c: Id, req: Status) returns (longer: Run)
    requires IsRun(r) && c !in Last(r).callers && Last(r).loopMu == Free && Last(r).statusMu == Free
    ensures IsRun(longer)
    ensures Last(longer) == Switched(Last(r).(loopMu := ByCaller(c)), c, req, Last(r).status)
  {
    hide IsRun, Last;
    var s := Last(r);
    longer := LockBoth(r, c, req);
    longer := ByCallerStep(longer, c, Switch);
    SwitchForgets(s.(loopMu := ByCaller(c)), c, Decide(req, s.status), req, s.status);
  }

  /** The write of the status and the return of a call. */
  lemma Finish(r: Run, c: Id, status: Status) returns (longer: Run)
    requires IsRun(r) && At(Last(r), c, SetTo(status)) && Last(r).statusMu == Free
    ensures IsRun(longer)
    ensures Last(longer) == Last(r).(status := status, loopMu := Free, callers := Last(r).callers - {c})
  {
    hide IsRun, Last;
    longer := ByCallerStep(r, c, CallerSets);
    longer := ByCallerStep(longer, c, Return);
  }

  /** The state once a first ApplyStatus(Running) has returned. */
  ghost function Connected(reported: bool): State {
    State(Running, Free, Free, map[], Stay, false,
          Runner(if reported then {} else {1}, 1, reported, false), false)
  }

  lemma Connect(reported: bool) returns (r: Run)
    ensures IsRun(r) && Last(r) == Connected(reported)
  {
    hide IsRun, Last;
    r := Begin();
    r := Ask(r, 0, Running);
    r := ByMeeting(r, 0, TakeStart);
    r := ByCallerStep(r, 0, EnterSelect);
    assert Last(r) == State(Starting, ByCaller(0), Free, map[0 := StartWaiting], Top, true,
                            Runner({}, 0, false, false), false);
    r := ByLoopStep(r, CheckContext);
    r := ByLoopStep(r, Spawn);
    r := ByLoopStep(r, if reported then EarlyReport(false) else TimerFires);
    assert Last(r) == State(Starting, ByCaller(0), Free, map[0 := StartWaiting], Signal(Running), true,
                            Runner(if reported then {} else {1}, 1, reported, false), false);
    r := ByMeeting(r, 0, SendRunning);
    r := Finish(r, 0, Running);
  }

  /** A runner exits while its stop is on the way: the loop waits for loopMu, the holder of
      loopMu waits for the loop. */
  lemma StuckByCrash() returns (r: Run)
    ensures IsRun(r) && Stuck(Last(r), 0, StopSending) && Last(r).loop == CrashLock
  {
    hide IsRun, Last;
    r := Connect(false);
    r := Ask(r, 0, Stopped);
    r := ByLoopStep(r, LateReport);
  }

  /** The loop leaves for good while a stop is on the way. */
  lemma StuckByExit() returns (r: Run)
    ensures IsRun(r) && Stuck(Last(r), 0, StopSending) && Last(r).loop == ExitDrain
  {
    hide IsRun, Last;
    r := Connect(false);
    r := Ask(r, 0, Stopped);
    r := ByLoopStep(r, CancelContext);
    r := ByLoopStep(r, StayCancelled);
  }

  /** A caller gives up its stop: the status stays Stopping and the loop offers stopped for ever. */
  lemma AbandonedIsReachable() returns (r: Run)
    ensures IsRun(r) && Abandoned(Last(r)) && Last(r).status == Stopping && Last(r).callers == map[]
  {
    hide IsRun, Last;
    r := Connect(false);
    r := Ask(r, 0, Stopped);
    r := ByMeeting(r, 0, TakeStop);
    r := ByCallerStep(r, 0, EnterSelect);
    r := ByCallerStep(r, 0, GiveUp);
    r := ByLoopStep(r, DrainStop);
    r := Finish(r, 0, Stopping);
  }

  /** The VPN runs, but its answer came before the caller was in its select, and was dropped. */
  lemma DroppedIsReachable() returns (r: Run)
    ensures IsRun(r) && Unanswered(Last(r), 0) && Last(r).loop == Stay && Last(r).runner.alive == {1}
  {
    hide IsRun, Last;
    r := Begin();
    r := Ask(r, 0, Running);
    r := ByMeeting(r, 0, TakeStart);
    r := ByLoopStep(r, CheckContext);
    r := ByLoopStep(r, Spawn);
    r := ByLoopStep(r, TimerFires);
    r := ByLoopStep(r, DropRunning);
    r := ByCallerStep(r, 0, EnterSelect);
  }

  lemma PanicIsReachable() returns (r: Run)
    ensures IsRun(r) && Last(r).loop == Panicked
  {
    hide IsRun, Last;
    r := Connect(true);
    r := ByLoopStep(r, CancelContext);
    r := ByLoopStep(r, StayCancelled);
    r := ByLoopStep(r, DrainExit);
  }

  /** Shutdown after a clean stop: the loop waits for ever on a channel that the stop has drained. */
  lemma ExitNeverEnds() returns (r: Run)
    ensures IsRun(r)
    ensures Last(r) == State(Stopped, Free, Free, map[], ExitDrain, true, Runner({}, 1, false, false), true)
    ensures LoopBlocked(Last(r))
  {
    hide IsRun, Last;
    r := StopCleanly(false);
    r := ByLoopStep(r, CancelContext);
    r := ByLoopStep(r, StayCancelled);
  }

  /** A stop is taken before the runner comes to its send on tunnelReady: the runner waits for the
      loop to receive it, and the loop for the runner to report. */
  lemma StopStarves() returns (r: Run)
    ensures IsRun(r) && Last(r).loop == StopDrain && LoopBlocked(Last(r)) && At(Last(r), 0, StopSent)
  {
    hide IsRun, Last;
    r := Connect(false);
    r := Ask(r, 0, Stopped);
    r := ByMeeting(r, 0, TakeStop);
    r := ByLoopStep(r, Offers);
  }

  /** So does a shutdown, with nobody in a call. */
  lemma ExitStarves() returns (r: Run)
    ensures IsRun(r) && Last(r).loop == ExitDrain && LoopBlocked(Last(r)) && Last(r).callers == map[]
  {
    hide IsRun, Last;
    r := Connect(false);
    r := ByLoopStep(r, CancelContext);
    r := ByLoopStep(r, StayCancelled);
    r := ByLoopStep(r, Offers);
  }

  /** A setup that fails is reported to the caller that asked. */
  lemma SetupFailureIsReported() returns (r: Run)
    ensures IsRun(r)
    ensures Last(r) == State(Crashed, Free, Free, map[], Backoff, false, Runner({}, 0, false, false), false)
  {
    hide IsRun, Last;
    r := Begin();
    r := Ask(r, 0, Running);
    r := ByMeeting(r, 0, TakeStart);
    r := ByCallerStep(r, 0, EnterSelect);
    r := ByLoopStep(r, CheckContext);
    r := ByLoopStep(r, SetupFails);
    r := ByMeeting(r, 0, SendRunning);
    r := Finish(r, 0, Crashed);
  }

  /** The VPN is up, its signal was dropped, and its caller has returned: the status stays Starting. */
  lemma UnreportedIsReachable() returns (r: Run)
    ensures IsRun(r) && QuietlyUp(Last(r)) && Last(r).status == Starting && Last(r).callers == map[]
  {
    hide IsRun, Last;
    r := FirstSpawn(true);
    r := ByLoopStep(r, TimerFires);
    r := ByLoopStep(r, DropRunning);
    r := Finish(r, 0, Starting);
  }

  /** The same with the signal written, by the n-th step, and overwritten by a caller that had
      given up before. */
  lemma OverwrittenIsReachable() returns (r: Run, n: nat)
    ensures IsRun(r) && QuietlyUp(Last(r)) && Last(r).status == Starting && Last(r).callers == map[]
    ensures |r.acts| == n + 3 && r.acts[n] == LoopAction(LoopSets) && r.states[n].loop == Signal(Running)
    ensures r.acts[n + 1] == CallerAction(0, CallerSets) && r.acts[n + 2] == CallerAction(0, Return)
  {
    r := SecondSignal(false);
    n := |r.acts|;
    hide Next, Last;
    r := Extend(r, LoopAction(LoopSets));
    r := Extend(r, CallerAction(0, CallerSets));
    r := Extend(r, CallerAction(0, Return));
  }

  /** The context of the loop is done while it waits for the first error: the loop ends with status
      Crashed and leaves its runner behind. */
  lemma RunnerLeftBehind() returns (r: Run)
    ensures IsRun(r) && Last(r) == State(Crashed, Free, Free, map[], Exited, false, Runner({1}, 1, false, false), true)
  {
    hide IsRun, Last;
    r := FirstSpawn(false);
    r := ByLoopStep(r, CancelContext);
    r := ByLoopStep(r, WaitCancelled);
    r := ByMeeting(r, 0, SendRunning);
    r := Finish(r, 0, Crashed);
    r := ByLoopStep(r, BackoffOver);
    r := ByLoopStep(r, CheckContext);
  }

  /** After a runner that reported success early, a stopped loop restarts a VPN nobody asked to
      start. */
  lemma StoppedRestartsAlone() returns (r: Run, i: nat)
    ensures IsRun(r) && i < |r.acts|
    ensures r.states[i].status == Stopped && r.states[i].callers == map[]
    ensures forall k :: i <= k < |r.acts| ==> r.acts[k].LoopAction?
    ensures Last(r).runner.alive == {2}
  {
    hide IsRun, Last;
    r := StopCleanly(true);
    r, i := RestartAlone(r);
  }

  /** A start, be it of a runner that reported success early, and a stop. */
  lemma StopCleanly(reported: bool) returns (r: Run)
    ensures IsRun(r)
    ensures Last(r) == State(Stopped, Free, Free, map[], Stay, true, Runner({}, 1, reported, false), false)
  {
    hide IsRun, Last;
    r := Connect(reported);
    r := Ask(r, 0, Stopped);
    r := ByMeeting(r, 0, TakeStop);
    r := ByLoopStep(r, DrainStop);
    r := ByCallerStep(r, 0, EnterSelect);
    r := ByMeeting(r, 0, SendStopped);
    r := Finish(r, 0, Stopped);
  }

  lemma CrashAlone(r: Run) returns (longer: Run)
    requires IsRun(r) && Last(r) == State(Stopped, Free, Free, map[], Stay, true, Runner({}, 1, true, false), false)
    ensures IsRun(longer) && Last(longer) == State(Crashed, ByLoop, Free, map[], CrashBackoff, true,
                                                         Runner({}, 1, true, false), false)
    ensures longer.acts == r.acts + [LoopAction(LateReport), LoopAction(CrashLocks), LoopAction(CrashSets)]
    ensures r.states <= longer.states
  {
    hide Next, Last;
    longer := ByLoopStep(r, LateReport);
    longer := ByLoopStep(longer, CrashLocks);
    longer := ByLoopStep(longer, CrashSets);
  }

  lemma RestartAlone(r: Run) returns (longer: Run, i: nat)
    requires IsRun(r) && Last(r) == State(Stopped, Free, Free, map[], Stay, true, Runner({}, 1, true, false), false)
    ensures IsRun(longer) && i < |longer.acts|
    ensures longer.states[i].status == Stopped && longer.states[i].callers == map[]
    ensures forall k :: i <= k < |longer.acts| ==> longer.acts[k].LoopAction?
    ensures Last(longer).runner.alive == {2}
  {
    i := |r.acts|;
    assert r.states[i] == Last(r);
    hide Next, Last;
    longer := CrashAlone(r);
    longer := ByLoopStep(longer, CrashUnlocks);
    longer := ByLoopStep(longer, CheckContext);
    longer := ByLoopStep(longer, Spawn);
  }

  // ---------------------------------------------------------------- every allowed write happens

  /** The step is about to write this status over that one. */
  ghost predicate Overwrites(s: State, a: Action, before: Status, written: Status) {
    s.status == before && Enabled(s, a) && Writes(s, a, written)
  }

  /** The loop has spawned its first runner; caller 0 is in its select or has given up. */
  lemma FirstSpawn(gaveUp: bool) returns (r: Run)
    ensures IsRun(r) && Last(r) == State(Starting, ByCaller(0), Free,
      map[0 := if gaveUp then SetTo(Starting) else StartWaiting], WaitError, true, Runner({1}, 1, false, false), false)
  {
    hide IsRun, Last;
    r := Begin();
    r := Ask(r, 0, Running);
    r := ByMeeting(r, 0, TakeStart);
    r := ByCallerStep(r, 0, EnterSelect);
    if gaveUp {
      r := ByCallerStep(r, 0, GiveUp);
    }
    r := ByLoopStep(r, CheckContext);
    r := ByLoopStep(r, Spawn);
  }

  /** From a signal of a crash to the signal about the next runner. */
  lemma Retry(r: Run, crashes: bool) returns (longer: Run)
    requires IsRun(r) && Last(r).loop == Backoff && !Last(r).ctxDone && Last(r).runner.alive == {}
    ensures IsRun(longer)
    ensures var s, n := Last(r), Last(r).runner.current + 1;
      Last(longer) == s.(loop := Signal(if crashes then Crashed else Running),
                         runner := Runner(if crashes then {} else {n}, n, crashes, false))
  {
    hide IsRun, Last;
    longer := ByLoopStep(r, BackoffOver);
    longer := ByLoopStep(longer, CheckContext);
    longer := ByLoopStep(longer, Spawn);
    longer := ByLoopStep(longer, if crashes then EarlyReport(true) else TimerFires);
  }

  /** Caller 0 has given up, the answer to it was dropped, and the loop is about to signal what
      became of its second runner. */
  lemma SecondSignal(crashes: bool) returns (r: Run)
    ensures IsRun(r) && Last(r) == State(Starting, ByCaller(0), Free, map[0 := SetTo(Starting)],
      Signal(if crashes then Crashed else Running), false,
      Runner(if crashes then {} else {2}, 2, crashes, false), false)
  {
    hide IsRun, Last;
    r := FirstSpawn(true);
    r := ByLoopStep(r, EarlyReport(true));
    r := ByLoopStep(r, DropRunning);
    r := Retry(r, crashes);
  }

  lemma RunningWritten(before: Status) returns (r: Run, a: Action)
    requires Allowed(before, Running)
    ensures IsRun(r) && Overwrites(Last(r), a, before, Running)
  {
    hide IsRun, Last;
    if before == Starting {
      r := FirstSpawn(false);
      r := ByLoopStep(r, TimerFires);
      r := ByMeeting(r, 0, SendRunning);
      a := CallerAction(0, CallerSets);
    } else {
      r := SecondSignal(true);
      r := ByLoopStep(r, LoopSets);
      r := Retry(r, false);
      a := LoopAction(LoopSets);
    }
  }

  lemma StartingWritten(before: Status) returns (r: Run, a: Action)
    requires Allowed(before, Starting)
    ensures IsRun(r) && Overwrites(Last(r), a, before, Starting)
  {
    hide IsRun, Last;
    if before == Stopped {
      r := Begin();
      r := LockBoth(r, 0, Running);
      a := CallerAction(0, Switch);
    } else {
      if before == Starting {
        r := FirstSpawn(true);
      } else {
        r := SecondSignal(before == Crashed);
        r := ByLoopStep(r, LoopSets);
      }
      a := CallerAction(0, CallerSets);
    }
  }

  lemma CrashedWritten(before: Status) returns (r: Run, a: Action)
    requires Allowed(before, Crashed)
    ensures IsRun(r) && Overwrites(Last(r), a, before, Crashed)
  {
    hide IsRun, Last;
    match before
    case Starting =>
      r := SecondSignal(true);
      a := LoopAction(LoopSets);
    case Crashed =>
      r := SecondSignal(true);
      r := ByLoopStep(r, LoopSets);
      r := Retry(r, true);
      a := LoopAction(LoopSets);
    case _ =>
      if before == Running {
        r := Connect(false);
      } else {
        r := StopCleanly(true);
      }
      r := ByLoopStep(r, LateReport);
      r := ByLoopStep(r, CrashLocks);
      a := LoopAction(CrashSets);
  }

  lemma StopWritten(before: Status, written: Status) returns (r: Run, a: Action)
    requires Allowed(before, written) && (written == Stopping || written == Stopped)
    ensures IsRun(r) && Overwrites(Last(r), a, before, written)
  {
    hide IsRun, Last;
    r := Connect(false);
    if before == Running {
      r := LockBoth(r, 0, Stopped);
      a := CallerAction(0, Switch);
    } else {
      r := Ask(r, 0, Stopped);
      r := ByMeeting(r, 0, TakeStop);
      r := ByLoopStep(r, DrainStop);
      r := ByCallerStep(r, 0, EnterSelect);
      if written == Stopping {
        r := ByCallerStep(r, 0, GiveUp);
      } else {
        r := ByMeeting(r, 0, SendStopped);
      }
      a := CallerAction(0, CallerSets);
    }
  }

  /** Together with StatusOrder: a status is written over another in some run if and only if the
      table allows it. */
  lemma TableIsFull(before: Status, written: Status) returns (r: Run, a: Action)
    requires Allowed(before, written)
    ensures IsRun(r) && Overwrites(Last(r), a, before, written)
  {
    match written
    case Running => r, a := RunningWritten(before);
    case Starting => r, a := StartingWritten(before);
    case Crashed => r, a := CrashedWritten(before);
    case _ => r, a := StopWritten(before, written);
  }
}
