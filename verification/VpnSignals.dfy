/** What becomes of every attempt to start a VPN: its outcome is signalled before the loop goes on,
    to the caller that asked or else in the status. */
module VpnSignals {
  import opened VpnLoop
  import opened VpnProgress

  /** The three ways in which signalOrSetStatus ends. */
  predicate Signals(a: Action) {
    match a
    case MeetAction(_, SendRunning) => true
    case LoopAction(DropRunning) => true
    case LoopAction(LoopSets) => true
    case _ => false
  }

  lemma OnlySignalsLeave(s: State, a: Action)
    requires Enabled(s, a) && s.loop.Signal? && Apply(s, a).loop != s.loop
    ensures Signals(a)
  {
    hide CallerEnabled, CallerApply;
    match a
    case CallerAction(c, step) => CallerKeepsLoop(s, c, step);
    case MeetAction(_, _) =>
    case LoopAction(_) =>
  }

  /** What a signal does: with the trigger of a caller it is handed to the caller in its select, or
      dropped if there is none, and the trigger is used up; without one it becomes the status. */
  lemma SignalMeaning(s: State, a: Action)
    requires Enabled(s, a) && s.loop.Signal? && Signals(a)
    ensures var s' := Apply(s, a);
      && !s'.userTrigger
      && (s.userTrigger && (exists c :: At(s, c, StartWaiting)) ==>
            a.MeetAction? && At(s, a.c, StartWaiting) && At(s', a.c, SetTo(s.loop.status)))
      && (s.userTrigger && !(exists c :: At(s, c, StartWaiting)) ==> s'.callers == s.callers && s'.status == s.status)
      && (!s.userTrigger ==> s'.status == s.loop.status && s'.callers == s.callers)
  {
  }

  /** Between a position at a signal and one elsewhere, the signal has been given. */
  lemma {:induction false} SignalledBetween(r: Run, i: nat, j: nat) returns (k: nat)
    requires IsRun(r) && i < j < |r.states|
    requires r.states[i].loop.Signal? && r.states[j].loop != r.states[i].loop
    ensures i <= k < j && r.states[k].loop == r.states[i].loop && Signals(r.acts[k])
    decreases j - i
  {
    hide Enabled, Apply;
    assert Next(r.states[i], r.acts[i], r.states[i + 1]);
    if r.states[i + 1].loop != r.states[i].loop {
      OnlySignalsLeave(r.states[i], r.acts[i]);
      k := i;
    } else {
      k := SignalledBetween(r, i + 1, j);
    }
  }

  /** A setup that fails, a runner that fails early, and a wait that the context cuts short. */
  predicate Fails(a: Action) {
    match a
    case LoopAction(SetupFails) => true
    case LoopAction(EarlyReport(failed)) => failed
    case LoopAction(WaitCancelled) => true
    case _ => false
  }

  /** A runner that is up after 100ms, or has reported success before. */
  predicate Succeeds(a: Action) {
    match a
    case LoopAction(TimerFires) => true
    case LoopAction(EarlyReport(failed)) => !failed
    case _ => false
  }

  lemma OutcomeIsSignalled(s: State, a: Action)
    requires Enabled(s, a)
    ensures Fails(a) ==> Apply(s, a).loop == Signal(Crashed)
    ensures Succeeds(a) ==> Apply(s, a).loop == Signal(Running)
  {
  }

  /** A failed attempt is signalled as Crashed before the loop backs off, tries again or ends. */
  lemma FailureIsSignalled(r: Run, i: nat, j: nat) returns (k: nat)
    requires IsRun(r) && i < j < |r.acts| && Fails(r.acts[i])
    requires r.acts[j] == LoopAction(BackoffOver) || r.acts[j] == LoopAction(CheckContext)
    ensures i < k < j && r.states[k].loop == Signal(Crashed) && Signals(r.acts[k])
  {
    assert Next(r.states[i], r.acts[i], r.states[i + 1]);
    assert Next(r.states[j], r.acts[j], r.states[j + 1]);
    hide Enabled, Apply;
    OutcomeIsSignalled(r.states[i], r.acts[i]);
    NotAtSignal(r.states[j], r.acts[j]);
    k := SignalledBetween(r, i + 1, j);
  }

  lemma NotAtSignal(s: State, a: Action)
    requires Enabled(s, a) && (a == LoopAction(BackoffOver) || a == LoopAction(CheckContext))
    ensures !s.loop.Signal?
  {
  }

  /** A runner that is up is signalled as Running before the loop is in its select. */
  lemma SuccessIsSignalled(r: Run, i: nat, j: nat) returns (k: nat)
    requires IsRun(r) && i < j < |r.states| && Succeeds(r.acts[i]) && r.states[j].loop == Stay
    ensures i < k < j && r.states[k].loop == Signal(Running) && Signals(r.acts[k])
  {
    assert Next(r.states[i], r.acts[i], r.states[i + 1]);
    hide Enabled, Apply;
    OutcomeIsSignalled(r.states[i], r.acts[i]);
    k := SignalledBetween(r, i + 1, j);
  }

  /** On the way to the write of Crashed in the crash branch. */
  predicate Crashing(l: Loop) {
    l == CrashLock || l == CrashSet
  }

  lemma OnlyTheWriteLeaves(s: State, a: Action)
    requires Enabled(s, a) && Crashing(s.loop) && !Crashing(Apply(s, a).loop)
    ensures a == LoopAction(CrashSets) && Apply(s, a).status == Crashed
  {
    hide CallerEnabled, CallerApply;
    match a
    case CallerAction(c, step) => CallerKeepsLoop(s, c, step);
    case MeetAction(_, _) =>
    case LoopAction(_) =>
  }

  lemma {:induction false} WrittenBetween(r: Run, i: nat, j: nat) returns (k: nat)
    requires IsRun(r) && i < j < |r.states| && Crashing(r.states[i].loop) && !Crashing(r.states[j].loop)
    ensures i <= k < j && r.acts[k] == LoopAction(CrashSets) && r.states[k + 1].status == Crashed
    decreases j - i
  {
    hide Enabled, Apply;
    assert Next(r.states[i], r.acts[i], r.states[i + 1]);
    if !Crashing(r.states[i + 1].loop) {
      OnlyTheWriteLeaves(r.states[i], r.acts[i]);
      k := i;
    } else {
      k := WrittenBetween(r, i + 1, j);
    }
  }

  /** A runner that exits later has Crashed written before the loop tries again or ends. */
  lemma CrashIsWritten(r: Run, i: nat, j: nat) returns (k: nat)
    requires IsRun(r) && i < j < |r.acts| && r.acts[i] == LoopAction(LateReport)
    requires r.acts[j] == LoopAction(CheckContext)
    ensures i < k < j && r.acts[k] == LoopAction(CrashSets) && r.states[k + 1].status == Crashed
  {
    assert Next(r.states[i], r.acts[i], r.states[i + 1]);
    assert Next(r.states[j], r.acts[j], r.states[j + 1]);
    k := WrittenBetween(r, i + 1, j);
  }

  lemma TriggerStep(s: State, a: Action)
    requires Enabled(s, a) && (s.loop == Backoff ==> !s.userTrigger)
    ensures Apply(s, a).loop == Backoff ==> !Apply(s, a).userTrigger
  {
    hide CallerEnabled, CallerApply;
    match a
    case CallerAction(c, step) => CallerKeepsLoop(s, c, step);
    case MeetAction(_, _) =>
    case LoopAction(_) =>
  }

  /** A loop that backs off has used up its trigger. */
  lemma {:induction false} BackoffIsSignalled(r: Run, i: nat)
    requires IsRun(r) && i < |r.states|
    ensures r.states[i].loop == Backoff ==> !r.states[i].userTrigger
  {
    hide Enabled, Apply;
    if i > 0 {
      BackoffIsSignalled(r, i - 1);
      assert Next(r.states[i - 1], r.acts[i - 1], r.states[i]);
      TriggerStep(r.states[i - 1], r.acts[i - 1]);
    }
  }

  /** A start that has just been taken is owed an answer, unless the loop is to end. */
  lemma StartIsOwed(r: Run, i: nat)
    requires IsRun(r) && i < |r.acts| && r.acts[i].MeetAction? && r.acts[i].meeting == TakeStart
    ensures r.states[i + 1].userTrigger && (!r.states[i].ctxDone ==> Answering(r.states[i + 1]))
  {
    RunInv(r, i);
    assert Next(r.states[i], r.acts[i], r.states[i + 1]);
  }

  /** While nobody else is served, the answer of a failed attempt is Crashed. */
  lemma FailureIsAnswered(r: Run, i: nat, c: Id)
    requires IsRun(r) && i < |r.acts| && Fails(r.acts[i])
    requires r.states[i].userTrigger && At(r.states[i], c, StartWaiting)
    ensures var s := r.states[i + 1];
      MeetEnabled(s, c, SendRunning) && At(MeetApply(s, c, SendRunning), c, SetTo(Crashed))
  {
    assert Next(r.states[i], r.acts[i], r.states[i + 1]);
    OutcomeIsSignalled(r.states[i], r.acts[i]);
    FailsKeepsCallers(r.states[i], r.acts[i]);
  }

  lemma FailsKeepsCallers(s: State, a: Action)
    requires Enabled(s, a) && Fails(a)
    ensures Apply(s, a).callers == s.callers && Apply(s, a).userTrigger == s.userTrigger
  {
  }

  lemma LeavingStep(s: State, a: Action)
    requires Enabled(s, a) && (s.loop in {ExitDrain, Exited, Panicked} ==> s.ctxDone)
    ensures Apply(s, a).loop in {ExitDrain, Exited, Panicked} ==> Apply(s, a).ctxDone
  {
    hide CallerEnabled, CallerApply;
    match a
    case CallerAction(c, step) => CallerKeepsLoop(s, c, step);
    case MeetAction(_, _) =>
    case LoopAction(_) =>
  }

  /** The loop only leaves for good once its context is done. */
  lemma LeavesWhenDone(r: Run, i: nat)
    requires IsRun(r) && i < |r.states| && r.states[i].loop in {ExitDrain, Exited, Panicked}
    ensures exists k :: 0 <= k < i && r.acts[k] == LoopAction(CancelContext)
  {
    DoneMeansCancelled(r, i);
  }

  lemma {:induction false} DoneMeansCancelled(r: Run, i: nat)
    requires IsRun(r) && i < |r.states|
    ensures r.states[i].loop in {ExitDrain, Exited, Panicked} ==> r.states[i].ctxDone
    ensures r.states[i].ctxDone ==> exists k :: 0 <= k < i && r.acts[k] == LoopAction(CancelContext)
  {
    hide Enabled, Apply;
    if i > 0 {
      DoneMeansCancelled(r, i - 1);
      assert Next(r.states[i - 1], r.acts[i - 1], r.states[i]);
      LeavingStep(r.states[i - 1], r.acts[i - 1]);
      DoneStep(r.states[i - 1], r.acts[i - 1]);
      if r.states[i].ctxDone && r.acts[i - 1] == LoopAction(CancelContext) {
        assert r.acts[i - 1] == LoopAction(CancelContext);
      }
    }
  }

  lemma DoneStep(s: State, a: Action)
    requires Enabled(s, a)
    ensures a != LoopAction(CancelContext) ==> Apply(s, a).ctxDone == s.ctxDone
  {
    hide CallerEnabled, CallerApply;
    match a
    case CallerAction(c, step) => CallerKeepsLoop(s, c, step);
    case MeetAction(_, _) =>
    case LoopAction(_) =>
  }
}
