/** The status protocol between the VPN loop goroutine and any number of ApplyStatus callers.

    Every atomic action of a goroutine is one step: taking or releasing a mutex, a write of the
    status, a rendezvous on an unbuffered channel, the choice made by a select. Goroutines
    interleave freely. */
module VpnLoop {

  datatype Status = Stopped | Starting | Running | Stopping | Crashed | Completed

  type Id = nat

  datatype Holder = Free | ByCaller(caller: Id) | ByLoop

  /** Where an ApplyStatus call stands. A caller that is not in the map is outside the call. */
  datatype Caller =
    | WantLoop(req: Status)                      // about to lock loopMu
    | WantStatus(req: Status)                    // holds loopMu, about to lock statusMu
    | Decide(req: Status, existing: Status)      // holds both, has read the status
    | StartSending                               // blocked on s.start <-
    | StartSent                                  // start taken, not yet in the select
    | StartWaiting                               // in the select on ctx.Done and s.running
    | StopSending                                // blocked on s.stop <-
    | StopSent                                   // stop taken, not yet in the select
    | StopWaiting                                // in the select on ctx.Done and s.stopped
    | SetTo(status: Status)                      // about to call SetStatus
    | Leaving                                    // about to unlock loopMu and return

  /** Where the loop goroutine stands. */
  datatype Loop =
    | FirstStart                 // select on l.start and ctx.Done, before the loop
    | Top                        // for ctx.Err() == nil
    | Setup                      // setting up the runner
    | WaitError                  // waitForError
    | Signal(status: Status)     // signalOrSetStatus
    | Backoff                    // logAndWait after crashed
    | Stay                       // the select of the inner loop
    | StopDrain                  // stop received, <-waitError
    | StoppedSending             // l.stopped <-
    | CrashLock                  // error received, about to lock loopMu
    | CrashSet                   // holds loopMu, about to set Crashed
    | CrashBackoff               // holds loopMu, logAndWait then unlock
    | ExitDrain                  // ctx done, <-waitError
    | Exited
    | Panicked                   // closed a closed waitError

  datatype State = State(
    status: Status,
    loopMu: Holder,
    statusMu: Holder,
    callers: map<Id, Caller>,
    loop: Loop,
    userTrigger: bool,
    runner: Runner,
    ctxDone: bool)        // the loop context

  /** What the loop knows of its runners through the channels it has made. */
  datatype Runner = Runner(
    alive: set<nat>,      // runners spawned that have not reported on their waitError
    current: nat,         // the runner whose waitError the loop holds
    closed: bool,         // that waitError has been closed
    offering: bool)       // that runner waits to send on tunnelReady

  /** A step of one ApplyStatus call. */
  datatype CallerStep =
    | Call(req: Status)
    | LockLoop
    | LockStatus
    | Switch
    | EnterSelect
    | GiveUp           // the context of the caller is done
    | CallerSets
    | Return

  /** A rendezvous of the loop with one caller. */
  datatype Meeting = TakeStart | TakeStop | SendRunning | SendStopped

  /** A step of the loop alone, or with its runner. */
  datatype LoopStep =
    | CancelContext
    | FirstCancelled
    | CheckContext
    | SetupFails
    | Spawn
    | TimerFires
    | EarlyReport(failed: bool)
    | WaitCancelled
    | DropRunning
    | LoopSets
    | BackoffOver
    | Offers             // the runner comes to its send on tunnelReady
    | TunnelReady        // the loop receives it
    | DrainStop
    | LateReport
    | CrashLocks
    | CrashSets
    | CrashUnlocks
    | StayCancelled
    | DrainExit

  datatype Action =
    | CallerAction(c: Id, callerStep: CallerStep)
    | MeetAction(c: Id, meeting: Meeting)
    | LoopAction(loopStep: LoopStep)

  ghost predicate At(s: State, c: Id, pc: Caller) {
    c in s.callers && s.callers[c] == pc
  }

  function Move(s: State, c: Id, pc: Caller): State {
    s.(callers := s.callers[c := pc])
  }

  /** The current runner can report: it is alive and does not wait to send on tunnelReady, which is
      only received in the inner select. */
  ghost predicate CanReport(s: State) {
    s.runner.current in s.runner.alive && !s.runner.offering
  }

  /** A receive from the current waitError: the runner reports, or the channel is closed. */
  ghost predicate CanReceive(s: State) {
    CanReport(s) || s.runner.closed
  }

  ghost function Received(s: State): State {
    if s.runner.closed then s else s.(runner := s.runner.(alive := s.runner.alive - {s.runner.current}))
  }

  ghost predicate Init(s: State) {
    s == State(Stopped, Free, Free, map[], FirstStart, true, Runner({}, 0, false, false), false)
  }

  // ---------------------------------------------------------------- the steps

  ghost predicate CallerEnabled(s: State, c: Id, step: CallerStep) {
    if c !in s.callers then
      step.Call?
    else
      var pc := s.callers[c];
      match step
      case Call(_) => false
      case LockLoop => pc.WantLoop? && s.loopMu == Free
      case LockStatus => pc.WantStatus? && s.statusMu == Free
      case Switch => pc.Decide?
      case EnterSelect => pc.StartSent? || pc.StopSent?
      case GiveUp => pc.StartWaiting? || pc.StopWaiting?
      case CallerSets => pc.SetTo? && s.statusMu == Free
      case Return => pc.Leaving?
  }

  ghost function CallerApply(s: State, c: Id, step: CallerStep): State
    requires CallerEnabled(s, c, step)
  {
    match step
    case Call(req) => Move(s, c, WantLoop(req))
    case LockLoop => Move(s, c, WantStatus(s.callers[c].req)).(loopMu := ByCaller(c))
    case LockStatus => Move(s, c, Decide(s.callers[c].req, s.status)).(statusMu := ByCaller(c))
    case Switch => Switched(s, c, s.callers[c].req, s.callers[c].existing)
    case EnterSelect => Move(s, c, if s.callers[c].StartSent? then StartWaiting else StopWaiting)
    case GiveUp => Move(s, c, SetTo(if s.callers[c].StartWaiting? then Starting else Stopping))
    case CallerSets => Move(s, c, Leaving).(status := s.callers[c].status)
    case Return => s.(callers := s.callers - {c}, loopMu := Free)
  }

  /** The switch of ApplyStatus, under both mutexes; statusMu is released. */
  ghost function Switched(s: State, c: Id, req: Status, existing: Status): State {
    if req == Running && (existing == Stopped || existing == Completed) then
      Move(s, c, StartSending).(status := Starting, statusMu := Free)
    else if req == Stopped && existing == Running then
      Move(s, c, StopSending).(status := Stopping, statusMu := Free)
    else
      Move(s, c, Leaving).(statusMu := Free)
  }

  ghost predicate MeetEnabled(s: State, c: Id, meeting: Meeting) {
    match meeting
    case TakeStart => At(s, c, StartSending) && (s.loop == FirstStart || s.loop == Stay)
    case TakeStop => At(s, c, StopSending) && s.loop == Stay
    case SendRunning => At(s, c, StartWaiting) && s.loop.Signal? && s.userTrigger
    case SendStopped => At(s, c, StopWaiting) && s.loop == StoppedSending
  }

  ghost function MeetApply(s: State, c: Id, meeting: Meeting): State
    requires MeetEnabled(s, c, meeting)
  {
    match meeting
    case TakeStart => Move(s, c, StartSent).(loop := Top, userTrigger := s.userTrigger || s.loop == Stay)
    case TakeStop => Move(s, c, StopSent).(loop := StopDrain, userTrigger := true)
    case SendRunning =>
      Move(s, c, SetTo(s.loop.status)).(userTrigger := false, loop := AfterSignal(s.loop.status))
    case SendStopped => Move(s, c, SetTo(Stopped)).(loop := Stay)
  }

  function AfterSignal(status: Status): Loop {
    if status == Running then Stay else Backoff
  }

  ghost predicate LoopEnabled(s: State, step: LoopStep) {
    match step
    case CancelContext => !s.ctxDone
    case FirstCancelled => s.loop == FirstStart && s.ctxDone
    case CheckContext => s.loop == Top
    case SetupFails => s.loop == Setup
    case Spawn => s.loop == Setup
    case TimerFires => s.loop == WaitError
    case EarlyReport(_) => s.loop == WaitError && CanReport(s)
    case WaitCancelled => s.loop == WaitError && s.ctxDone
    case DropRunning => s.loop.Signal? && s.userTrigger && forall c :: !At(s, c, StartWaiting)
    case LoopSets => s.loop.Signal? && !s.userTrigger && s.statusMu == Free
    case BackoffOver => s.loop == Backoff
    case Offers => CanReport(s)
    case TunnelReady => s.loop == Stay && s.runner.offering
    case DrainStop => s.loop == StopDrain && CanReceive(s)
    case LateReport => s.loop == Stay && CanReceive(s)
    case CrashLocks => s.loop == CrashLock && s.loopMu == Free
    case CrashSets => s.loop == CrashSet && s.statusMu == Free
    case CrashUnlocks => s.loop == CrashBackoff
    case StayCancelled => s.loop == Stay && s.ctxDone
    case DrainExit => s.loop == ExitDrain && CanReceive(s)
  }

  ghost function LoopApply(s: State, step: LoopStep): State
    requires LoopEnabled(s, step)
  {
    match step
    case CancelContext => s.(ctxDone := true)
    case FirstCancelled => s.(loop := Exited)
    case CheckContext => s.(loop := if s.ctxDone then Exited else Setup)
    case SetupFails => s.(loop := Signal(Crashed))
    case Spawn =>
      var n := s.runner.current + 1;
      s.(loop := WaitError, runner := Runner(s.runner.alive + {n}, n, false, false))
    case TimerFires => s.(loop := Signal(Running))
    case EarlyReport(failed) =>
      var s' := Received(s);
      s'.(runner := s'.runner.(closed := true), loop := Signal(if failed then Crashed else Running))
    case WaitCancelled => s.(loop := Signal(Crashed))
    case DropRunning => s.(userTrigger := false, loop := AfterSignal(s.loop.status))
    case LoopSets => s.(status := s.loop.status, loop := AfterSignal(s.loop.status))
    case BackoffOver => s.(loop := Top)
    case Offers => s.(runner := s.runner.(offering := true))
    case TunnelReady => s.(runner := s.runner.(offering := false))
    case DrainStop => Received(s).(loop := StoppedSending)
    case LateReport => Received(s).(loop := CrashLock)
    case CrashLocks => s.(loop := CrashSet, loopMu := ByLoop)
    case CrashSets => s.(loop := CrashBackoff, status := Crashed)
    case CrashUnlocks => s.(loop := Top, loopMu := Free)
    case StayCancelled => s.(loop := ExitDrain)
    case DrainExit => Received(s).(loop := if s.runner.closed then Panicked else Exited)
  }

  ghost predicate Enabled(s: State, a: Action) {
    match a
    case CallerAction(c, step) => CallerEnabled(s, c, step)
    case MeetAction(c, meeting) => MeetEnabled(s, c, meeting)
    case LoopAction(step) => LoopEnabled(s, step)
  }

  ghost function Apply(s: State, a: Action): State
    requires Enabled(s, a)
  {
    match a
    case CallerAction(c, step) => CallerApply(s, c, step)
    case MeetAction(c, meeting) => MeetApply(s, c, meeting)
    case LoopAction(step) => LoopApply(s, step)
  }

  // ---------------------------------------------------------------- the invariant

  /** loopMu is held exactly by the goroutine whose position says so. */
  ghost predicate LoopMuAgrees(s: State) {
    && (forall c :: c in s.callers && !s.callers[c].WantLoop? ==> s.loopMu == ByCaller(c))
    && (s.loopMu.ByCaller? ==> s.loopMu.caller in s.callers && !s.callers[s.loopMu.caller].WantLoop?)
    && (s.loopMu == ByLoop <==> s.loop == CrashSet || s.loop == CrashBackoff)
  }

  /** So is statusMu, and the status is still what its holder read. */
  ghost predicate StatusMuAgrees(s: State) {
    && (forall c :: c in s.callers && s.callers[c].Decide? ==>
          s.statusMu == ByCaller(c) && s.callers[c].existing == s.status)
    && (s.statusMu != Free ==>
          s.statusMu.ByCaller? && s.statusMu.caller in s.callers && s.callers[s.statusMu.caller].Decide?)
  }

  /** The loop is between two stays: it may spawn a runner or set the status directly. */
  predicate Active(l: Loop) {
    l == Top || l == Setup || l == WaitError || l.Signal? || l == Backoff
  }

  /** The loop is in the inner select or past it, without having taken a stop. */
  predicate Settled(l: Loop) {
    l == Stay || l == CrashLock || l == ExitDrain || l == Exited || l == Panicked
  }

  /** Which runners may be alive at each position of the loop. */
  ghost predicate RunnersAgree(s: State) {
    && s.runner.alive <= {s.runner.current}
    && (s.runner.closed ==> s.runner.alive == {})
    && (s.runner.offering ==> s.runner.current in s.runner.alive)
    && (s.loop in {FirstStart, Setup, StoppedSending, CrashLock, CrashSet, CrashBackoff, Panicked} ==>
          s.runner.alive == {})
    && (s.loop == Top || s.loop == Backoff || s.loop == Signal(Crashed) ==> s.runner.alive == {} || s.ctxDone)
    && (s.loop == WaitError ==> !s.runner.closed)
    && (s.loop == Panicked ==> s.runner.closed)
    && (s.loop.Signal? ==> s.loop.status == Running || s.loop.status == Crashed)
  }

  /** What the status says about the loop. */
  ghost predicate StatusAgrees(s: State) {
    && s.status != Completed
    && (s.status == Stopped ==> s.runner.alive == {} && (Settled(s.loop) || s.loop == FirstStart || s.loop == CrashSet))
    && (s.status == Stopped && (s.loop == CrashLock || s.loop == CrashSet) ==> s.runner.closed)
    && (s.status == Running ==> Settled(s.loop) || s.loop == CrashSet)
    && (s.status == Stopping ==>
          || s.loop == StopDrain || s.loop == StoppedSending
          || (s.loopMu.ByCaller? && s.loopMu.caller in s.callers
              && var pc := s.callers[s.loopMu.caller]; pc == StopSending || pc == SetTo(Stopped)))
    && (Active(s.loop) ==> s.status == Starting || s.status == Crashed)
    && (s.loop == StopDrain || s.loop == StoppedSending ==> s.status == Stopping)
    && (s.loop == CrashBackoff ==> s.status == Crashed)
    && (s.loop == FirstStart ==> s.userTrigger && (s.status == Stopped || s.status == Starting))
  }

  /** What the position of a caller says about the loop and the status. */
  ghost predicate CallerAgrees(s: State, pc: Caller) {
    match pc
    case WantLoop(_) => true
    case WantStatus(_) => true
    case Decide(_, _) => true
    case StartSending => s.status == Starting && s.runner.alive == {} && (Settled(s.loop) || s.loop == FirstStart)
    case StartSent => Begun(s) && (s.userTrigger ==> s.status == Starting)
    case StartWaiting => Begun(s) && (s.userTrigger ==> s.status == Starting)
    case StopSending => s.status == Stopping && Settled(s.loop)
    case StopSent => s.status == Stopping && (s.loop == StopDrain || s.loop == StoppedSending)
    case StopWaiting => s.status == Stopping && (s.loop == StopDrain || s.loop == StoppedSending)
    case SetTo(status) =>
      && (status == Starting || status == Crashed ==> Begun(s))
      && (status == Running ==> s.status == Starting && Settled(s.loop))
      && (status == Stopping ==> s.status == Stopping && (s.loop == StopDrain || s.loop == StoppedSending))
      && (status == Stopped ==>
            && s.status == Stopping && s.runner.alive == {} && Settled(s.loop)
            && (s.loop == CrashLock ==> s.runner.closed))
      && status != Completed
    case Leaving => true
  }

  /** The loop has taken the start signal of the caller that holds loopMu. */
  ghost predicate Begun(s: State) {
    && (s.status == Starting || s.status == Running || s.status == Crashed)
    && (Active(s.loop) || Settled(s.loop))
  }

  ghost predicate Inv(s: State) {
    && LoopMuAgrees(s)
    && StatusMuAgrees(s)
    && RunnersAgree(s)
    && StatusAgrees(s)
    && forall c :: c in s.callers ==> CallerAgrees(s, s.callers[c])
  }

  lemma InitInv(s: State)
    requires Init(s)
    ensures Inv(s)
  {
  }

  /** A step of a caller moves that caller only, and of loopMu it is the taking or the release. */
  lemma CallerFrame(s: State, c: Id, step: CallerStep)
    requires CallerEnabled(s, c, step)
    ensures var s' := CallerApply(s, c, step);
      && s'.loop == s.loop
      && s'.callers - {c} == s.callers - {c}
      && (step.Return? ==> c !in s'.callers && s'.loopMu == Free)
      && (!step.Return? ==> c in s'.callers && (s'.callers[c].WantLoop? <==> step.Call?))
      && (!step.Return? ==> s'.loopMu == if step.LockLoop? then ByCaller(c) else s.loopMu)
  {
  }

  lemma StepOf(s: State, c: Id, step: CallerStep)
    requires CallerEnabled(s, c, step)
    ensures step.Call? <==> c !in s.callers
    ensures step.LockLoop? ==> c in s.callers && s.callers[c].WantLoop? && s.loopMu == Free
    ensures !step.Call? && !step.LockLoop? ==> c in s.callers && !s.callers[c].WantLoop?
  {
  }

  lemma CallerLoopMuAgrees(s: State, c: Id, step: CallerStep)
    requires LoopMuAgrees(s) && CallerEnabled(s, c, step)
    ensures LoopMuAgrees(CallerApply(s, c, step))
  {
    hide CallerEnabled, CallerApply;
    CallerFrame(s, c, step);
    StepOf(s, c, step);
    var s' := CallerApply(s, c, step);
    forall d | d in s'.callers && d != c
      ensures d in s.callers && s'.callers[d] == s.callers[d]
    {
      assert d in s'.callers - {c};
    }
    forall d | d in s.callers && d != c
      ensures d in s'.callers && s'.callers[d] == s.callers[d]
    {
      assert d in s.callers - {c};
    }
  }

  lemma CallerStatusMuAgrees(s: State, c: Id, step: CallerStep)
    requires StatusMuAgrees(s) && CallerEnabled(s, c, step)
    ensures StatusMuAgrees(CallerApply(s, c, step))
  {
  }

  lemma CallerRunnersAgree(s: State, c: Id, step: CallerStep)
    requires RunnersAgree(s) && CallerEnabled(s, c, step)
    ensures RunnersAgree(CallerApply(s, c, step))
  {
  }

  lemma CallerStatusAgrees(s: State, c: Id, step: CallerStep)
    requires Inv(s) && CallerEnabled(s, c, step)
    ensures StatusAgrees(CallerApply(s, c, step))
  {
  }

  /** While a caller is past the lock of loopMu, every other caller is still waiting for it. */
  lemma OnlyHolderActs(s: State, c: Id, step: CallerStep, d: Id)
    requires LoopMuAgrees(s) && CallerEnabled(s, c, step) && d in s.callers && d != c
    ensures At(CallerApply(s, c, step), d, s.callers[d])
    ensures step.Call? || step.LockLoop? || s.callers[d].WantLoop?
  {
  }

  lemma SwitchCallersAgree(s: State, c: Id, d: Id)
    requires Inv(s) && CallerEnabled(s, c, Switch) && d in s.callers
    ensures CallerAgrees(CallerApply(s, c, Switch), CallerApply(s, c, Switch).callers[d])
  {
    if d != c {
      OnlyHolderActs(s, c, Switch, d);
    }
  }

  lemma CallerCallersAgree(s: State, c: Id, step: CallerStep, d: Id)
    requires Inv(s) && CallerEnabled(s, c, step) && d in CallerApply(s, c, step).callers
    ensures CallerAgrees(CallerApply(s, c, step), CallerApply(s, c, step).callers[d])
  {
    if step.Switch? {
      SwitchCallersAgree(s, c, d);
    } else if d != c {
      OnlyHolderActs(s, c, step, d);
    }
  }

  lemma MeetLoopMuAgrees(s: State, c: Id, meeting: Meeting)
    requires LoopMuAgrees(s) && MeetEnabled(s, c, meeting)
    ensures LoopMuAgrees(MeetApply(s, c, meeting))
  {
  }

  lemma MeetStatusMuAgrees(s: State, c: Id, meeting: Meeting)
    requires StatusMuAgrees(s) && MeetEnabled(s, c, meeting)
    ensures StatusMuAgrees(MeetApply(s, c, meeting))
  {
  }

  lemma MeetRunnersAgree(s: State, c: Id, meeting: Meeting)
    requires Inv(s) && MeetEnabled(s, c, meeting)
    ensures RunnersAgree(MeetApply(s, c, meeting))
  {
  }

  lemma MeetStatusAgrees(s: State, c: Id, meeting: Meeting)
    requires Inv(s) && MeetEnabled(s, c, meeting)
    ensures StatusAgrees(MeetApply(s, c, meeting))
  {
  }

  lemma MeetCallersAgree(s: State, c: Id, meeting: Meeting, d: Id)
    requires Inv(s) && MeetEnabled(s, c, meeting) && d in MeetApply(s, c, meeting).callers
    ensures CallerAgrees(MeetApply(s, c, meeting), MeetApply(s, c, meeting).callers[d])
  {
  }

  lemma LoopLoopMuAgrees(s: State, step: LoopStep)
    requires LoopMuAgrees(s) && LoopEnabled(s, step)
    ensures LoopMuAgrees(LoopApply(s, step))
  {
  }

  lemma LoopStatusMuAgrees(s: State, step: LoopStep)
    requires StatusMuAgrees(s) && LoopEnabled(s, step)
    ensures StatusMuAgrees(LoopApply(s, step))
  {
  }

  lemma LoopRunnersAgree(s: State, step: LoopStep)
    requires RunnersAgree(s) && LoopEnabled(s, step)
    ensures RunnersAgree(LoopApply(s, step))
  {
  }

  lemma LoopStatusAgrees(s: State, step: LoopStep)
    requires Inv(s) && LoopEnabled(s, step)
    ensures StatusAgrees(LoopApply(s, step))
  {
  }

  lemma LoopKeepsCallers(s: State, step: LoopStep)
    requires LoopEnabled(s, step)
    ensures LoopApply(s, step).callers == s.callers
  {
    hide LoopEnabled;
  }

  lemma LoopCallersAgree(s: State, step: LoopStep, d: Id)
    requires Inv(s) && LoopEnabled(s, step) && d in s.callers
    ensures CallerAgrees(LoopApply(s, step), s.callers[d])
  {
    assert CallerAgrees(s, s.callers[d]);
  }

  lemma StepInv(s: State, a: Action)
    requires Inv(s) && Enabled(s, a)
    ensures Inv(Apply(s, a))
  {
    match a
    case CallerAction(c, step) =>
      CallerLoopMuAgrees(s, c, step);
      CallerStatusMuAgrees(s, c, step);
      CallerRunnersAgree(s, c, step);
      CallerStatusAgrees(s, c, step);
      forall d | d in Apply(s, a).callers ensures CallerAgrees(Apply(s, a), Apply(s, a).callers[d]) {
        CallerCallersAgree(s, c, step, d);
      }
    case MeetAction(c, meeting) =>
      MeetLoopMuAgrees(s, c, meeting);
      MeetStatusMuAgrees(s, c, meeting);
      MeetRunnersAgree(s, c, meeting);
      MeetStatusAgrees(s, c, meeting);
      forall d | d in Apply(s, a).callers ensures CallerAgrees(Apply(s, a), Apply(s, a).callers[d]) {
        MeetCallersAgree(s, c, meeting, d);
      }
    case LoopAction(step) =>
      LoopLoopMuAgrees(s, step);
      LoopStatusMuAgrees(s, step);
      LoopRunnersAgree(s, step);
      LoopStatusAgrees(s, step);
      LoopKeepsCallers(s, step);
      forall d | d in s.callers ensures CallerAgrees(Apply(s, a), s.callers[d]) {
        LoopCallersAgree(s, step, d);
      }
  }

  // ---------------------------------------------------------------- runs

  datatype Run = Run(states: seq<State>, acts: seq<Action>)

  ghost predicate Next(s: State, a: Action, s': State) {
    Enabled(s, a) && s' == Apply(s, a)
  }

  /** An interleaving of the loop with any number of callers, from the state NewLoop builds. */
  ghost predicate IsRun(r: Run) {
    && |r.states| == |r.acts| + 1
    && Init(r.states[0])
    && forall i :: 0 <= i < |r.acts| ==> Next(r.states[i], r.acts[i], r.states[i + 1])
  }

  lemma {:induction false} RunInv(r: Run, i: nat)
    requires IsRun(r) && i < |r.states|
    ensures Inv(r.states[i])
  {
    hide Enabled, Apply, Inv;
    if i == 0 {
      InitInv(r.states[0]);
    } else {
      RunInv(r, i - 1);
      assert Next(r.states[i - 1], r.acts[i - 1], r.states[i]);
      StepInv(r.states[i - 1], r.acts[i - 1]);
    }
  }

  /** At most one VPN runner is alive at any time, and none while the status is Stopped. */
  lemma AtMostOneRunner(r: Run, i: nat)
    requires IsRun(r) && i < |r.states|
    ensures |r.states[i].runner.alive| <= 1
    ensures r.states[i].status == Stopped ==> r.states[i].runner.alive == {}
  {
    RunInv(r, i);
    var s := r.states[i];
    assert s.runner.alive == {} || s.runner.alive == {s.runner.current};
  }

  /** The start signal, after which the loop does not drain waitError, is only taken when no
      runner is alive; and a runner is only spawned when none is. */
  lemma StartFindsNoRunner(r: Run, i: nat)
    requires IsRun(r) && i < |r.acts|
    requires r.acts[i] == LoopAction(Spawn) || (r.acts[i].MeetAction? && r.acts[i].meeting == TakeStart)
    ensures r.states[i].runner.alive == {}
  {
    RunInv(r, i);
    assert Next(r.states[i], r.acts[i], r.states[i + 1]);
  }

  /** The step writes this status, be it over the same one. */
  ghost predicate Writes(s: State, a: Action, status: Status)
    requires Enabled(s, a)
  {
    match a
    case CallerAction(c, CallerSets) => s.callers[c].status == status
    case CallerAction(c, Switch) => status == Apply(s, a).status != s.status
    case LoopAction(LoopSets) => status == s.loop.status
    case LoopAction(CrashSets) => status == Crashed
    case _ => false
  }

  lemma WritesAreAll(s: State, a: Action)
    requires Enabled(s, a) && Apply(s, a).status != s.status
    ensures Writes(s, a, Apply(s, a).status)
  {
    match a
    case CallerAction(c, step) => CallerWritesAreAll(s, c, step);
    case MeetAction(_, _) =>
    case LoopAction(step) => LoopWritesAreAll(s, step);
  }

  lemma CallerWritesAreAll(s: State, c: Id, step: CallerStep)
    requires CallerEnabled(s, c, step) && CallerApply(s, c, step).status != s.status
    ensures Writes(s, CallerAction(c, step), CallerApply(s, c, step).status)
  {
  }

  lemma LoopWritesAreAll(s: State, step: LoopStep)
    requires LoopEnabled(s, step) && LoopApply(s, step).status != s.status
    ensures Writes(s, LoopAction(step), LoopApply(s, step).status)
  {
  }

  /** The whole life of the status: what may be written over what. */
  ghost predicate Allowed(before: Status, written: Status) {
    match written
    case Running => before == Starting || before == Crashed
    case Starting => before == Stopped || before == Starting || before == Running || before == Crashed
    case Crashed => before != Stopping && before != Completed
    case Stopping => before == Running || before == Stopping
    case Stopped => before == Stopping
    case Completed => false
  }

  /** Running is never written over Stopped or Stopping, Stopping is only replaced by Stopped or
      itself, and Stopped is only written over Stopping, when no runner is alive. */
  lemma StatusOrder(r: Run, i: nat, written: Status)
    requires IsRun(r) && i < |r.acts|
    requires Enabled(r.states[i], r.acts[i]) && Writes(r.states[i], r.acts[i], written)
    ensures Allowed(r.states[i].status, written)
    ensures written == Stopped ==> r.states[i].runner.alive == {}
  {
    RunInv(r, i);
  }

  // ---------------------------------------------------------------- the drain behind Stopped

  /** The loop has drained its runner for the stop that is being answered. */
  ghost predicate Drained(s: State) {
    s.loop == StoppedSending || (s.loopMu.ByCaller? && At(s, s.loopMu.caller, SetTo(Stopped)))
  }

  lemma DrainedCallerStep(s: State, c: Id, step: CallerStep)
    requires Inv(s) && CallerEnabled(s, c, step) && Drained(CallerApply(s, c, step))
    ensures s.runner.alive == {} && Drained(s)
  {
  }

  lemma DrainedMeeting(s: State, c: Id, meeting: Meeting)
    requires Inv(s) && MeetEnabled(s, c, meeting) && Drained(MeetApply(s, c, meeting))
    ensures MeetApply(s, c, meeting).runner.alive == {} && Drained(s)
  {
  }

  lemma DrainedLoopStep(s: State, step: LoopStep)
    requires Inv(s) && LoopEnabled(s, step) && Drained(LoopApply(s, step))
    ensures LoopApply(s, step).runner.alive == {} && (step == DrainStop || Drained(s))
  {
  }

  lemma DrainedStep(s: State, a: Action)
    requires Inv(s) && Enabled(s, a) && Drained(Apply(s, a))
    ensures Apply(s, a).runner.alive == {}
    ensures a == LoopAction(DrainStop) || Drained(s)
  {
    match a
    case CallerAction(c, step) => DrainedCallerStep(s, c, step);
    case MeetAction(c, meeting) => DrainedMeeting(s, c, meeting);
    case LoopAction(step) => DrainedLoopStep(s, step);
  }

  ghost predicate NoneAlive(r: Run, from: nat, to: nat)
    requires to < |r.states|
  {
    forall k :: from <= k <= to ==> r.states[k].runner.alive == {}
  }

  lemma NotDrainedFirst(s: State)
    requires Init(s)
    ensures !Drained(s)
  {
  }

  lemma {:induction false} DrainedSince(r: Run, i: nat) returns (j: nat)
    requires IsRun(r) && i < |r.states| && Drained(r.states[i])
    ensures j < i && r.acts[j] == LoopAction(DrainStop)
    ensures NoneAlive(r, j + 1, i)
    decreases i
  {
    hide Enabled, Apply, Inv, Drained, Init;
    NotDrainedFirst(r.states[0]);
    RunInv(r, i - 1);
    assert Next(r.states[i - 1], r.acts[i - 1], r.states[i]);
    DrainedStep(r.states[i - 1], r.acts[i - 1]);
    if r.acts[i - 1] == LoopAction(DrainStop) {
      j := i - 1;
    } else {
      j := DrainedSince(r, i - 1);
    }
  }

  /** Stopped is only written after the loop has drained its runner, and no runner has been
      alive at any point since that drain. */
  lemma StoppedOnlyAfterDrain(r: Run, i: nat)
    requires IsRun(r) && i < |r.acts|
    requires Enabled(r.states[i], r.acts[i]) && Writes(r.states[i], r.acts[i], Stopped)
    ensures exists j :: 0 <= j < i && r.acts[j] == LoopAction(DrainStop) && NoneAlive(r, j + 1, i + 1)
  {
    RunInv(r, i);
    assert Next(r.states[i], r.acts[i], r.states[i + 1]);
    var j := DrainedSince(r, i);
    assert r.acts[j] == LoopAction(DrainStop);
  }
}
