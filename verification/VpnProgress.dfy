/** What can still happen in the VPN loop: exactly where the loop and its callers can wait for
    ever, and which requests can be answered. */
module VpnProgress {
  import opened VpnLoop

  // ---------------------------------------------------------------- continuations

  ghost predicate Possible(s: State, acts: seq<Action>)
    decreases |acts|
  {
    acts == [] || (Enabled(s, acts[0]) && Possible(Apply(s, acts[0]), acts[1..]))
  }

  ghost function After(s: State, acts: seq<Action>): State
    requires Possible(s, acts)
    decreases |acts|
  {
    if acts == [] then s else After(Apply(s, acts[0]), acts[1..])
  }

  ghost predicate All(acts: seq<Action>, allowed: Action -> bool) {
    forall k :: 0 <= k < |acts| ==> allowed(acts[k])
  }

  /** Some continuation of allowed steps reaches the goal. */
  ghost predicate Can(s: State, allowed: Action -> bool, goal: State -> bool) {
    exists acts :: Possible(s, acts) && All(acts, allowed) && goal(After(s, acts))
  }

  ghost predicate Keeps(p: State -> bool, allowed: Action -> bool) {
    forall s, a :: Inv(s) && p(s) && Enabled(s, a) && allowed(a) ==> p(Apply(s, a))
  }

  lemma {:induction false} KeptFor(s: State, acts: seq<Action>, allowed: Action -> bool, p: State -> bool)
    requires Inv(s) && p(s) && Keeps(p, allowed) && Possible(s, acts) && All(acts, allowed)
    ensures p(After(s, acts))
    decreases |acts|
  {
    hide Inv, Enabled, Apply;
    if acts != [] {
      StepInv(s, acts[0]);
      KeptFor(Apply(s, acts[0]), acts[1..], allowed, p);
    }
  }

  /** What every allowed step keeps and the goal excludes rules the goal out. */
  lemma Cannot(s: State, allowed: Action -> bool, goal: State -> bool, p: State -> bool)
    requires Inv(s) && p(s) && Keeps(p, allowed) && forall t :: p(t) ==> !goal(t)
    ensures !Can(s, allowed, goal)
  {
    hide Inv, Possible, After, All, Keeps;
    if Can(s, allowed, goal) {
      var acts :| Possible(s, acts) && All(acts, allowed) && goal(After(s, acts));
      KeptFor(s, acts, allowed, p);
      assert false;
    }
  }

  lemma Now(s: State, allowed: Action -> bool, goal: State -> bool)
    requires goal(s)
    ensures Can(s, allowed, goal)
  {
    assert Possible(s, []) && After(s, []) == s;
    assert All([], allowed);
  }

  lemma Later(s: State, a: Action, allowed: Action -> bool, goal: State -> bool)
    requires Enabled(s, a) && allowed(a) && Can(Apply(s, a), allowed, goal)
    ensures Can(s, allowed, goal)
  {
    hide Enabled, Apply;
    var acts :| Possible(Apply(s, a), acts) && All(acts, allowed) && goal(After(Apply(s, a), acts));
    var more := [a] + acts;
    assert more[1..] == acts;
    assert Possible(s, more) && After(s, more) == After(Apply(s, a), acts);
    assert All(more, allowed);
  }

  ghost function Last(r: Run): State
    requires IsRun(r)
  {
    r.states[|r.acts|]
  }

  predicate Any(a: Action) {
    true
  }

  predicate OfLoop(a: Action) {
    a.LoopAction?
  }

  lemma CallerKeepsLoop(s: State, c: Id, step: CallerStep)
    requires CallerEnabled(s, c, step)
    ensures CallerApply(s, c, step).loop == s.loop && CallerApply(s, c, step).runner == s.runner
    ensures CallerApply(s, c, step).ctxDone == s.ctxDone && CallerApply(s, c, step).userTrigger == s.userTrigger
  {
  }

  // ---------------------------------------------------------------- a signal that is sent

  /** The loop waits for loopMu, or has left its select for good. */
  predicate Gone(l: Loop) {
    l == CrashLock || l == ExitDrain || l == Exited || l == Panicked
  }

  /** The caller blocks on a channel that the loop no longer receives from: the loop waits for
      the mutex the caller holds, or has left its select for good. */
  ghost predicate Stuck(s: State, c: Id, pc: Caller) {
    && s.loopMu == ByCaller(c) && At(s, c, pc) && (pc == StartSending || pc == StopSending)
    && Gone(s.loop)
  }

  /** No step leaves such a state. */
  lemma StuckForever(s: State, c: Id, pc: Caller, a: Action)
    requires Inv(s) && Stuck(s, c, pc) && Enabled(s, a)
    ensures Stuck(Apply(s, a), c, pc)
  {
    match a
    case CallerAction(d, step) =>
      if d != c {
        OnlyHolderActs(s, d, step, c);
      }
    case MeetAction(_, _) =>
    case LoopAction(_) =>
  }

  lemma SenderHolds(s: State, c: Id, pc: Caller)
    requires Inv(s) && At(s, c, pc) && (pc == StartSending || pc == StopSending)
    ensures s.loopMu == ByCaller(c)
    ensures Settled(s.loop) || (s.loop == FirstStart && pc == StartSending)
  {
    assert CallerAgrees(s, s.callers[c]);
  }

  lemma StuckIsFinal(s: State, c: Id, pc: Caller, goal: State -> bool)
    requires Inv(s) && Stuck(s, c, pc) && forall t :: Stuck(t, c, pc) ==> !goal(t)
    ensures !Can(s, Any, goal)
  {
    hide Inv, Enabled, Apply, Stuck;
    forall t, a | Inv(t) && Stuck(t, c, pc) && Enabled(t, a)
      ensures Stuck(Apply(t, a), c, pc)
    {
      StuckForever(t, c, pc, a);
    }
    Cannot(s, Any, goal, t => Stuck(t, c, pc));
  }

  /** A stop that has been decided on can still be taken if and only if the loop is in its select. */
  lemma StopTakenExactly(r: Run, c: Id)
    requires IsRun(r) && At(Last(r), c, StopSending)
    ensures Can(Last(r), Any, (s: State) => At(s, c, StopSent)) <==> Last(r).loop == Stay
  {
    var s := Last(r);
    RunInv(r, |r.acts|);
    SenderHolds(s, c, StopSending);
    hide Inv, Can;
    var goal := (t: State) => At(t, c, StopSent);
    if s.loop == Stay {
      Now(Apply(s, MeetAction(c, TakeStop)), Any, goal);
      Later(s, MeetAction(c, TakeStop), Any, goal);
    } else {
      StuckIsFinal(s, c, StopSending, goal);
    }
  }

  /** A start can still be taken if and only if the loop is in its select or before its loop. */
  lemma StartTakenExactly(r: Run, c: Id)
    requires IsRun(r) && At(Last(r), c, StartSending)
    ensures Can(Last(r), Any, (s: State) => At(s, c, StartSent)) <==> Last(r).loop == Stay || Last(r).loop == FirstStart
  {
    var s := Last(r);
    RunInv(r, |r.acts|);
    SenderHolds(s, c, StartSending);
    hide Inv, Can;
    var goal := (t: State) => At(t, c, StartSent);
    if s.loop == Stay || s.loop == FirstStart {
      Now(Apply(s, MeetAction(c, TakeStart)), Any, goal);
      Later(s, MeetAction(c, TakeStart), Any, goal);
    } else {
      StuckIsFinal(s, c, StartSending, goal);
    }
  }

  // ---------------------------------------------------------------- the answer to a stop

  ghost predicate AwaitsStopped(s: State, c: Id) {
    At(s, c, StopSent) || At(s, c, StopWaiting)
  }

  /** The loop offers stopped and nobody will ever take it. */
  ghost predicate Abandoned(s: State) {
    s.loop == StoppedSending && forall c :: !AwaitsStopped(s, c)
  }

  lemma AbandonedCallerStep(s: State, c: Id, step: CallerStep, d: Id)
    requires Inv(s) && s.loop == StoppedSending && CallerEnabled(s, c, step) && !AwaitsStopped(s, d)
    ensures !AwaitsStopped(CallerApply(s, c, step), d)
  {
  }

  lemma OfferIsTaken(s: State, c: Id, meeting: Meeting)
    requires s.loop == StoppedSending && MeetEnabled(s, c, meeting)
    ensures AwaitsStopped(s, c)
  {
  }

  lemma AbandonedLoopStep(s: State, step: LoopStep)
    requires s.loop == StoppedSending && LoopEnabled(s, step)
    ensures LoopApply(s, step).loop == s.loop && LoopApply(s, step).callers == s.callers
  {
  }

  lemma AbandonedForever(s: State, a: Action)
    requires Inv(s) && Abandoned(s) && Enabled(s, a)
    ensures Abandoned(Apply(s, a))
  {
    hide Inv, AwaitsStopped, MeetEnabled, LoopEnabled, LoopApply;
    match a
    case CallerAction(c, step) =>
      forall d
        ensures !AwaitsStopped(Apply(s, a), d)
      {
        AbandonedCallerStep(s, c, step, d);
      }
    case MeetAction(c, meeting) =>
      OfferIsTaken(s, c, meeting);
    case LoopAction(step) =>
      AbandonedLoopStep(s, step);
      forall d
        ensures !AwaitsStopped(Apply(s, a), d)
      {
        SameCallers(s, Apply(s, a), d);
      }
  }

  lemma SameCallers(s: State, s': State, c: Id)
    requires s'.callers == s.callers
    ensures AwaitsStopped(s', c) <==> AwaitsStopped(s, c)
  {
  }

  /** The loop can get past its offer of stopped if and only if a caller still awaits it. */
  lemma StoppedSendingExactly(r: Run)
    requires IsRun(r) && Last(r).loop == StoppedSending
    ensures Can(Last(r), Any, (s: State) => s.loop != StoppedSending) <==> exists c :: AwaitsStopped(Last(r), c)
  {
    var s := Last(r);
    RunInv(r, |r.acts|);
    hide Inv, Can;
    var goal := (t: State) => t.loop != StoppedSending;
    if c :| AwaitsStopped(s, c) {
      AnswerStop(s, c, Any, goal);
    } else {
      forall t, a | Inv(t) && Abandoned(t) && Enabled(t, a)
        ensures Abandoned(Apply(t, a))
      {
        AbandonedForever(t, a);
      }
      Cannot(s, Any, goal, t => Abandoned(t));
    }
  }

  lemma AnswerStop(s: State, c: Id, allowed: Action -> bool, goal: State -> bool)
    requires allowed(CallerAction(c, EnterSelect)) && allowed(MeetAction(c, SendStopped))
    requires s.loop == StoppedSending && AwaitsStopped(s, c)
    requires forall t: State :: t.loop == Stay && At(t, c, SetTo(Stopped)) ==> goal(t)
    ensures Can(s, allowed, goal)
    decreases At(s, c, StopSent)
  {
    hide Can;
    if At(s, c, StopSent) {
      AnswerStop(Apply(s, CallerAction(c, EnterSelect)), c, allowed, goal);
      Later(s, CallerAction(c, EnterSelect), allowed, goal);
    } else {
      Now(Apply(s, MeetAction(c, SendStopped)), allowed, goal);
      Later(s, MeetAction(c, SendStopped), allowed, goal);
    }
  }

  /** The current runner has not reported yet, or its channel is closed. */
  ghost predicate Pending(s: State) {
    s.runner.current in s.runner.alive || s.runner.closed
  }

  /** Where the loop is to drain a runner, that is so. */
  ghost predicate Fed(s: State) {
    && (s.loop == WaitError ==> s.runner.current in s.runner.alive)
    && (s.loop == Signal(Running) || s.loop == StopDrain ==> Pending(s))
    && (s.loop == Stay && !Pending(s) ==>
          || s.status == Stopped
          || (s.loopMu.ByCaller? && (At(s, s.loopMu.caller, SetTo(Stopped)) || At(s, s.loopMu.caller, StartSending))))
  }

  lemma FedCallerStep(s: State, c: Id, step: CallerStep)
    requires Inv(s) && Fed(s) && CallerEnabled(s, c, step)
    ensures Fed(CallerApply(s, c, step))
  {
  }

  lemma FedMeeting(s: State, c: Id, meeting: Meeting)
    requires Inv(s) && Fed(s) && MeetEnabled(s, c, meeting)
    ensures Fed(MeetApply(s, c, meeting))
  {
    assert CallerAgrees(s, s.callers[c]);
  }

  lemma FedLoopStep(s: State, step: LoopStep)
    requires Inv(s) && Fed(s) && LoopEnabled(s, step)
    ensures Fed(LoopApply(s, step))
  {
  }

  lemma {:induction false} RunFed(r: Run, i: nat)
    requires IsRun(r) && i < |r.states|
    ensures Fed(r.states[i])
  {
    hide CallerEnabled, CallerApply, MeetEnabled, MeetApply, LoopEnabled, LoopApply, Inv, Fed;
    if i == 0 {
      FedAtFirst(r.states[0]);
    } else {
      RunFed(r, i - 1);
      RunInv(r, i - 1);
      assert Next(r.states[i - 1], r.acts[i - 1], r.states[i]);
      match r.acts[i - 1]
      case CallerAction(c, step) => FedCallerStep(r.states[i - 1], c, step);
      case MeetAction(c, meeting) => FedMeeting(r.states[i - 1], c, meeting);
      case LoopAction(step) => FedLoopStep(r.states[i - 1], step);
    }
  }

  lemma FedAtFirst(s: State)
    requires Init(s)
    ensures Fed(s)
  {
  }

  ghost predicate KeepsWaiting(a: Action, c: Id) {
    a != CallerAction(c, GiveUp)
  }

  /** The loop waits for a report that cannot come: the runner has been drained before and its
      channel is open, or the runner waits to send on tunnelReady, which is not received here. */
  ghost predicate Starved(s: State) {
    (s.loop == StopDrain || s.loop == ExitDrain) && !CanReceive(s)
  }

  lemma StarvedForever(s: State, a: Action)
    requires Starved(s) && Enabled(s, a)
    ensures Starved(Apply(s, a)) && Apply(s, a).loop == s.loop
  {
    hide CallerEnabled, CallerApply;
    match a
    case CallerAction(c, step) => CallerKeepsLoop(s, c, step);
    case MeetAction(_, _) =>
    case LoopAction(_) =>
  }

  /** A loop that starves stays where it is in every continuation. */
  lemma StarvedIsFinal(s: State, allowed: Action -> bool, goal: State -> bool)
    requires Inv(s) && Starved(s) && forall t: State :: t.loop == s.loop ==> !goal(t)
    ensures !Can(s, allowed, goal)
  {
    hide Inv, Starved, Enabled, Apply;
    forall t, a | Inv(t) && Starved(t) && t.loop == s.loop && Enabled(t, a) && allowed(a)
      ensures Starved(Apply(t, a)) && Apply(t, a).loop == s.loop
    {
      StarvedForever(t, a);
    }
    Cannot(s, allowed, goal, (t: State) => Starved(t) && t.loop == s.loop);
  }

  /** A stop that has been taken can be answered, without its caller giving up, if and only if the
      loop does not wait for a runner that waits to send on tunnelReady. */
  lemma StopAnsweredExactly(r: Run, c: Id)
    requires IsRun(r) && AwaitsStopped(Last(r), c)
    ensures Can(Last(r), a => KeepsWaiting(a, c), (s: State) => At(s, c, SetTo(Stopped)))
       <==> !(Last(r).loop == StopDrain && Last(r).runner.offering)
  {
    var s := Last(r);
    RunInv(r, |r.acts|);
    RunFed(r, |r.acts|);
    var allowed, goal := (a: Action) => KeepsWaiting(a, c), (t: State) => At(t, c, SetTo(Stopped));
    AwaiterOfStop(s, c);
    if s.loop == StoppedSending {
      AnswerStop(s, c, allowed, goal);
    } else if !s.runner.offering {
      AnswerStop(Apply(s, LoopAction(DrainStop)), c, allowed, goal);
      Later(s, LoopAction(DrainStop), allowed, goal);
    } else {
      hide Inv, Fed, Can, Enabled, Apply, AwaitsStopped, Starved;
      forall t, a | Inv(t) && Starved(t) && AwaitsStopped(t, c) && Enabled(t, a) && allowed(a)
        ensures Starved(Apply(t, a)) && AwaitsStopped(Apply(t, a), c)
      {
        StarvedForever(t, a);
        KeepsAwaiting(t, c, a);
      }
      forall t | AwaitsStopped(t, c)
        ensures !goal(t)
      {
        AwaitsNot(t, c);
      }
      Cannot(s, allowed, goal, t => Starved(t) && AwaitsStopped(t, c));
    }
  }

  lemma AwaitsNot(s: State, c: Id)
    requires AwaitsStopped(s, c)
    ensures !At(s, c, SetTo(Stopped))
  {
  }

  lemma AwaiterOfStop(s: State, c: Id)
    requires Inv(s) && Fed(s) && AwaitsStopped(s, c)
    ensures s.loop == StopDrain || s.loop == StoppedSending
    ensures s.loop == StopDrain ==> (Starved(s) <==> s.runner.offering)
  {
    assert CallerAgrees(s, s.callers[c]);
  }

  /** Short of its answer, only giving up takes a caller out of its wait. */
  lemma KeepsAwaiting(s: State, c: Id, a: Action)
    requires Inv(s) && Starved(s) && AwaitsStopped(s, c) && Enabled(s, a) && KeepsWaiting(a, c)
    ensures AwaitsStopped(Apply(s, a), c)
  {
    match a
    case CallerAction(d, step) =>
      if d != c {
        OnlyHolderActs(s, d, step, c);
      }
    case MeetAction(_, _) =>
    case LoopAction(step) => LoopKeepsCallers(s, step);
  }

  predicate NotDrained(a: Action) {
    a != LoopAction(DrainStop) && a != LoopAction(DrainExit)
  }

  ghost predicate Draining(s: State) {
    s.loop == StopDrain || s.loop == ExitDrain
  }

  lemma ClosedNeverStarves(s: State, a: Action)
    requires Draining(s) && s.runner.closed && Enabled(s, a) && NotDrained(a)
    ensures Draining(Apply(s, a)) && Apply(s, a).runner.closed
  {
    hide CallerEnabled, CallerApply;
    match a
    case CallerAction(c, step) => CallerKeepsLoop(s, c, step);
    case MeetAction(_, _) =>
    case LoopAction(_) =>
  }

  /** A drain can come to starve, before anything is received, if and only if the channel is open:
      then the next that the runner does can be to wait on tunnelReady. */
  lemma DrainStarvesExactly(r: Run)
    requires IsRun(r) && Draining(Last(r))
    ensures Can(Last(r), NotDrained, (s: State) => Starved(s)) <==> !Last(r).runner.closed
  {
    var s := Last(r);
    RunInv(r, |r.acts|);
    var goal := (t: State) => Starved(t);
    if s.runner.closed {
      hide Inv, Can, Enabled, Apply, Draining;
      forall t, a | Inv(t) && Draining(t) && t.runner.closed && Enabled(t, a) && NotDrained(a)
        ensures Draining(Apply(t, a)) && Apply(t, a).runner.closed
      {
        ClosedNeverStarves(t, a);
      }
      Cannot(s, NotDrained, goal, (t: State) => Draining(t) && t.runner.closed);
    } else if Starved(s) {
      Now(s, NotDrained, goal);
    } else {
      Now(Apply(s, LoopAction(Offers)), NotDrained, goal);
      Later(s, LoopAction(Offers), NotDrained, goal);
    }
  }

  // ---------------------------------------------------------------- the answer to a start

  ghost predicate AwaitsRunning(s: State, c: Id) {
    At(s, c, StartSent) || At(s, c, StartWaiting)
  }

  /** The loop still owes an answer and is on its way to it. */
  ghost predicate Answering(s: State) {
    && s.userTrigger
    && (s.loop == Setup || s.loop == WaitError || s.loop.Signal?
        || ((s.loop == Top || s.loop == Backoff) && !s.ctxDone))
  }

  ghost predicate Unanswered(s: State, c: Id) {
    s.loopMu == ByCaller(c) && AwaitsRunning(s, c) && !Answering(s)
  }

  lemma UnansweredCallerStep(s: State, c: Id, d: Id, step: CallerStep)
    requires LoopMuAgrees(s) && Unanswered(s, c) && CallerEnabled(s, d, step) && KeepsWaiting(CallerAction(d, step), c)
    ensures Unanswered(CallerApply(s, d, step), c)
  {
    if d != c {
      OnlyHolderActs(s, d, step, c);
    }
  }

  /** While a caller awaits an answer, the loop can only meet a caller by answering. */
  lemma MeetingAnswers(s: State, c: Id, d: Id, meeting: Meeting)
    requires LoopMuAgrees(s) && s.loopMu == ByCaller(c) && AwaitsRunning(s, c) && MeetEnabled(s, d, meeting)
    ensures Answering(s)
  {
  }

  lemma UnansweredLoopStep(s: State, c: Id, step: LoopStep)
    requires Unanswered(s, c) && LoopEnabled(s, step)
    requires Active(s.loop) || Settled(s.loop)
    ensures Unanswered(LoopApply(s, step), c)
  {
  }

  lemma UnansweredForever(s: State, c: Id, a: Action)
    requires Inv(s) && Unanswered(s, c) && Enabled(s, a) && KeepsWaiting(a, c)
    ensures Unanswered(Apply(s, a), c)
  {
    assert CallerAgrees(s, s.callers[c]);
    hide LoopMuAgrees, StatusAgrees, RunnersAgree, StatusMuAgrees;
    match a
    case CallerAction(d, step) => UnansweredCallerStep(s, c, d, step);
    case MeetAction(d, meeting) => MeetingAnswers(s, c, d, meeting);
    case LoopAction(step) => UnansweredLoopStep(s, c, step);
  }

  ghost predicate Answered(s: State, c: Id) {
    At(s, c, SetTo(Running)) || At(s, c, SetTo(Crashed))
  }

  /** The next step towards the answer. */
  ghost function Toward(s: State, c: Id): Action {
    if At(s, c, StartSent) then CallerAction(c, EnterSelect)
    else if s.loop == Backoff then LoopAction(BackoffOver)
    else if s.loop == Top then LoopAction(CheckContext)
    else if s.loop == Setup then LoopAction(Spawn)
    else if s.loop == WaitError then LoopAction(TimerFires)
    else MeetAction(c, SendRunning)
  }

  function Distance(l: Loop): nat {
    if l == Backoff then 5 else if l == Top then 4 else if l == Setup then 3 else if l == WaitError then 2 else 1
  }

  lemma {:induction false} AnswerStart(s: State, c: Id)
    requires AwaitsRunning(s, c) && Answering(s)
    requires s.loop.Signal? ==> s.loop.status == Running || s.loop.status == Crashed
    ensures Can(s, a => KeepsWaiting(a, c), (t: State) => Answered(t, c))
    decreases At(s, c, StartSent), Distance(s.loop)
  {
    hide Can;
    var allowed, goal := (a: Action) => KeepsWaiting(a, c), (t: State) => Answered(t, c);
    var a := Toward(s, c);
    if a.MeetAction? {
      Now(Apply(s, a), allowed, goal);
    } else {
      AnswerStart(Apply(s, a), c);
    }
    Later(s, a, allowed, goal);
  }

  lemma AwaiterHolds(s: State, c: Id)
    requires Inv(s) && AwaitsRunning(s, c)
    ensures s.loopMu == ByCaller(c)
    ensures s.loop.Signal? ==> s.loop.status == Running || s.loop.status == Crashed
  {
  }

  /** A caller whose start has been taken can still be answered if and only if the loop has not
      used up its trigger and has not left for good: the answer is dropped when the caller is not
      in its select yet. */
  lemma StartAnsweredExactly(r: Run, c: Id)
    requires IsRun(r) && AwaitsRunning(Last(r), c)
    ensures Can(Last(r), a => KeepsWaiting(a, c), (s: State) => Answered(s, c)) <==> Answering(Last(r))
  {
    var s := Last(r);
    RunInv(r, |r.acts|);
    AwaiterHolds(s, c);
    if Answering(s) {
      AnswerStart(s, c);
    } else {
      hide Inv, Can, Enabled, Apply;
      var allowed, goal := (a: Action) => KeepsWaiting(a, c), (t: State) => Answered(t, c);
      forall t, a | Inv(t) && Unanswered(t, c) && Enabled(t, a) && KeepsWaiting(a, c)
        ensures Unanswered(Apply(t, a), c)
      {
        UnansweredForever(t, c, a);
      }
      Cannot(s, allowed, goal, t => Unanswered(t, c));
    }
  }

  // ---------------------------------------------------------------- where the loop itself blocks

  /** The loop can get past the drain of a runner, for a stop or on its way out, if and only if the
      runner can report or its channel is closed. */
  lemma DrainExactly(r: Run)
    requires IsRun(r) && Draining(Last(r))
    ensures Can(Last(r), Any, (s: State) => s.loop != Last(r).loop) <==> CanReceive(Last(r))
  {
    var s := Last(r);
    RunInv(r, |r.acts|);
    hide Inv, Can;
    var goal := (t: State) => t.loop != Last(r).loop;
    if CanReceive(s) {
      var a := LoopAction(if s.loop == StopDrain then DrainStop else DrainExit);
      Now(Apply(s, a), Any, goal);
      Later(s, a, Any, goal);
    } else {
      StarvedIsFinal(s, Any, goal);
    }
  }

  /** The switch of ApplyStatus will send. */
  predicate Sends(req: Status, existing: Status) {
    (req == Running && (existing == Stopped || existing == Completed)) || (req == Stopped && existing == Running)
  }

  /** The caller holds loopMu and sends a signal or is bound to. */
  ghost predicate BoundToSend(s: State, c: Id) {
    && s.loopMu == ByCaller(c) && c in s.callers
    && match s.callers[c]
       case WantStatus(req) => Sends(req, s.status)
       case Decide(req, existing) => Sends(req, existing)
       case StartSending => true
       case StopSending => true
       case _ => false
  }

  /** The holder of loopMu will never release it. */
  ghost predicate Doomed(s: State) {
    Gone(s.loop) && exists c :: BoundToSend(s, c)
  }

  lemma BoundCallerStep(s: State, c: Id, d: Id, step: CallerStep)
    requires LoopMuAgrees(s) && StatusMuAgrees(s) && CallerEnabled(s, d, step)
    requires Gone(s.loop) && BoundToSend(s, c)
    ensures BoundToSend(CallerApply(s, d, step), c)
  {
    if d != c {
      OnlyHolderActs(s, d, step, c);
    }
  }

  lemma BoundLoopStep(s: State, c: Id, step: LoopStep)
    requires Gone(s.loop) && BoundToSend(s, c) && LoopEnabled(s, step)
    ensures Gone(LoopApply(s, step).loop) && BoundToSend(LoopApply(s, step), c)
    ensures s.loop == CrashLock ==> LoopApply(s, step).loop == CrashLock
  {
  }

  lemma DoomedForever(s: State, a: Action)
    requires Inv(s) && Doomed(s) && Enabled(s, a)
    ensures Doomed(Apply(s, a)) && (s.loop == CrashLock ==> Apply(s, a).loop == CrashLock)
  {
    hide BoundToSend, LoopMuAgrees, StatusMuAgrees, RunnersAgree, StatusAgrees, CallerAgrees;
    var c :| BoundToSend(s, c);
    match a
    case CallerAction(d, step) =>
      BoundCallerStep(s, c, d, step);
      CallerKeepsLoop(s, d, step);
    case MeetAction(_, _) =>
    case LoopAction(step) =>
      BoundLoopStep(s, c, step);
  }

  /** The next step of the holder of loopMu towards its release. */
  ghost function TowardsRelease(pc: Caller): CallerStep {
    match pc
    case WantStatus(_) => LockStatus
    case Decide(_, _) => Switch
    case StartSent => EnterSelect
    case StartWaiting => GiveUp
    case SetTo(_) => CallerSets
    case _ => Return
  }

  function StepsToRelease(pc: Caller): nat {
    match pc
    case WantStatus(_) => 3
    case Decide(_, _) => 2
    case StartSent => 4
    case StartWaiting => 3
    case SetTo(_) => 2
    case _ => 1
  }

  ghost function HolderSteps(s: State): nat {
    if s.loopMu.ByCaller? && s.loopMu.caller in s.callers then StepsToRelease(s.callers[s.loopMu.caller]) else 0
  }

  lemma ReleaseStep(s: State, c: Id)
    requires Inv(s) && s.loop == CrashLock && s.loopMu == ByCaller(c) && !BoundToSend(s, c)
    ensures c in s.callers && CallerEnabled(s, c, TowardsRelease(s.callers[c]))
    ensures var s' := CallerApply(s, c, TowardsRelease(s.callers[c]));
      && s'.loop == CrashLock
      && (s'.loopMu == Free || (s'.loopMu == ByCaller(c) && !BoundToSend(s', c) && c in s'.callers
                                && StepsToRelease(s'.callers[c]) < StepsToRelease(s.callers[c])))
  {
    assert CallerAgrees(s, s.callers[c]);
  }

  lemma ReleaseAndLock(s: State, goal: State -> bool)
    requires Inv(s) && s.loop == CrashLock && !Doomed(s)
    requires forall t: State :: t.loop == CrashSet ==> goal(t)
    ensures Can(s, Any, goal)
    decreases HolderSteps(s)
  {
    hide Can;
    if s.loopMu == Free {
      Now(Apply(s, LoopAction(CrashLocks)), Any, goal);
      Later(s, LoopAction(CrashLocks), Any, goal);
    } else {
      var c := s.loopMu.caller;
      ReleaseStep(s, c);
      var a := CallerAction(c, TowardsRelease(s.callers[c]));
      StepInv(s, a);
      ReleaseAndLock(Apply(s, a), goal);
      Later(s, a, Any, goal);
    }
  }

  /** The crash branch can get past its lock if and only if the holder of loopMu neither sends a
      signal nor is bound to. */
  lemma CrashLockExactly(r: Run)
    requires IsRun(r) && Last(r).loop == CrashLock
    ensures Can(Last(r), Any, (s: State) => s.loop != CrashLock) <==> !exists c :: BoundToSend(Last(r), c)
  {
    var s := Last(r);
    RunInv(r, |r.acts|);
    hide Inv, Can;
    var goal := (t: State) => t.loop != CrashLock;
    if Doomed(s) {
      forall t, a | Inv(t) && t.loop == CrashLock && Doomed(t) && Enabled(t, a)
        ensures Apply(t, a).loop == CrashLock && Doomed(Apply(t, a))
      {
        DoomedForever(t, a);
      }
      Cannot(s, Any, goal, (t: State) => t.loop == CrashLock && Doomed(t));
    } else {
      ReleaseAndLock(s, goal);
    }
  }

  /** The loop waits for ever, or has ended. */
  ghost predicate LoopBlocked(s: State) {
    || s.loop == Exited || s.loop == Panicked
    || Starved(s)
    || (s.loop == StoppedSending && forall c :: !AwaitsStopped(s, c))
    || (s.loop == CrashLock && Doomed(s))
  }

  /** The step of the loop alone that leaves a position where it cannot block. */
  ghost function Onwards(s: State): LoopStep {
    match s.loop
    case FirstStart => FirstCancelled
    case Top => CheckContext
    case Setup => SetupFails
    case WaitError => TimerFires
    case Signal(_) => LoopSets
    case Backoff => BackoffOver
    case CrashSet => CrashSets
    case CrashBackoff => CrashUnlocks
    case _ => StayCancelled
  }

  lemma OnwardsLeaves(s: State)
    requires Inv(s) && Fed(s) && s.statusMu == Free
    requires s.loop !in {CrashLock, StopDrain, ExitDrain, StoppedSending, Exited, Panicked}
    requires s.loop == FirstStart || s.loop == Stay ==> s.ctxDone
    requires s.loop.Signal? ==> !s.userTrigger
    ensures LoopEnabled(s, Onwards(s)) && LoopApply(s, Onwards(s)).loop != s.loop
  {
  }

  lemma EndIsFinal(s: State, a: Action)
    requires Enabled(s, a) && (s.loop == Exited || s.loop == Panicked)
    ensures Apply(s, a).loop == s.loop
  {
    hide CallerEnabled, CallerApply;
    match a
    case CallerAction(c, step) => CallerKeepsLoop(s, c, step);
    case MeetAction(_, _) =>
    case LoopAction(_) =>
  }

  lemma BlockedForever(s: State, a: Action)
    requires Inv(s) && LoopBlocked(s) && Enabled(s, a)
    ensures LoopBlocked(Apply(s, a)) && Apply(s, a).loop == s.loop
  {
    hide Inv, Enabled, Apply, AwaitsStopped, BoundToSend, CanReceive;
    if s.loop == ExitDrain || s.loop == StopDrain {
      StarvedForever(s, a);
    } else if s.loop == StoppedSending {
      AbandonedForever(s, a);
    } else if s.loop == CrashLock {
      DoomedForever(s, a);
    } else {
      EndIsFinal(s, a);
    }
  }

  lemma StatusMuHolder(s: State) returns (c: Id)
    requires Inv(s) && s.statusMu != Free
    ensures CallerEnabled(s, c, Switch) && CallerApply(s, c, Switch).statusMu == Free
    ensures CallerApply(s, c, Switch).ctxDone == s.ctxDone && CallerApply(s, c, Switch).loop == s.loop
  {
    c := s.statusMu.caller;
  }

  lemma MoveOn(s: State, goal: State -> bool)
    requires Inv(s) && Fed(s) && s.loop !in {CrashLock, StopDrain, ExitDrain, StoppedSending, Exited, Panicked}
    requires forall t: State :: t.loop != s.loop ==> goal(t)
    ensures Can(s, Any, goal)
    decreases s.statusMu != Free, !s.ctxDone
  {
    hide Inv, Fed, Can, CallerEnabled, CallerApply;
    var a: Action;
    if s.statusMu != Free {
      var c := StatusMuHolder(s);
      a := CallerAction(c, Switch);
      StepInv(s, a);
      FedCallerStep(s, c, Switch);
      MoveOn(Apply(s, a), goal);
    } else if (s.loop == FirstStart || s.loop == Stay) && !s.ctxDone {
      a := LoopAction(CancelContext);
      StepInv(s, a);
      FedLoopStep(s, CancelContext);
      MoveOn(Apply(s, a), goal);
    } else if s.loop.Signal? && s.userTrigger {
      a := LoopAction(DropRunning);
      if c :| At(s, c, StartWaiting) {
        a := MeetAction(c, SendRunning);
      }
      Now(Apply(s, a), Any, goal);
    } else {
      OnwardsLeaves(s);
      a := LoopAction(Onwards(s));
      Now(Apply(s, a), Any, goal);
    }
    Later(s, a, Any, goal);
  }

  lemma Unblocked(s: State, goal: State -> bool)
    requires Inv(s) && Fed(s) && !LoopBlocked(s)
    requires forall t: State :: t.loop != s.loop ==> goal(t)
    ensures Can(s, Any, goal)
  {
    hide Inv, Fed, Can, BoundToSend;
    if Draining(s) {
      var a := LoopAction(if s.loop == StopDrain then DrainStop else DrainExit);
      Now(Apply(s, a), Any, goal);
      Later(s, a, Any, goal);
    } else if s.loop == StoppedSending {
      var c :| AwaitsStopped(s, c);
      AnswerStop(s, c, Any, goal);
    } else if s.loop == CrashLock {
      ReleaseAndLock(s, goal);
    } else {
      MoveOn(s, goal);
    }
  }

  /** Everywhere: some continuation takes the loop on from where it is if and only if it has not
      ended and is not at one of the four places where it can wait for ever. */
  lemma LoopMovesExactly(r: Run)
    requires IsRun(r)
    ensures Can(Last(r), Any, (s: State) => s.loop != Last(r).loop) <==> !LoopBlocked(Last(r))
  {
    var s := Last(r);
    RunInv(r, |r.acts|);
    RunFed(r, |r.acts|);
    hide Inv, Fed, Can, LoopBlocked, Enabled, Apply;
    var goal := (t: State) => t.loop != Last(r).loop;
    if LoopBlocked(s) {
      forall t, a | Inv(t) && LoopBlocked(t) && t.loop == s.loop && Enabled(t, a)
        ensures LoopBlocked(Apply(t, a)) && Apply(t, a).loop == s.loop
      {
        BlockedForever(t, a);
      }
      Cannot(s, Any, goal, (t: State) => LoopBlocked(t) && t.loop == s.loop);
    } else {
      Unblocked(s, goal);
    }
  }

  // ---------------------------------------------------------------- where a caller blocks

  /** The caller sends a signal to a loop that no longer receives, or waits behind one that does or
      is bound to. */
  ghost predicate CallerBlocked(s: State, c: Id)
    requires c in s.callers
  {
    match s.callers[c]
    case StartSending => Gone(s.loop)
    case StopSending => Gone(s.loop)
    case WantLoop(_) => Doomed(s)
    case _ => false
  }

  /** The next step towards the release of loopMu, be it of its holder, of the loop or of both. */
  ghost function Releasing(s: State): Action
    requires s.loopMu != Free
  {
    if s.loopMu == ByLoop then
      LoopAction(if s.loop == CrashSet then CrashSets else CrashUnlocks)
    else
      var c := s.loopMu.caller;
      if c !in s.callers then LoopAction(CancelContext) else
      match s.callers[c]
      case WantStatus(_) => CallerAction(c, LockStatus)
      case Decide(_, _) => CallerAction(c, Switch)
      case StartSending => MeetAction(c, TakeStart)
      case StopSending => MeetAction(c, TakeStop)
      case StartSent => CallerAction(c, EnterSelect)
      case StopSent => CallerAction(c, EnterSelect)
      case StartWaiting => CallerAction(c, GiveUp)
      case StopWaiting => CallerAction(c, GiveUp)
      case SetTo(_) => CallerAction(c, CallerSets)
      case _ => CallerAction(c, Return)
  }

  function CallerRank(pc: Caller): nat {
    match pc
    case WantStatus(_) => 7
    case Decide(_, _) => 6
    case StartSending => 5
    case StopSending => 5
    case StartSent => 4
    case StopSent => 4
    case StartWaiting => 3
    case StopWaiting => 3
    case SetTo(_) => 2
    case _ => 1
  }

  ghost function Rank(s: State): nat {
    if s.loopMu == Free then 0
    else if s.loopMu == ByLoop then (if s.loop == CrashSet then 2 else 1)
    else if s.loopMu.caller in s.callers then CallerRank(s.callers[s.loopMu.caller]) else 0
  }

  lemma ReleasingEnabled(s: State)
    requires Inv(s) && !Doomed(s) && s.loopMu != Free
    ensures Enabled(s, Releasing(s)) && LoopMuAgrees(s)
  {
    if s.loopMu.ByCaller? {
      var c := s.loopMu.caller;
      assert !Gone(s.loop) || !BoundToSend(s, c);
      assert CallerAgrees(s, s.callers[c]);
    }
  }

  lemma RankDropsByCaller(s: State, c: Id, step: CallerStep)
    requires LoopMuAgrees(s) && s.loopMu == ByCaller(c) && CallerEnabled(s, c, step)
    requires Releasing(s) == CallerAction(c, step)
    ensures Rank(CallerApply(s, c, step)) < Rank(s)
  {
  }

  lemma RankDropsByMeeting(s: State, c: Id, meeting: Meeting, d: Id)
    requires LoopMuAgrees(s) && s.loopMu == ByCaller(c) && MeetEnabled(s, c, meeting)
    requires Releasing(s) == MeetAction(c, meeting)
    ensures Rank(MeetApply(s, c, meeting)) < Rank(s)
    ensures d != c ==> forall pc :: At(s, d, pc) ==> At(MeetApply(s, c, meeting), d, pc)
  {
  }

  lemma RankDropsByLoop(s: State, step: LoopStep)
    requires LoopMuAgrees(s) && s.loopMu == ByLoop && LoopEnabled(s, step) && Releasing(s) == LoopAction(step)
    ensures Rank(LoopApply(s, step)) < Rank(s)
  {
  }

  lemma ReleasingStep(s: State, c: Id, req: Status)
    requires LoopMuAgrees(s) && s.loopMu != Free && At(s, c, WantLoop(req)) && Enabled(s, Releasing(s))
    ensures Rank(Apply(s, Releasing(s))) < Rank(s)
    ensures At(Apply(s, Releasing(s)), c, WantLoop(req))
  {
    hide Rank, CallerEnabled, CallerApply, MeetEnabled, MeetApply, LoopEnabled, LoopApply;
    match Releasing(s)
    case CallerAction(d, step) =>
      RankDropsByCaller(s, d, step);
      OnlyHolderActs(s, d, step, c);
    case MeetAction(d, meeting) =>
      RankDropsByMeeting(s, d, meeting, c);
    case LoopAction(step) =>
      RankDropsByLoop(s, step);
      LoopKeepsCallers(s, step);
  }

  lemma StaysFreeOfCaller(s: State, c: Id, step: CallerStep, d: Id)
    requires LoopMuAgrees(s) && s.loopMu == ByCaller(c) && CallerEnabled(s, c, step) && !BoundToSend(s, c)
    ensures !BoundToSend(CallerApply(s, c, step), d)
  {
  }

  lemma StaysFreeOfLoop(s: State, step: LoopStep, d: Id)
    requires s.loopMu == ByLoop && LoopEnabled(s, step)
    ensures !BoundToSend(LoopApply(s, step), d)
  {
  }

  lemma StaysFree(s: State)
    requires Inv(s) && !Doomed(s) && s.loopMu != Free && Enabled(s, Releasing(s))
    ensures !Doomed(Apply(s, Releasing(s)))
  {
    hide StatusAgrees, RunnersAgree, CallerAgrees, BoundToSend, CallerEnabled, CallerApply, LoopEnabled, LoopApply;
    match Releasing(s)
    case CallerAction(c, step) =>
      CallerKeepsLoop(s, c, step);
      if Gone(s.loop) {
        forall d
          ensures !BoundToSend(CallerApply(s, c, step), d)
        {
          StaysFreeOfCaller(s, c, step, d);
        }
      }
    case MeetAction(_, _) =>
    case LoopAction(step) =>
      forall d
        ensures !BoundToSend(LoopApply(s, step), d)
      {
        StaysFreeOfLoop(s, step, d);
      }
  }

  lemma Acquire(s: State, c: Id, req: Status, goal: State -> bool)
    requires Inv(s) && !Doomed(s) && At(s, c, WantLoop(req))
    requires forall t: State :: At(t, c, WantStatus(req)) ==> goal(t)
    ensures Can(s, Any, goal)
    decreases Rank(s), s.loopMu != Free
  {
    hide Inv, Can, Doomed, Rank, Releasing, CallerEnabled, CallerApply;
    var a := CallerAction(c, LockLoop);
    if s.loopMu == Free {
      LockIsFree(s, c, req);
      Now(Apply(s, a), Any, goal);
    } else {
      a := Releasing(s);
      ReleasingEnabled(s);
      ReleasingStep(s, c, req);
      StaysFree(s);
      StepInv(s, a);
      Acquire(Apply(s, a), c, req, goal);
    }
    Later(s, a, Any, goal);
  }

  lemma LockIsFree(s: State, c: Id, req: Status)
    requires At(s, c, WantLoop(req)) && s.loopMu == Free
    ensures CallerEnabled(s, c, LockLoop) && At(CallerApply(s, c, LockLoop), c, WantStatus(req))
  {
  }

  /** Where a caller that is not blocked can go. */
  lemma CallerMovesOn(s: State, c: Id, goal: State -> bool)
    requires Inv(s) && c in s.callers && !CallerBlocked(s, c)
    requires forall t: State :: !At(t, c, s.callers[c]) ==> goal(t)
    ensures Can(s, Any, goal)
  {
    hide Can, Doomed;
    if s.callers[c].WantLoop? {
      hide Inv;
      Acquire(s, c, s.callers[c].req, goal);
    } else {
      HolderMoves(s, c);
      hide Inv;
      Now(Apply(s, Releasing(s)), Any, goal);
      Later(s, Releasing(s), Any, goal);
    }
  }

  lemma HolderMoves(s: State, c: Id)
    requires Inv(s) && c in s.callers && !s.callers[c].WantLoop? && !CallerBlocked(s, c)
    ensures s.loopMu == ByCaller(c) && Enabled(s, Releasing(s)) && !At(Apply(s, Releasing(s)), c, s.callers[c])
  {
    assert CallerAgrees(s, s.callers[c]);
  }

  lemma CallerBlockedForever(s: State, c: Id, a: Action)
    requires Inv(s) && c in s.callers && CallerBlocked(s, c) && Enabled(s, a)
    ensures At(Apply(s, a), c, s.callers[c]) && CallerBlocked(Apply(s, a), c)
  {
    if s.callers[c].WantLoop? {
      hide StatusAgrees, RunnersAgree, CallerAgrees;
      DoomedForever(s, a);
      StillWaits(s, c, a);
    } else {
      SenderHolds(s, c, s.callers[c]);
      StuckForever(s, c, s.callers[c], a);
    }
  }

  lemma StillWaits(s: State, c: Id, a: Action)
    requires LoopMuAgrees(s) && c in s.callers && s.callers[c].WantLoop? && Doomed(s) && Enabled(s, a)
    ensures At(Apply(s, a), c, s.callers[c])
  {
  }

  /** Every caller: some continuation takes it on from where it is if and only if it neither sends to
      a loop that no longer receives nor waits behind a caller that does or is bound to. */
  lemma CallerMovesExactly(r: Run, c: Id)
    requires IsRun(r) && c in Last(r).callers
    ensures Can(Last(r), Any, (s: State) => !At(s, c, Last(r).callers[c])) <==> !CallerBlocked(Last(r), c)
  {
    var s := Last(r);
    var pc := s.callers[c];
    RunInv(r, |r.acts|);
    hide Inv, Can, CallerBlocked, Enabled, Apply;
    var goal := (t: State) => !At(t, c, Last(r).callers[c]);
    if CallerBlocked(s, c) {
      forall t, a | Inv(t) && At(t, c, pc) && CallerBlocked(t, c) && Enabled(t, a)
        ensures At(Apply(t, a), c, pc) && CallerBlocked(Apply(t, a), c)
      {
        CallerBlockedForever(t, c, a);
      }
      Cannot(s, Any, goal, (t: State) => At(t, c, pc) && CallerBlocked(t, c));
    } else {
      CallerMovesOn(s, c, goal);
    }
  }
}
