/** What the past of a run of the VPN loop tells about its state: when its channel is closed, when a
    stopped loop restarts by itself, and which runners are left behind or unreported. */
module VpnHistory {
  import opened Common
  import opened VpnLoop
  import opened VpnProgress

  // ---------------------------------------------------------------- closed channels

  /** What the runner spawned last has reported within the first 100ms: whether it failed. */
  ghost function Early(acts: seq<Action>): Option<bool> {
    if acts == [] then None
    else
      var n := |acts| - 1;
      match acts[n]
      case LoopAction(Spawn) => None
      case LoopAction(EarlyReport(failed)) => Some(failed)
      case _ => Early(acts[..n])
  }

  predicate Retrying(l: Loop) {
    l == Signal(Crashed) || l == Backoff || l == Top || l == Setup || l == Exited
  }

  ghost predicate EarlyAgrees(s: State, early: Option<bool>) {
    (s.runner.closed <==> early.Some?) && (early == Some(true) ==> Retrying(s.loop))
  }

  lemma EarlyStep(s: State, a: Action, early: Option<bool>)
    requires RunnersAgree(s) && Enabled(s, a) && EarlyAgrees(s, early)
    ensures EarlyAgrees(Apply(s, a), match a
      case LoopAction(Spawn) => None
      case LoopAction(EarlyReport(failed)) => Some(failed)
      case _ => early)
  {
    match a
    case CallerAction(c, step) => CallerKeepsLoop(s, c, step);
    case MeetAction(_, _) =>
    case LoopAction(_) =>
  }

  lemma {:induction false} RunEarly(r: Run, i: nat)
    requires IsRun(r) && i < |r.states|
    ensures EarlyAgrees(r.states[i], Early(r.acts[..i]))
  {
    hide Enabled, Apply, RunnersAgree, EarlyAgrees;
    if i == 0 {
      EarlyAtFirst(r.states[0]);
    } else {
      RunEarly(r, i - 1);
      RunInv(r, i - 1);
      assert Next(r.states[i - 1], r.acts[i - 1], r.states[i]);
      assert r.acts[..i][..i - 1] == r.acts[..i - 1];
      EarlyStep(r.states[i - 1], r.acts[i - 1], Early(r.acts[..i - 1]));
    }
  }

  lemma EarlyAtFirst(s: State)
    requires Init(s)
    ensures EarlyAgrees(s, None)
  {
  }

  /** The waitError that the loop holds has been closed if and only if the runner spawned last
      reported early; and once the loop is past its retries, that report was a success. */
  lemma ClosedExactly(r: Run, i: nat)
    requires IsRun(r) && i < |r.states|
    ensures r.states[i].runner.closed <==> Early(r.acts[..i]).Some?
    ensures !Retrying(r.states[i].loop) ==> (r.states[i].runner.closed <==> Early(r.acts[..i]) == Some(false))
  {
    hide Early;
    RunEarly(r, i);
    EarlyCases(r.states[i], Early(r.acts[..i]));
  }

  lemma EarlyCases(s: State, early: Option<bool>)
    requires EarlyAgrees(s, early)
    ensures !Retrying(s.loop) ==> (s.runner.closed <==> early == Some(false))
  {
    if early.Some? && !early.value {
      assert early == Some(false);
    } else if early.Some? {
      assert early == Some(true);
    }
  }

  lemma PanicStep(s: State, step: LoopStep)
    requires LoopEnabled(s, step) && s.loop != Panicked
    ensures LoopApply(s, step).loop == Panicked <==> step == DrainExit && s.runner.closed
    ensures step == DrainExit ==> s.loop == ExitDrain
  {
  }

  lemma OnlyLoopPanics(s: State, a: Action)
    requires Enabled(s, a) && s.loop != Panicked && !a.LoopAction?
    ensures Apply(s, a).loop != Panicked
  {
  }

  /** The loop closes a closed channel if and only if it leaves for good after a runner that
      reported success early. */
  lemma PanicsExactly(r: Run, i: nat)
    requires IsRun(r) && i < |r.acts| && r.states[i].loop != Panicked
    ensures r.states[i + 1].loop == Panicked <==>
      r.acts[i] == LoopAction(DrainExit) && Early(r.acts[..i]) == Some(false)
  {
    hide Early, LoopEnabled, LoopApply, MeetEnabled, MeetApply, CallerEnabled, CallerApply;
    var s, a := r.states[i], r.acts[i];
    assert Next(s, a, r.states[i + 1]);
    ClosedExactly(r, i);
    if a.LoopAction? {
      PanicStep(s, a.loopStep);
    } else {
      OnlyLoopPanics(s, a);
    }
  }

  // ---------------------------------------------------------------- runners that are left behind

  /** The last of the spawns and of the waits that the context cut short. */
  ghost function LeftBehind(acts: seq<Action>): bool {
    if acts == [] then false
    else
      var n := |acts| - 1;
      match acts[n]
      case LoopAction(Spawn) => false
      case LoopAction(WaitCancelled) => true
      case _ => LeftBehind(acts[..n])
  }

  /** The loop is on its way out without its runner. */
  ghost predicate LeavesRunner(s: State) {
    && s.runner.current in s.runner.alive && s.ctxDone
    && (s.loop == Signal(Crashed) || s.loop == Backoff || s.loop == Top || s.loop == Exited)
  }

  ghost predicate LeftAgrees(s: State, left: bool) {
    if left then LeavesRunner(s)
    else s.loop == Signal(Crashed) || s.loop == Backoff || s.loop == Top || s.loop == Exited ==> s.runner.alive == {}
  }

  ghost function LeftNext(a: Action, left: bool): bool {
    match a
    case LoopAction(Spawn) => false
    case LoopAction(WaitCancelled) => true
    case _ => left
  }

  lemma LeftLoopStep(s: State, step: LoopStep, left: bool)
    requires Inv(s) && Fed(s) && LoopEnabled(s, step) && LeftAgrees(s, left)
    ensures LeftAgrees(LoopApply(s, step), LeftNext(LoopAction(step), left))
  {
  }

  lemma LeftMeeting(s: State, c: Id, meeting: Meeting, left: bool)
    requires Inv(s) && MeetEnabled(s, c, meeting) && LeftAgrees(s, left)
    ensures LeftAgrees(MeetApply(s, c, meeting), left)
  {
    assert CallerAgrees(s, s.callers[c]);
  }

  lemma LeftCallerStep(s: State, c: Id, step: CallerStep, left: bool)
    requires CallerEnabled(s, c, step) && LeftAgrees(s, left)
    ensures LeftAgrees(CallerApply(s, c, step), left)
  {
  }

  lemma {:induction false} RunLeft(r: Run, i: nat)
    requires IsRun(r) && i < |r.states|
    ensures LeftAgrees(r.states[i], LeftBehind(r.acts[..i]))
  {
    hide CallerEnabled, CallerApply, MeetEnabled, MeetApply, LoopEnabled, LoopApply, Inv, Fed, LeftAgrees;
    if i == 0 {
      LeftAtFirst(r.states[0]);
    } else {
      var s, a := r.states[i - 1], r.acts[i - 1];
      RunLeft(r, i - 1);
      RunInv(r, i - 1);
      RunFed(r, i - 1);
      assert Next(s, a, r.states[i]);
      assert r.acts[..i][..i - 1] == r.acts[..i - 1];
      var left := LeftBehind(r.acts[..i - 1]);
      match a
      case CallerAction(c, step) => LeftCallerStep(s, c, step, left);
      case MeetAction(c, meeting) => LeftMeeting(s, c, meeting, left);
      case LoopAction(step) => LeftLoopStep(s, step, left);
    }
  }

  lemma LeftAtFirst(s: State)
    requires Init(s)
    ensures LeftAgrees(s, false)
  {
  }

  /** A loop that has ended has left a runner behind if and only if the context was done while it
      waited for the first error of the runner spawned last. */
  lemma LeftBehindExactly(r: Run)
    requires IsRun(r) && Last(r).loop == Exited
    ensures Last(r).runner.alive != {} <==> LeftBehind(r.acts)
  {
    RunLeft(r, |r.acts|);
    assert r.acts[..|r.acts|] == r.acts;
  }

  lemma StaysLeftByLoop(s: State, step: LoopStep)
    requires LeavesRunner(s) && LoopEnabled(s, step)
    ensures LeavesRunner(LoopApply(s, step)) && LoopApply(s, step).runner.current == s.runner.current
  {
  }

  lemma StaysLeft(s: State, a: Action)
    requires Inv(s) && LeavesRunner(s) && Enabled(s, a)
    ensures LeavesRunner(Apply(s, a)) && Apply(s, a).runner.current == s.runner.current
  {
    hide CallerEnabled, CallerApply, LoopEnabled, LoopApply;
    match a
    case CallerAction(c, step) => CallerKeepsLoop(s, c, step);
    case MeetAction(c, meeting) => LeftMeeting(s, c, meeting, true);
    case LoopAction(step) => StaysLeftByLoop(s, step);
  }

  /** Once that has happened nothing ever drains the runner. */
  lemma NeverDrained(r: Run)
    requires IsRun(r) && LeftBehind(r.acts)
    ensures Last(r).runner.current in Last(r).runner.alive
    ensures !Can(Last(r), Any, (s: State) => Last(r).runner.current !in s.runner.alive)
  {
    RunLeft(r, |r.acts|);
    RunInv(r, |r.acts|);
    assert r.acts[..|r.acts|] == r.acts;
    hide Inv, Can, Enabled, Apply;
    var n := Last(r).runner.current;
    forall s, a | Inv(s) && LeavesRunner(s) && s.runner.current == n && Enabled(s, a)
      ensures LeavesRunner(Apply(s, a)) && Apply(s, a).runner.current == n
    {
      StaysLeft(s, a);
    }
    var kept := (s: State) => LeavesRunner(s) && s.runner.current == n;
    Cannot(Last(r), Any, (s: State) => Last(r).runner.current !in s.runner.alive, kept);
  }

  // ---------------------------------------------------------------- leaving after a stop

  /** A stop has drained the runner spawned last. */
  ghost function StopDrained(acts: seq<Action>): bool {
    if acts == [] then false
    else
      var n := |acts| - 1;
      match acts[n]
      case LoopAction(Spawn) => false
      case LoopAction(DrainStop) => true
      case _ => StopDrained(acts[..n])
  }

  ghost function StopDrainedNext(a: Action, drained: bool): bool {
    match a
    case LoopAction(Spawn) => false
    case LoopAction(DrainStop) => true
    case _ => drained
  }

  ghost predicate DrainAgrees(s: State, drained: bool) {
    s.loop in {WaitError, Signal(Running), Stay, StopDrain, StoppedSending, ExitDrain} ==>
      (s.runner.current in s.runner.alive <==> !drained && !s.runner.closed)
  }

  lemma DrainMeeting(s: State, c: Id, meeting: Meeting, drained: bool)
    requires MeetEnabled(s, c, meeting) && DrainAgrees(s, drained)
    ensures DrainAgrees(MeetApply(s, c, meeting), drained)
  {
  }

  lemma DrainLoopStep(s: State, step: LoopStep, drained: bool)
    requires RunnersAgree(s) && LoopEnabled(s, step) && DrainAgrees(s, drained)
    ensures DrainAgrees(LoopApply(s, step), StopDrainedNext(LoopAction(step), drained))
  {
  }

  lemma DrainStep(s: State, a: Action, drained: bool)
    requires RunnersAgree(s) && Enabled(s, a) && DrainAgrees(s, drained)
    ensures DrainAgrees(Apply(s, a), StopDrainedNext(a, drained))
  {
    hide CallerEnabled, CallerApply, MeetEnabled, MeetApply, LoopEnabled, LoopApply;
    match a
    case CallerAction(c, step) => CallerKeepsLoop(s, c, step);
    case MeetAction(c, meeting) => DrainMeeting(s, c, meeting, drained);
    case LoopAction(step) => DrainLoopStep(s, step, drained);
  }

  lemma {:induction false} RunDrains(r: Run, i: nat)
    requires IsRun(r) && i < |r.states|
    ensures DrainAgrees(r.states[i], StopDrained(r.acts[..i]))
  {
    hide Enabled, Apply, RunnersAgree, DrainAgrees;
    if i == 0 {
      DrainAtFirst(r.states[0]);
    } else {
      RunDrains(r, i - 1);
      RunInv(r, i - 1);
      assert Next(r.states[i - 1], r.acts[i - 1], r.states[i]);
      assert r.acts[..i][..i - 1] == r.acts[..i - 1];
      DrainStep(r.states[i - 1], r.acts[i - 1], StopDrained(r.acts[..i - 1]));
    }
  }

  lemma DrainAtFirst(s: State)
    requires Init(s)
    ensures DrainAgrees(s, false)
  {
  }

  /** The runner spawned last has come to a send on tunnelReady that has not been received. */
  ghost function OfferPending(acts: seq<Action>): bool {
    if acts == [] then false else OfferNext(acts[|acts| - 1], OfferPending(acts[..|acts| - 1]))
  }

  ghost function OfferNext(a: Action, pending: bool): bool {
    match a
    case LoopAction(Spawn) => false
    case LoopAction(TunnelReady) => false
    case LoopAction(Offers) => true
    case _ => pending
  }

  lemma OfferStep(s: State, a: Action)
    requires Enabled(s, a)
    ensures Apply(s, a).runner.offering <==> OfferNext(a, s.runner.offering)
  {
    hide CallerEnabled, CallerApply;
    match a
    case CallerAction(c, step) => CallerKeepsLoop(s, c, step);
    case MeetAction(_, _) =>
    case LoopAction(_) =>
  }

  lemma {:induction false} OfferedExactly(r: Run, i: nat)
    requires IsRun(r) && i < |r.states|
    ensures r.states[i].runner.offering <==> OfferPending(r.acts[..i])
  {
    hide Enabled, Apply;
    if i > 0 {
      OfferedExactly(r, i - 1);
      assert Next(r.states[i - 1], r.acts[i - 1], r.states[i]);
      assert r.acts[..i][..i - 1] == r.acts[..i - 1];
      OfferStep(r.states[i - 1], r.acts[i - 1]);
    }
  }

  /** A loop on its way out never ends if and only if the runner spawned last waits to send on
      tunnelReady, or a stop has drained it and it had not reported success early. */
  lemma ExitNeverEndsExactly(r: Run)
    requires IsRun(r) && Last(r).loop == ExitDrain
    ensures !Can(Last(r), Any, (s: State) => s.loop != Last(r).loop) <==>
      OfferPending(r.acts) || (StopDrained(r.acts) && Early(r.acts) != Some(false))
  {
    hide Can, Early, StopDrained, OfferPending;
    DrainExactly(r);
    RunInv(r, |r.acts|);
    RunDrains(r, |r.acts|);
    ClosedExactly(r, |r.acts|);
    OfferedExactly(r, |r.acts|);
    assert r.acts[..|r.acts|] == r.acts;
  }

  /** A stop that has been taken but not answered never is if and only if that runner waits to send
      on tunnelReady. */
  lemma StopNeverEndsExactly(r: Run)
    requires IsRun(r) && Last(r).loop == StopDrain
    ensures !Can(Last(r), Any, (s: State) => s.loop != Last(r).loop) <==> OfferPending(r.acts)
  {
    hide Can, OfferPending;
    DrainExactly(r);
    RunInv(r, |r.acts|);
    RunFed(r, |r.acts|);
    OfferedExactly(r, |r.acts|);
    assert r.acts[..|r.acts|] == r.acts;
  }

  // ---------------------------------------------------------------- unreported runners

  /** The last word on the runner: its signal of success was received or written, and no caller has
      written what it was to write from before. */
  ghost function Told(r: Run, i: nat): bool
    requires i < |r.states| == |r.acts| + 1
  {
    if i == 0 then false else ToldNext(r.states[i - 1], r.acts[i - 1], Told(r, i - 1))
  }

  ghost function ToldNext(s: State, a: Action, told: bool): bool {
    match a
    case LoopAction(Spawn) => false
    case LoopAction(LoopSets) => s.loop == Signal(Running)
    case MeetAction(_, SendRunning) => s.loop == Signal(Running)
    case CallerAction(c, CallerSets) => told && At(s, c, SetTo(Running))
    case _ => told
  }

  ghost predicate HolderAt(s: State, pc: Caller) {
    s.loopMu.ByCaller? && At(s, s.loopMu.caller, pc)
  }

  /** What a loop in its select with a live runner has told. */
  ghost predicate ToldAgrees(s: State, told: bool) {
    && (s.loop == WaitError || s.loop == Signal(Running) ==> !told)
    && (s.loop == Stay && s.runner.current in s.runner.alive ==>
          if told then s.status == Running || HolderAt(s, SetTo(Running)) || HolderAt(s, StopSending)
          else (s.status == Starting || s.status == Crashed) && !HolderAt(s, SetTo(Running)))
  }

  lemma ToldCallerStep(s: State, c: Id, step: CallerStep, told: bool)
    requires Inv(s) && CallerEnabled(s, c, step) && ToldAgrees(s, told)
    ensures ToldAgrees(CallerApply(s, c, step), ToldNext(s, CallerAction(c, step), told))
  {
    if c in s.callers {
      assert CallerAgrees(s, s.callers[c]);
    }
  }

  lemma ToldMeeting(s: State, c: Id, meeting: Meeting, told: bool)
    requires Inv(s) && MeetEnabled(s, c, meeting) && ToldAgrees(s, told)
    ensures ToldAgrees(MeetApply(s, c, meeting), ToldNext(s, MeetAction(c, meeting), told))
  {
    assert CallerAgrees(s, s.callers[c]);
  }

  lemma ToldLoopStep(s: State, step: LoopStep, told: bool)
    requires Inv(s) && LoopEnabled(s, step) && ToldAgrees(s, told)
    ensures ToldAgrees(LoopApply(s, step), ToldNext(s, LoopAction(step), told))
  {
  }

  lemma ToldAtFirst(s: State)
    requires Init(s)
    ensures ToldAgrees(s, false)
  {
  }

  lemma {:induction false} RunTold(r: Run, i: nat)
    requires IsRun(r) && i < |r.states|
    ensures ToldAgrees(r.states[i], Told(r, i))
  {
    hide CallerEnabled, CallerApply, MeetEnabled, MeetApply, LoopEnabled, LoopApply, Inv, ToldAgrees, ToldNext;
    if i == 0 {
      ToldAtFirst(r.states[0]);
    } else {
      var s, a, told := r.states[i - 1], r.acts[i - 1], Told(r, i - 1);
      RunTold(r, i - 1);
      RunInv(r, i - 1);
      assert Next(s, a, r.states[i]);
      match a
      case CallerAction(c, step) => ToldCallerStep(s, c, step, told);
      case MeetAction(c, meeting) => ToldMeeting(s, c, meeting, told);
      case LoopAction(step) => ToldLoopStep(s, step, told);
    }
  }

  /** Nobody holds a mutex and the loop is in its select with a live runner. */
  ghost predicate QuietlyUp(s: State) {
    s.loop == Stay && s.runner.current in s.runner.alive && s.loopMu == Free && s.statusMu == Free
  }

  /** The status then says Running if and only if the signal of the runner's success has been
      received or written and not been overwritten since by a caller of before. */
  lemma ReportedExactly(r: Run)
    requires IsRun(r) && QuietlyUp(Last(r))
    ensures Last(r).status == Running <==> Told(r, |r.acts|)
  {
    hide Told;
    RunTold(r, |r.acts|);
  }

  /** Steps in which the runner goes on and the loop is not told to end. */
  predicate Undisturbed(a: Action) {
    a != LoopAction(LateReport) && a != LoopAction(CancelContext) && a != LoopAction(StayCancelled)
  }

  /** The loop is in its select and no caller can send: the status is neither Running nor Stopped. */
  ghost predicate Unstoppable(s: State) {
    && s.loop == Stay && (s.status == Starting || s.status == Crashed)
    && forall c :: c in s.callers ==>
         (s.callers[c].WantLoop? || s.callers[c].WantStatus? || s.callers[c].Decide? || s.callers[c].Leaving?)
  }

  lemma OnlySendersMeet(s: State, c: Id, meeting: Meeting)
    requires s.loop == Stay && MeetEnabled(s, c, meeting)
    ensures At(s, c, StartSending) || At(s, c, StopSending)
  {
  }

  lemma UnstoppableCallerStep(s: State, c: Id, step: CallerStep)
    requires StatusMuAgrees(s) && Unstoppable(s) && CallerEnabled(s, c, step)
    ensures Unstoppable(CallerApply(s, c, step))
  {
  }

  lemma UnstoppableForever(s: State, a: Action)
    requires Inv(s) && Unstoppable(s) && Enabled(s, a) && Undisturbed(a)
    ensures Unstoppable(Apply(s, a))
  {
    hide Inv, CallerEnabled, CallerApply, MeetEnabled, MeetApply;
    match a
    case CallerAction(c, step) =>
      StatusMuOf(s);
      UnstoppableCallerStep(s, c, step);
    case MeetAction(c, meeting) => OnlySendersMeet(s, c, meeting);
    case LoopAction(_) =>
  }

  lemma StatusMuOf(s: State)
    requires Inv(s)
    ensures StatusMuAgrees(s)
  {
  }

  /** A VPN that is up can be stopped by a request, without its failing first, if and only if the
      status says Running. */
  lemma StoppableExactly(r: Run)
    requires IsRun(r) && QuietlyUp(Last(r))
    ensures Can(Last(r), Undisturbed, (s: State) => s.status == Stopped) <==> Last(r).status == Running
  {
    var s := Last(r);
    var goal := (t: State) => t.status == Stopped;
    RunInv(r, |r.acts|);
    RunTold(r, |r.acts|);
    if s.status == Running {
      var c := FreshId(s.callers.Keys);
      Receive(s, c, goal);
    } else {
      NobodySends(s, Told(r, |r.acts|));
      hide Inv, Can, Enabled, Apply, Unstoppable, Undisturbed;
      forall t, a | Inv(t) && Unstoppable(t) && Enabled(t, a) && Undisturbed(a)
        ensures Unstoppable(Apply(t, a))
      {
        UnstoppableForever(t, a);
      }
      forall t | Unstoppable(t)
        ensures !goal(t)
      {
        UnstoppableStays(t);
      }
      Cannot(s, Undisturbed, goal, t => Unstoppable(t));
    }
  }

  lemma UnstoppableStays(s: State)
    requires Unstoppable(s)
    ensures s.status != Stopped
  {
  }

  lemma NobodySends(s: State, told: bool)
    requires Inv(s) && QuietlyUp(s) && s.status != Running && ToldAgrees(s, told)
    ensures Unstoppable(s)
  {
  }

  lemma {:induction false} FreshId(ids: set<Id>) returns (c: Id)
    ensures c !in ids && forall d :: d in ids ==> d < c
  {
    c := 0;
    if ids != {} {
      var d :| d in ids;
      c := FreshId(ids - {d});
      assert forall e :: e in ids ==> e == d || e in ids - {d};
      if c <= d {
        c := d + 1;
      }
    }
  }

  /** A runner that waits on tunnelReady is received first. */
  lemma Receive(s: State, c: Id, goal: State -> bool)
    requires QuietlyUp(s) && s.status == Running && c !in s.callers && !s.runner.closed
    requires forall t: State :: t.status == Stopped ==> goal(t)
    ensures Can(s, Undisturbed, goal)
  {
    hide Can;
    if s.runner.offering {
      StopIt(Apply(s, LoopAction(TunnelReady)), c, goal);
      Later(s, LoopAction(TunnelReady), Undisturbed, goal);
    } else {
      StopIt(s, c, goal);
    }
  }

  /** A new caller asks for a stop and gets it taken. */
  lemma StopIt(s: State, c: Id, goal: State -> bool)
    requires QuietlyUp(s) && s.status == Running && c !in s.callers && CanReport(s) && !s.runner.closed
    requires forall t: State :: t.status == Stopped ==> goal(t)
    ensures Can(s, Undisturbed, goal)
  {
    hide Can;
    var a1, a2, a3 := CallerAction(c, Call(Stopped)), CallerAction(c, LockLoop), CallerAction(c, LockStatus);
    var s1 := Apply(s, a1);
    var s2 := Apply(s1, a2);
    TakeIt(Apply(s2, a3), c, goal);
    Later(s2, a3, Undisturbed, goal);
    Later(s1, a2, Undisturbed, goal);
    Later(s, a1, Undisturbed, goal);
  }

  lemma TakeIt(s: State, c: Id, goal: State -> bool)
    requires s.loop == Stay && At(s, c, Decide(Stopped, Running)) && CanReport(s) && !s.runner.closed
    requires forall t: State :: t.status == Stopped ==> goal(t)
    ensures Can(s, Undisturbed, goal)
  {
    hide Can;
    var a, take := CallerAction(c, Switch), MeetAction(c, TakeStop);
    DrainIt(Apply(Apply(s, a), take), c, goal);
    Later(Apply(s, a), take, Undisturbed, goal);
    Later(s, a, Undisturbed, goal);
  }

  lemma DrainIt(s: State, c: Id, goal: State -> bool)
    requires s.loop == StopDrain && At(s, c, StopSent) && CanReport(s) && s.statusMu == Free
    requires forall t: State :: t.status == Stopped ==> goal(t)
    ensures Can(s, Undisturbed, goal)
  {
    hide Can;
    var drain, enter := LoopAction(DrainStop), CallerAction(c, EnterSelect);
    var s1 := Apply(s, drain);
    AnswerIt(Apply(s1, enter), c, goal);
    Later(s1, enter, Undisturbed, goal);
    Later(s, drain, Undisturbed, goal);
  }

  lemma AnswerIt(s: State, c: Id, goal: State -> bool)
    requires s.loop == StoppedSending && At(s, c, StopWaiting) && s.statusMu == Free
    requires forall t: State :: t.status == Stopped ==> goal(t)
    ensures Can(s, Undisturbed, goal)
  {
    hide Can;
    var answer, write := MeetAction(c, SendStopped), CallerAction(c, CallerSets);
    var s1 := Apply(s, answer);
    Now(Apply(s1, write), Undisturbed, goal);
    Later(s1, write, Undisturbed, goal);
    Later(s, answer, Undisturbed, goal);
  }

  // ---------------------------------------------------------------- leaving Stopped

  lemma LeavingByCaller(s: State, c: Id, step: CallerStep)
    requires Inv(s) && CallerEnabled(s, c, step) && s.status == Stopped && CallerApply(s, c, step).status != Stopped
    ensures At(s, c, Decide(Running, Stopped))
  {
    assert CallerAgrees(s, s.callers[c]);
  }

  lemma LeavingByLoop(s: State, step: LoopStep)
    requires StatusAgrees(s) && LoopEnabled(s, step) && s.status == Stopped && LoopApply(s, step).status != Stopped
    ensures step == CrashSets && s.runner.closed
  {
  }

  lemma MeetingKeepsStatus(s: State, c: Id, meeting: Meeting)
    requires MeetEnabled(s, c, meeting)
    ensures MeetApply(s, c, meeting).status == s.status
  {
  }

  /** Stopped is only left by a request for Running, or by the crash branch after the runner
      spawned last reported success early. */
  lemma StoppedUntilAsked(r: Run, i: nat)
    requires IsRun(r) && i < |r.acts| && r.states[i].status == Stopped && r.states[i + 1].status != Stopped
    ensures || (r.acts[i].CallerAction? && At(r.states[i], r.acts[i].c, Decide(Running, Stopped)))
            || (r.acts[i] == LoopAction(CrashSets) && Early(r.acts[..i]) == Some(false))
  {
    hide Early, CallerEnabled, CallerApply, MeetEnabled, MeetApply, LoopEnabled, LoopApply;
    RunInv(r, i);
    var s := r.states[i];
    assert Next(s, r.acts[i], r.states[i + 1]);
    match r.acts[i]
    case CallerAction(c, step) => LeavingByCaller(s, c, step);
    case MeetAction(c, meeting) => MeetingKeepsStatus(s, c, meeting);
    case LoopAction(step) =>
      LeavingByLoop(s, step);
      CrashingIsSettled(s);
      ClosedExactly(r, i);
  }

  lemma CrashingIsSettled(s: State)
    requires LoopEnabled(s, CrashSets)
    ensures !Retrying(s.loop)
  {
  }

  /** The loop, without any caller, has a way from Stopped to the write of Crashed. */
  ghost predicate Restarting(s: State) {
    && s.runner.closed && s.statusMu == Free
    && (s.loop == CrashSet || ((s.loop == Stay || s.loop == CrashLock) && s.loopMu == Free))
  }

  lemma CalmForever(s: State, a: Action)
    requires Inv(s) && s.status == Stopped && !Restarting(s) && Enabled(s, a) && OfLoop(a)
    ensures Apply(s, a).status == Stopped && !Restarting(Apply(s, a))
  {
  }

  /** A stopped loop can leave Stopped by steps of its own if and only if it still selects on a
      closed channel and no caller holds a mutex it needs. */
  lemma LeavesAloneExactly(r: Run)
    requires IsRun(r) && Last(r).status == Stopped
    ensures Can(Last(r), OfLoop, (s: State) => s.status != Stopped) <==> Restarting(Last(r))
  {
    hide Early;
    var s := Last(r);
    var goal := (t: State) => t.status != Stopped;
    RunInv(r, |r.acts|);
    if Restarting(s) {
      LeaveAlone(s);
    } else {
      hide Inv, Can, Enabled, Apply, Restarting;
      forall t, a | Inv(t) && t.status == Stopped && !Restarting(t) && Enabled(t, a) && OfLoop(a)
        ensures Apply(t, a).status == Stopped && !Restarting(Apply(t, a))
      {
        CalmForever(t, a);
      }
      Cannot(s, OfLoop, goal, (t: State) => t.status == Stopped && !Restarting(t));
    }
  }

  /** In the select, with nobody in a call, that is if and only if the runner spawned last had
      reported success early. */
  lemma IdleRestartsExactly(r: Run)
    requires IsRun(r) && Last(r).status == Stopped && Last(r).loop == Stay
    requires Last(r).loopMu == Free && Last(r).statusMu == Free
    ensures Can(Last(r), OfLoop, (s: State) => s.status != Stopped) <==> Early(r.acts) == Some(false)
  {
    hide Early, Can;
    LeavesAloneExactly(r);
    ClosedExactly(r, |r.acts|);
    assert r.acts[..|r.acts|] == r.acts;
  }

  lemma LeaveAlone(s: State)
    requires Restarting(s)
    ensures Can(s, OfLoop, (t: State) => t.status != Stopped)
    decreases if s.loop == Stay then 2 else if s.loop == CrashLock then 1 else 0
  {
    hide Can;
    var goal := (t: State) => t.status != Stopped;
    if s.loop == CrashSet {
      Now(Apply(s, LoopAction(CrashSets)), OfLoop, goal);
      Later(s, LoopAction(CrashSets), OfLoop, goal);
    } else {
      var a := LoopAction(if s.loop == Stay then LateReport else CrashLocks);
      LeaveAlone(Apply(s, a));
      Later(s, a, OfLoop, goal);
    }
  }
}
