/** When UT_ControlPlane_Stop returns: exactly when its EXIT found room in the queue. */
module ControlPlaneStop {
  import opened Wrappers
  import opened MessageQueue
  import opened Callbacks
  import opened ControlPlane
  import opened ControlPlaneInvariants
  import opened ControlPlaneRuns
  import opened ControlPlaneShutdown
  import opened ControlPlaneProgress

  /** The application is back from Stop: it has joined the thread and cleared the handle. */
  predicate Returned(s: State) {
    s.app.Idle? && !s.handle
  }

  ghost predicate CanReturn(s: State) {
    exists steps :: CanRun(s, steps) && Returned(Run(s, steps))
  }

  // ---------- the two joins ----------

  /** Stop returns only when the state machine thread has ended, and that thread ends only after an EXIT was handled
      and the web service thread has ended. */
  lemma StopJoinsBothThreads(s: State, step: Step)
    requires Inv(s) && Enabled(s, step)
    ensures StopWaits(s) && !StopWaits(Do(s, step)) ==>
              Returned(Do(s, step)) && s.machine.Ended? && s.ws.NoWs? && s.exitRequest
    ensures !s.machine.Ended? && Do(s, step).machine.Ended? ==> s.ws.WsEnded? && s.exitRequest
  {
    hide MachineDo, CallDo;
    match step
    case ByMachine(m) => MachineKeepsApp(s, m);
    case ByCaller(t, c) => CallKeepsWaiting(s, t, c);
    case ByWs(_) =>
    case ByApp(_) =>
    case SpuriousWakeup =>
  }

  lemma MachineKeepsApp(s: State, step: MachineStep)
    requires ThreadsOk(s) && MachineEnabled(s, step)
    ensures MachineDo(s, step).app == s.app
    ensures !s.machine.Ended? && MachineDo(s, step).machine.Ended? ==> s.ws.WsEnded? && s.exitRequest
  {
  }

  lemma CallKeepsWaiting(s: State, t: Thread, step: CallStep)
    requires CallEnabled(s, t, step)
    ensures StopWaits(s) ==> StopWaits(CallDo(s, t, step))
    ensures CallDo(s, t, step).machine.Ended? <==> s.machine.Ended?
  {
  }

  // ---------- without an EXIT ----------

  lemma HangMachine(s: State, step: MachineStep)
    requires Inv(s) && !ExitAccepted(s) && MachineEnabled(s, step)
    ensures !ExitAccepted(MachineDo(s, step)) && MachineDo(s, step).app == s.app
  {
  }

  lemma HangCall(s: State, t: Thread, step: CallStep)
    requires Inv(s) && !ExitAccepted(s) && StopWaits(s) && CallEnabled(s, t, step)
    ensures !ExitAccepted(CallDo(s, t, step)) && StopWaits(CallDo(s, t, step))
  {
    if step.StoreCall? {
      assert t == Ws;
      FirstExitConcat(s.queue, [s.ws.call.message]);
    }
  }

  lemma HangStep(s: State, step: Step)
    requires Inv(s) && !ExitAccepted(s) && StopWaits(s) && Enabled(s, step)
    ensures !ExitAccepted(Do(s, step)) && StopWaits(Do(s, step))
  {
    match step
    case ByMachine(m) => HangMachine(s, m);
    case ByCaller(t, c) => HangCall(s, t, c);
    case ByWs(w) =>
    case ByApp(a) =>
    case SpuriousWakeup =>
  }

  lemma {:induction false} HangsForever(s: State, steps: seq<Step>)
    requires Inv(s) && !ExitAccepted(s) && StopWaits(s) && CanRun(s, steps)
    ensures StopWaits(Run(s, steps))
    decreases steps
  {
    if steps != [] {
      HangStep(s, steps[0]);
      StepInv(s, steps[0]);
      HangsForever(Do(s, steps[0]), steps[1..]);
    }
  }

  // ---------- with an EXIT: a schedule that returns ----------

  lemma {:induction false} CanLeaveLoop(s: State) returns (steps: seq<Step>)
    requires Inv(s) && ExitAccepted(s) && InLoop(s.machine) && StopWaits(s)
    ensures CanRun(s, steps) && Run(s, steps).machine.Joining? && StopWaits(Run(s, steps))
    decreases Rank(s), HolderLeft(s)
  {
    var step := SomeoneCanMove(s);
    var next := Do(s, step);
    StepInv(s, step);
    RankStep(s, step);
    if step.ByCaller? {
      HolderMoves(s, step.thread);
    }
    var rest: seq<Step> := [];
    if InLoop(next.machine) {
      rest := CanLeaveLoop(next);
    }
    steps := [step] + rest;
    assert steps[1..] == rest;
  }

  function WsLeft(s: State): nat {
    match s.ws
    case Posting(_, _) => 4 + CallLeft(s, Ws)
    case Resetting(_) => 4
    case Serving => 3
    case WsHead => 2
    case _ => 0
  }

  lemma CanJoinWsStep(s: State) returns (step: Step)
    requires Inv(s) && s.machine.Joining? && StopWaits(s) && !(s.ws.WsEnded? && s.app.AwaitingMachine?)
    ensures Enabled(s, step)
    ensures var next := Do(s, step);
            next.machine.Joining? && StopWaits(next)
            && WsLeft(next) + CallLeft(next, App) < WsLeft(s) + CallLeft(s, App)
  {
    assert s.exitRequest && !s.ws.NoWs?;
    if s.mutex.Some? {
      assert s.mutex.value != Machine;
      HolderMoves(s, s.mutex.value);
      step := ByCaller(s.mutex.value, HolderStep(s, s.mutex.value));
    } else {
      match s.ws
      case Posting(_, _) => step := ByCaller(Ws, LockCall);
      case Resetting(_) => step := ByWs(ResetSession);
      case Serving => step := ByWs(WsReturn);
      case _ => step := ByWs(WsTestExit);
    }
  }

  lemma {:induction false} CanJoinWs(s: State) returns (steps: seq<Step>)
    requires Inv(s) && s.machine.Joining? && StopWaits(s)
    ensures CanRun(s, steps) && Returned(Run(s, steps))
    decreases WsLeft(s) + CallLeft(s, App)
  {
    if s.ws.WsEnded? && s.app.AwaitingMachine? {
      steps := [ByMachine(JoinWs), ByApp(JoinMachine)];
      var joined := Do(s, steps[0]);
      var last := Do(joined, ByApp(JoinMachine));
      assert steps[1..] == [ByApp(JoinMachine)] && steps[1..][1..] == [];
      assert CanRun(last, []) && Run(last, []) == last;
      assert CanRun(joined, steps[1..]) && Run(joined, steps[1..]) == last;
    } else {
      var step := CanJoinWsStep(s);
      StepInv(s, step);
      var rest := CanJoinWs(Do(s, step));
      steps := [step] + rest;
      assert steps[1..] == rest;
    }
  }

  lemma {:induction false} CanJoinMachine(s: State) returns (steps: seq<Step>)
    requires Inv(s) && s.machine.Ended? && StopWaits(s)
    ensures CanRun(s, steps) && Returned(Run(s, steps))
    decreases CallLeft(s, App)
  {
    if s.app.AwaitingMachine? {
      steps := [ByApp(JoinMachine)];
      var last := Do(s, ByApp(JoinMachine));
      assert steps[1..] == [] && CanRun(last, []) && Run(last, []) == last;
    } else {
      var step := ByCaller(App, HolderStep(s, App));
      HolderMoves(s, App);
      StepInv(s, step);
      var rest := CanJoinMachine(Do(s, step));
      steps := [step] + rest;
      assert steps[1..] == rest;
    }
  }

  lemma ReturnOnceAccepted(s: State) returns (steps: seq<Step>)
    requires Inv(s) && ExitAccepted(s) && StopWaits(s)
    ensures CanRun(s, steps) && Returned(Run(s, steps)) && Run(s, steps).exitRequest
  {
    var first: seq<Step> := [];
    if InLoop(s.machine) {
      first := CanLeaveLoop(s);
    }
    RunInv(s, first);
    var left := Run(s, first);
    var rest: seq<Step>;
    if left.machine.Ended? {
      rest := CanJoinMachine(left);
    } else {
      rest := CanJoinWs(left);
    }
    RunOnlyAppends(left, rest);
    RunConcat(s, first, rest);
    steps := first + rest;
  }

  /** A waiting Stop can still return exactly when an EXIT was accepted; otherwise it hangs in every continuation. */
  lemma StopReturnsIffExitAccepted(s: State)
    requires Reachable(s) && StopWaits(s)
    ensures CanReturn(s) <==> ExitAccepted(s)
  {
    ReachableInv(s);
    if ExitAccepted(s) {
      var steps := ReturnOnceAccepted(s);
    } else {
      forall steps | CanRun(s, steps) ensures !Returned(Run(s, steps)) {
        HangsForever(s, steps);
      }
    }
  }

  /** The test of the queue length decides: a Stop that is about to store its EXIT can return exactly when the
      queue has room, or when an earlier EXIT is already on its way. */
  lemma FullQueueDecides(s: State)
    requires Reachable(s) && InPhase(s, App, Locked)
    ensures StopWaits(CallDo(s, App, StoreCall))
    ensures CanReturn(CallDo(s, App, StoreCall)) <==> |s.queue| < 32 || ExitAccepted(s)
  {
    ReachableInv(s);
    var next := CallDo(s, App, StoreCall);
    LeadsOneFurther(Init(), s, ByCaller(App, StoreCall));
    FirstExitConcat(s.queue, [Exit]);
    assert ExitAccepted(next) <==> |s.queue| < 32 || ExitAccepted(s);
    StopReturnsIffExitAccepted(next);
  }

  // ---------- schedules ----------

  /** The web service thread completes a request and is inside `enqueue_message` with the mutex. */
  function Posted(s: State, session: nat): State {
    SetPhase(CompleteBody(s, session), Ws, Locked).(mutex := Some(Ws))
  }

  /** A completed request reaches the queue. */
  lemma PostsMessage(origin: State, s: State, session: nat)
    requires LeadsTo(origin, s) && s.ws.Serving? && s.mutex.None?
    ensures LeadsTo(origin, StoreMessage(Posted(s, session), Ws))
  {
    LeadsOneFurther(origin, s, ByWs(Completion(session)));
    LeadsOneFurther(origin, CompleteBody(s, session), ByCaller(Ws, LockCall));
    LeadsOneFurther(origin, Posted(s, session), ByCaller(Ws, StoreCall));
  }

  /** The application is inside `enqueue_message` with the mutex and its EXIT. */
  function StopPosts(s: State): State {
    s.(app := Stopping(Call(Exit, Locked)), mutex := Some(App))
  }

  lemma StopReachesQueue(origin: State, s: State)
    requires LeadsTo(origin, s) && s.app.Idle? && s.handle && s.mutex.None?
    ensures LeadsTo(origin, StopPosts(s)) && LeadsTo(origin, StoreMessage(StopPosts(s), App))
  {
    LeadsOneFurther(origin, s, ByApp(Stop));
    LeadsOneFurther(origin, Do(s, ByApp(Stop)), ByCaller(App, LockCall));
    LeadsOneFurther(origin, StopPosts(s), ByCaller(App, StoreCall));
  }

  /** A call that stored its message signals, unlocks and returns. */
  lemma CallReturns(origin: State, s: State, t: Thread)
    requires LeadsTo(origin, s) && InPhase(s, t, Stored)
    ensures LeadsTo(origin, CallDo(CallDo(s, t, SignalCall), t, UnlockCall))
  {
    LeadsOneFurther(origin, s, ByCaller(t, SignalCall));
    LeadsOneFurther(origin, CallDo(s, t, SignalCall), ByCaller(t, UnlockCall));
  }

  // ---------- a Stop that hangs ----------

  /** The state machine thread is between two messages, the web service is serving, the queue holds n messages,
      which are all that were ever posted. */
  ghost predicate Filled(s: State, n: nat) {
    Reachable(s) && s.machine.LoopHead? && s.ws.Serving? && s.app.Idle? && s.handle && s.mutex.None?
    && !s.exitRequest && |s.queue| == n && FirstExit(s.queue) == n
    && s.history.accepted == s.queue && s.history.refused == multiset{}
  }

  lemma OneMoreMessage(s: State, n: nat) returns (next: State)
    requires Filled(s, n) && n < MAX_MESSAGES
    ensures Filled(next, n + 1)
  {
    PostsMessage(Init(), s, 0);
    var stored := StoreMessage(Posted(s, 0), Ws);
    CallReturns(Init(), stored, Ws);
    var returned := CallDo(CallDo(stored, Ws, SignalCall), Ws, UnlockCall);
    LeadsOneFurther(Init(), returned, ByWs(ResetSession));
    next := WsDo(returned, ResetSession);
    FirstExitConcat(s.queue, [Posted(s, 0).ws.call.message]);
  }

  lemma {:induction false} FillQueue(n: nat) returns (s: State)
    requires n <= MAX_MESSAGES
    ensures Filled(s, n)
  {
    if n == 0 {
      var s0 := Init();
      LeadsToItself(s0);
      var s1 := Do(s0, ByApp(Start));
      LeadsOneFurther(Init(), s0, ByApp(Start));
      var s2 := Do(s1, ByMachine(CreateWs));
      LeadsOneFurther(Init(), s1, ByMachine(CreateWs));
      s := Do(s2, ByWs(WsTestExit));
      LeadsOneFurther(Init(), s2, ByWs(WsTestExit));
    } else {
      s := FillQueue(n - 1);
      s := OneMoreMessage(s, n - 1);
    }
  }

  /** It happens: with 32 messages queued, a Stop has its EXIT dropped and never returns. */
  lemma SomeStopHangs()
    ensures exists s :: Reachable(s) && StopWaits(s) && !CanReturn(s)
  {
    var s := FillQueue(MAX_MESSAGES);
    StopReachesQueue(Init(), s);
    FullQueueDecides(StopPosts(s));
  }
}
