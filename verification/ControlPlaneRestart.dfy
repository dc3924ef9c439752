/** What a Start does after a Stop: the exit flag is cleared only by Init. */
module ControlPlaneRestart {
  import opened Wrappers
  import opened MessageQueue
  import opened ControlPlane
  import opened ControlPlaneInvariants
  import opened ControlPlaneRuns
  import opened ControlPlaneShutdown
  import opened ControlPlaneStop

  /** Some continuation hands a further message to the callbacks. */
  ghost predicate CanDispatch(s: State) {
    exists t :: LeadsTo(s, t) && |t.history.dispatched| > |s.history.dispatched|
  }

  /** The web service thread is up, and the state machine thread is about to test the exit flag. */
  predicate JustServing(s: State) {
    s.machine.LoopHead? && s.ws.Serving? && s.mutex.None? && s.queue == [] && !s.exitRequest
  }

  /** A request posted to a serving instance is enqueued. */
  lemma PostsOne(s: State, s0: State) returns (t: State)
    requires LeadsTo(s0, s) && JustServing(s)
    ensures LeadsTo(s0, t) && t.machine.LoopHead? && t.mutex.None? && !t.exitRequest
    ensures |t.queue| == 1 && t.queue[0].Data? && t.history.dispatched == s.history.dispatched
  {
    PostsMessage(s0, s, 0);
    var stored := StoreMessage(Posted(s, 0), Ws);
    CallReturns(s0, stored, Ws);
    t := CallDo(CallDo(stored, Ws, SignalCall), Ws, UnlockCall);
  }

  /** The state machine thread dispatches a queued message. */
  lemma DispatchesOne(s: State, s0: State) returns (t: State)
    requires LeadsTo(s0, s) && s.machine.LoopHead? && s.mutex.None? && !s.exitRequest
    requires s.queue != [] && s.queue[0].Data?
    ensures LeadsTo(s0, t) && t.history.dispatched == s.history.dispatched + [s.queue[0]]
  {
    var s1 := Do(s, ByMachine(TestExit));
    LeadsOneFurther(s0, s, ByMachine(TestExit));
    var s2 := Do(s1, ByMachine(LockQueue));
    LeadsOneFurther(s0, s1, ByMachine(LockQueue));
    var s3 := Do(s2, ByMachine(CheckQueue));
    LeadsOneFurther(s0, s2, ByMachine(CheckQueue));
    var s4 := Do(s3, ByMachine(UnlockQueue));
    LeadsOneFurther(s0, s3, ByMachine(UnlockQueue));
    t := Do(s4, ByMachine(Handle(None)));
    LeadsOneFurther(s0, s4, ByMachine(Handle(None)));
  }

  /** An instance whose exit flag is clear serves after Start. */
  lemma StartServes(s: State)
    requires Inv(s) && s.app.Idle? && !s.handle && !s.exitRequest
    ensures CanDispatch(Do(s, ByApp(Start)))
  {
    var s0 := Do(s, ByApp(Start));
    LeadsToItself(s0);
    var s1 := Do(s0, ByMachine(CreateWs));
    LeadsOneFurther(s0, s0, ByMachine(CreateWs));
    var s2 := Do(s1, ByWs(WsTestExit));
    LeadsOneFurther(s0, s1, ByWs(WsTestExit));
    var s3 := PostsOne(s2, s0);
    var s4 := DispatchesOne(s3, s0);
  }

  /** Start makes the instance serve exactly when no EXIT was ever handled: after a completed Stop it never does. */
  lemma StartServesIffNeverStopped(s: State)
    requires Reachable(s) && s.app.Idle? && !s.handle
    ensures CanDispatch(Do(s, ByApp(Start))) <==> !s.exitRequest
  {
    ReachableInv(s);
    if s.exitRequest {
      var started := Do(s, ByApp(Start));
      LeadsOneFurther(Init(), s, ByApp(Start));
      forall t | LeadsTo(started, t) ensures t.history.dispatched == started.history.dispatched {
        var steps :| CanRun(started, steps) && Run(started, steps) == t;
        NothingDispatchedAfterExit(started, steps);
      }
    } else {
      StartServes(s);
    }
  }

  /** It happens: after one Start and one completed Stop, another Start is possible and dispatches nothing. */
  lemma SomeRestartServesNothing()
    ensures exists s :: Reachable(s) && Returned(s) && s.exitRequest && !CanDispatch(Do(s, ByApp(Start)))
  {
    var s := FillQueue(0);
    StopReachesQueue(Init(), s);
    var stored := StoreMessage(StopPosts(s), App);
    ReachableInv(stored);
    assert stored.queue == [Exit];
    var steps := ReturnOnceAccepted(stored);
    LeadsFurther(Init(), stored, steps);
    StartServesIffNeverStopped(Run(stored, steps));
  }
}
