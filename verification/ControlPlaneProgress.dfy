/** Who can move: the steps that bring a control plane with something to do further. */
module ControlPlaneProgress {
  import opened Wrappers
  import opened MessageQueue
  import opened ControlPlane
  import opened ControlPlaneInvariants
  import opened ControlPlaneShutdown

  /** The application has tried to store its EXIT and waits for the state machine thread. */
  predicate StopWaits(s: State) {
    s.app.AwaitingMachine? || InPhase(s, App, Stored) || InPhase(s, App, Unlocking)
  }

  /** What the thread that holds the mutex inside `enqueue_message` still has to do. */
  function CallLeft(s: State, t: Thread): nat {
    match CallOf(s, t)
    case None => 0
    case Some(call) =>
      match call.phase
      case WantLock => 4
      case Locked => 3
      case Stored => 2
      case Unlocking => 1
  }

  function HolderLeft(s: State): nat {
    match s.mutex
    case None => 0
    case Some(t) => CallLeft(s, t)
  }

  /** The next step of a thread inside its critical section. */
  function HolderStep(s: State, t: Thread): CallStep {
    if InPhase(s, t, Locked) then StoreCall else if InPhase(s, t, Stored) then SignalCall else UnlockCall
  }

  lemma HolderMoves(s: State, t: Thread)
    requires MutexOk(s) && s.mutex == Some(t) && t != Machine
    ensures CallEnabled(s, t, HolderStep(s, t))
    ensures var next := CallDo(s, t, HolderStep(s, t));
            (StopWaits(s) ==> StopWaits(next)) && HolderLeft(next) < HolderLeft(s)
            && (s.machine.Joining? ==> next.machine.Joining? && next.ws.WsEnded? == s.ws.WsEnded?)
            && (t == App ==> next.ws == s.ws) && (t == Ws ==> next.app == s.app)
  {
  }

  /** The step the state machine thread takes next; an unparsable message is as good as any. */
  function MachineNext(pc: MachinePc): MachineStep {
    match pc
    case Starting => CreateWs
    case LoopHead => TestExit
    case WantQueue => LockQueue
    case Woken => LockQueue
    case Checking => CheckQueue
    case Taken(_) => UnlockQueue
    case Handling(_) => Handle(None)
    case Dispatching(_, _, _, _) => Examine
    case _ => Free
  }

  /** Unless it sleeps or waits for the mutex, the thread can go on. */
  lemma MachineCanMove(s: State)
    requires TableOk(s) && InLoop(s.machine) && !s.machine.Parked?
    requires s.machine.WantQueue? || s.machine.Woken? ==> s.mutex.None?
    ensures MachineEnabled(s, MachineNext(s.machine))
    ensures var next := MachineDo(s, MachineNext(s.machine));
            next.app == s.app && (!InLoop(next.machine) ==> next.machine.Joining?)
  {
  }

  /** No deadlock: unless it sleeps on an empty queue, the state machine thread or the holder of the mutex can move;
      when it sleeps on a non-empty one, the holder is about to signal it. */
  lemma SomeoneCanMove(s: State) returns (step: Step)
    requires Inv(s) && InLoop(s.machine) && (s.machine.Parked? ==> s.queue != [])
    ensures Enabled(s, step)
    ensures (step.ByMachine? && step.machineStep == MachineNext(s.machine))
         || (step.ByCaller? && s.mutex == Some(step.thread) && step.thread != Machine
             && step.callStep == HolderStep(s, step.thread))
    ensures s.machine.Parked? ==> step.ByCaller? && step.callStep.SignalCall?
    ensures step.ByMachine? ==>
              Do(s, step).app == s.app && (InLoop(Do(s, step).machine) || Do(s, step).machine.Joining?)
  {
    if s.machine.Parked? {
      var t := if InPhase(s, Ws, Stored) then Ws else App;
      HolderMoves(s, t);
      step := ByCaller(t, HolderStep(s, t));
    } else if (s.machine.WantQueue? || s.machine.Woken?) && s.mutex.Some? {
      HolderMoves(s, s.mutex.value);
      step := ByCaller(s.mutex.value, HolderStep(s, s.mutex.value));
    } else {
      MachineCanMove(s);
      step := ByMachine(MachineNext(s.machine));
    }
  }

  /** A wakeup without a signal is harmless: the thread finds the queue empty and sleeps again. */
  lemma SpuriousWakeupIsHarmless(s: State)
    requires Inv(s) && s.machine.Parked? && s.mutex.None?
    ensures CanRun(s, [SpuriousWakeup, ByMachine(LockQueue), ByMachine(CheckQueue)])
    ensures Run(s, [SpuriousWakeup, ByMachine(LockQueue), ByMachine(CheckQueue)]) == s
  {
    var steps := [SpuriousWakeup, ByMachine(LockQueue), ByMachine(CheckQueue)];
    var woken := Do(s, SpuriousWakeup);
    var locked := Do(woken, ByMachine(LockQueue));
    assert s.queue == [];
    assert steps[1..] == [ByMachine(LockQueue), ByMachine(CheckQueue)];
    assert steps[1..][1..] == [ByMachine(CheckQueue)] && steps[1..][1..][1..] == [];
    assert CanRun(s, []) && Run(s, []) == s;
    assert CanRun(locked, steps[1..][1..]) && Run(locked, steps[1..][1..]) == s;
    assert CanRun(woken, steps[1..]) && Run(woken, steps[1..]) == s;
  }
}
