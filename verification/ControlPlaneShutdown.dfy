/** When UT_ControlPlane_Stop returns. */
module ControlPlaneShutdown {
  import opened Wrappers
  import opened MessageQueue
  import opened Callbacks
  import opened ControlPlane
  import opened ControlPlaneInvariants
  import opened ControlPlaneRuns

  // ---------- the distance to the end of the loop ----------

  function FirstExit(queue: seq<Message>): (p: nat)
    ensures p <= |queue|
  {
    if queue == [] || queue[0].Exit? then 0 else 1 + FirstExit(queue[1..])
  }

  lemma {:induction false} FirstExitConcat(a: seq<Message>, b: seq<Message>)
    ensures FirstExit(a) < |a| ==> FirstExit(a + b) == FirstExit(a)
    ensures FirstExit(a) == |a| ==> FirstExit(a + b) == |a| + FirstExit(b)
  {
    if a == [] {
      assert a + b == b;
    } else {
      assert (a + b)[1..] == a[1..] + b;
      FirstExitConcat(a[1..], b);
    }
  }

  /** An EXIT was dequeued and is on its way to the exit flag. */
  predicate ExitInHand(s: State) {
    InHand(s) == [Exit]
  }

  /** An accepted EXIT is waiting to be handled, or was handled. */
  predicate ExitAccepted(s: State) {
    s.exitRequest || ExitInHand(s) || FirstExit(s.queue) < |s.queue|
  }

  /** The thread runs and has not left its loop. */
  predicate InLoop(pc: MachinePc) {
    !pc.Absent? && !pc.Joining? && !pc.Ended?
  }

  /** Messages still to be dequeued up to and including the EXIT. */
  function ToDequeue(s: State): nat {
    if s.exitRequest || ExitInHand(s) then 0 else FirstExit(s.queue) + 1
  }

  function Position(pc: MachinePc): nat {
    match pc
    case Starting => 60
    case Taken(_) => 55
    case Handling(_) => 54
    case Dispatching(_, _, _, i) => if i <= MAX_CALLBACK_ENTRIES then 20 + MAX_CALLBACK_ENTRIES - i else 20
    case Freeing(_) => 12
    case LoopHead => 11
    case WantQueue => 10
    case Parked => 9
    case Woken => 8
    case Checking => 5
    case _ => 0
  }

  function Rank(s: State): nat {
    64 * ToDequeue(s) + Position(s.machine)
  }

  /** Every step of the thread brings it closer to leaving its loop. */
  lemma RankMachine(s: State, step: MachineStep)
    requires Inv(s) && ExitAccepted(s) && InLoop(s.machine) && MachineEnabled(s, step)
    ensures ExitAccepted(MachineDo(s, step))
    ensures InLoop(MachineDo(s, step).machine) ==> Rank(MachineDo(s, step)) < Rank(s)
  {
    hide MutexOk, WakeupOk, BuffersOk, ConsumedOk, BytesOk, HttpOk, CompletionsOk, RoundsOk, RestOk, NumberedOk;
  }

  lemma RankCall(s: State, t: Thread, step: CallStep)
    requires Inv(s) && ExitAccepted(s) && InLoop(s.machine) && CallEnabled(s, t, step)
    ensures var next := CallDo(s, t, step);
            ExitAccepted(next) && InLoop(next.machine) && Rank(next) <= Rank(s)
    ensures step.SignalCall? && s.machine.Parked? ==> Rank(CallDo(s, t, step)) < Rank(s)
  {
    hide MutexOk, WakeupOk, BuffersOk, ConsumedOk, BytesOk, HttpOk, CompletionsOk, RoundsOk, RestOk, NumberedOk;
    if step.StoreCall? {
      FirstExitConcat(s.queue, [CallOf(s, t).value.message]);
    }
  }

  lemma RankWs(s: State, step: WsStep)
    requires Inv(s) && ExitAccepted(s) && WsEnabled(s, step)
    ensures ExitAccepted(WsDo(s, step)) && WsDo(s, step).machine == s.machine && Rank(WsDo(s, step)) == Rank(s)
  {
  }

  lemma RankApp(s: State, step: AppStep)
    requires Inv(s) && ExitAccepted(s) && InLoop(s.machine) && AppEnabled(s, step)
    ensures ExitAccepted(AppDo(s, step)) && AppDo(s, step).machine == s.machine && Rank(AppDo(s, step)) == Rank(s)
  {
  }

  lemma RankStep(s: State, step: Step)
    requires Inv(s) && ExitAccepted(s) && InLoop(s.machine) && Enabled(s, step)
    ensures ExitAccepted(Do(s, step))
    ensures InLoop(Do(s, step).machine) ==> Rank(Do(s, step)) + (if step.ByMachine? then 1 else 0) <= Rank(s)
    ensures !step.ByMachine? ==> InLoop(Do(s, step).machine)
  {
    match step
    case ByMachine(m) => RankMachine(s, m);
    case ByCaller(t, c) => RankCall(s, t, c);
    case ByWs(w) => RankWs(s, w);
    case ByApp(a) => RankApp(s, a);
    case SpuriousWakeup =>
  }

  // ---------- bounded shutdown ----------

  function MachineSteps(steps: seq<Step>): nat {
    if steps == [] then 0 else (if steps[0].ByMachine? then 1 else 0) + MachineSteps(steps[1..])
  }

  /** The thread stays in its loop throughout the run. */
  ghost predicate StaysInLoop(s: State, steps: seq<Step>)
    requires CanRun(s, steps)
    decreases steps
  {
    InLoop(s.machine) && (steps != [] ==> StaysInLoop(Do(s, steps[0]), steps[1..]))
  }

  /** However the other threads interleave, with an accepted EXIT at index p of the queue the thread leaves its
      loop before it has taken 64 * (p + 1) + 60 steps of its own. */
  lemma {:induction false} LoopEndsInTime(s: State, steps: seq<Step>)
    requires Inv(s) && ExitAccepted(s) && CanRun(s, steps) && StaysInLoop(s, steps)
    ensures MachineSteps(steps) <= Rank(s) <= 64 * ToDequeue(s) + 60
    decreases steps
  {
    if steps != [] {
      RankStep(s, steps[0]);
      StepInv(s, steps[0]);
      LoopEndsInTime(Do(s, steps[0]), steps[1..]);
    }
  }

  lemma {:induction false} FirstExitSplits(queue: seq<Message>)
    ensures BeforeExit(queue) == queue[..FirstExit(queue)]
  {
    if queue != [] && queue[0].Data? {
      FirstExitSplits(queue[1..]);
      assert queue[..FirstExit(queue)] == [queue[0]] + queue[1..][..FirstExit(queue[1..])];
    }
  }

  /** What was accepted: data up to the first EXIT of the queue, that EXIT, and the messages behind it. */
  lemma AcceptedSplits(s: State)
    requires OrderOk(s) && !s.exitRequest && FirstExit(s.queue) < |s.queue| && !ExitInHand(s)
    ensures var p := FirstExit(s.queue);
            AllData(s.history.dequeued + s.queue[..p])
            && s.history.accepted == s.history.dequeued + s.queue[..p] + [Exit] + s.queue[p + 1..]
  {
    FirstExitSplits(s.queue);
    DataBeforeExit(s.queue);
    ExitAtFirstExit(s.queue);
  }

  /** With the first EXIT at index p of the queue and no message in hand, the thread handles the EXIT after exactly
      p + 1 more dequeues, in every continuation. */
  lemma ExactlySoManyDequeues(s: State, steps: seq<Step>)
    requires Reachable(s) && CanRun(s, steps) && Run(s, steps).exitRequest
    requires !s.exitRequest && FirstExit(s.queue) < |s.queue| && !ExitInHand(s)
    ensures |Run(s, steps).history.dequeued| == |s.history.dequeued| + FirstExit(s.queue) + 1
  {
    ReachableInv(s);
    RunInv(s, steps);
    RunOnlyAppends(s, steps);
    AcceptedSplits(s);
    var last := Run(s, steps);
    assert OrderOk(last);
    hide Inv, Run, CanRun, FirstExit, BeforeExit;
    var p := FirstExit(s.queue);
    SameBeforeExit(s.history.dequeued + s.queue[..p], s.queue[p + 1..], last.history.dispatched, last.queue,
                   s.history.accepted, last.history.accepted);
  }

  lemma {:induction false} ExitAtFirstExit(queue: seq<Message>)
    requires FirstExit(queue) < |queue|
    ensures queue[FirstExit(queue)].Exit?
  {
    if queue[0].Data? {
      ExitAtFirstExit(queue[1..]);
    }
  }

  lemma {:induction false} DataBeforeExit(queue: seq<Message>)
    ensures AllData(BeforeExit(queue))
  {
    if queue != [] && queue[0].Data? {
      DataBeforeExit(queue[1..]);
    }
  }
}
