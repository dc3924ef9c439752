/** Which message buffers are ever freed. */
module ControlPlaneLeaks {
  import opened Wrappers
  import opened MessageQueue
  import opened Callbacks
  import opened ControlPlane
  import opened ControlPlaneInvariants
  import opened ControlPlaneRuns
  import opened ControlPlaneShutdown
  import opened ControlPlaneProgress
  import opened ControlPlaneStop

  ghost predicate CanBeFreed(s: State, b: nat) {
    exists steps :: CanRun(s, steps) && Run(s, steps).history.freed[b] > 0
  }

  // ---------- refused buffers ----------

  lemma RefusedStep(s: State, step: Step, b: nat)
    requires Enabled(s, step)
    ensures Do(s, step).history.refused[b] >= s.history.refused[b]
  {
    match step
    case ByMachine(m) => assert MachineDo(s, m).history.refused == s.history.refused;
    case ByCaller(_, _) =>
    case ByWs(_) =>
    case ByApp(_) =>
    case SpuriousWakeup =>
  }

  /** A buffer that a full queue refused stays refused, and is not freed, in every continuation. */
  lemma {:induction false} RefusedForever(s: State, steps: seq<Step>, b: nat)
    requires Inv(s) && CanRun(s, steps) && s.history.refused[b] > 0
    ensures Run(s, steps).history.refused[b] > 0 && Run(s, steps).history.freed[b] == 0
    decreases steps
  {
    if steps == [] {
      assert Places(s, b) <= 1;
    } else {
      RefusedStep(s, steps[0], b);
      StepInv(s, steps[0]);
      RefusedForever(Do(s, steps[0]), steps[1..], b);
    }
  }

  // ---------- buffers on their way to be freed ----------

  lemma {:induction false} PrefixCount(a: seq<Message>, b: seq<Message>, buffer: nat)
    requires a <= b
    ensures InMessages(a, buffer) <= InMessages(b, buffer)
  {
    assert b == a + b[|a|..];
    InMessagesConcat(a, b[|a|..], buffer);
  }

  lemma {:induction false} BeforeExitIsPrefix(messages: seq<Message>)
    ensures BeforeExit(messages) <= messages
  {
    if messages != [] && messages[0].Data? {
      BeforeExitIsPrefix(messages[1..]);
    }
  }

  /** More messages behind do not change what stands before an EXIT, and otherwise only append to it. */
  lemma {:induction false} BeforeExitGrows(a: seq<Message>, more: seq<Message>)
    ensures BeforeExit(a) <= BeforeExit(a + more)
    ensures BeforeExit(a) != a ==> BeforeExit(a + more) == BeforeExit(a)
  {
    if a == [] {
    } else {
      assert (a + more)[1..] == a[1..] + more;
      if a[0].Data? {
        BeforeExitGrows(a[1..], more);
        assert a == [a[0]] + a[1..];
      }
    }
  }

  /** The index of buffer b among the messages. */
  function IndexOf(messages: seq<Message>, b: nat): nat {
    if messages == [] || InMessage(messages[0], b) == 1 then 0 else 1 + IndexOf(messages[1..], b)
  }

  lemma {:induction false} IndexOfConcat(a: seq<Message>, more: seq<Message>, b: nat)
    requires InMessages(a, b) > 0
    ensures IndexOf(a + more, b) == IndexOf(a, b)
  {
    if InMessage(a[0], b) != 1 {
      assert (a + more)[1..] == a[1..] + more;
      IndexOfConcat(a[1..], more, b);
    }
  }

  predicate InHands(s: State, b: nat) {
    InOptional(InFlight(s), b) == 1
  }

  /** The state machine thread works on the buffer, or will reach it before an EXIT. */
  predicate Coming(s: State, b: nat) {
    InHands(s, b)
    || (!s.exitRequest && !ExitInHand(s) && InLoop(s.machine) && InMessages(BeforeExit(s.queue), b) > 0)
  }

  function Distance(s: State, b: nat): nat {
    64 * (if InHands(s, b) then 0 else IndexOf(s.queue, b) + 1) + Position(s.machine)
  }

  lemma ComingCheckQueue(s: State, b: nat)
    requires ThreadsOk(s) && Coming(s, b) && s.machine.Checking?
    ensures var next := MachineDo(s, CheckQueue); Coming(next, b) && Distance(next, b) < Distance(s, b)
  {
    var next := MachineDo(s, CheckQueue);
    assert s.queue != [] && s.queue[0].Data? && next.machine == Taken(s.queue[0]);
  }

  /** Each step of the thread brings it closer to freeing the buffer, or frees it. */
  lemma ComingMachine(s: State, b: nat)
    requires ThreadsOk(s) && OrderOk(s) && TableOk(s) && Coming(s, b)
    requires MachineEnabled(s, MachineNext(s.machine)) && InLoop(s.machine) && !s.machine.Parked?
    ensures var next := MachineDo(s, MachineNext(s.machine));
            next.history.freed[b] > 0 || (Coming(next, b) && Distance(next, b) < Distance(s, b))
  {
    if s.machine.Checking? {
      ComingCheckQueue(s, b);
    }
  }

  lemma ComingStore(s: State, t: Thread, b: nat)
    requires ThreadsOk(s) && Coming(s, b) && CallEnabled(s, t, StoreCall)
    ensures var next := CallDo(s, t, StoreCall); Coming(next, b) && Distance(next, b) <= Distance(s, b)
  {
    if !InHands(s, b) {
      var more := [CallOf(s, t).value.message];
      BeforeExitGrows(s.queue, more);
      PrefixCount(BeforeExit(s.queue), BeforeExit(s.queue + more), b);
      BeforeExitIsPrefix(s.queue);
      PrefixCount(BeforeExit(s.queue), s.queue, b);
      IndexOfConcat(s.queue, more, b);
    }
  }

  lemma ComingHolder(s: State, t: Thread, step: CallStep, b: nat)
    requires ThreadsOk(s) && Coming(s, b) && CallEnabled(s, t, step)
    ensures var next := CallDo(s, t, step); Coming(next, b) && Distance(next, b) <= Distance(s, b)
    ensures step.SignalCall? && s.machine.Parked? ==> Distance(CallDo(s, t, step), b) < Distance(s, b)
  {
    if step.StoreCall? {
      ComingStore(s, t, b);
    }
  }

  lemma {:induction false} ComingIsFreed(s: State, b: nat) returns (steps: seq<Step>)
    requires Inv(s) && Coming(s, b)
    ensures CanRun(s, steps) && Run(s, steps).history.freed[b] > 0
    decreases Distance(s, b), HolderLeft(s)
  {
    var step := SomeoneCanMove(s);
    var next := Do(s, step);
    StepInv(s, step);
    if step.ByMachine? {
      ComingMachine(s, b);
    } else {
      HolderMoves(s, step.thread);
      ComingHolder(s, step.thread, step.callStep, b);
    }
    var rest: seq<Step> := [];
    if next.history.freed[b] == 0 {
      rest := ComingIsFreed(next, b);
    }
    steps := [step] + rest;
    assert steps[1..] == rest;
  }

  // ---------- the exact condition ----------

  lemma AcceptedCount(s: State, b: nat)
    requires OrderOk(s) && BuffersOk(s) && ConsumedOk(s)
    ensures InMessages(s.history.accepted, b)
         == InMessages(s.queue, b) + InOptional(InFlight(s), b) + s.history.freed[b] <= 1
  {
    InMessagesConcat(s.history.dequeued, s.queue, b);
    assert Places(s, b) <= 1;
  }

  /** Before the first EXIT stand the dispatched messages, then the data in hand, then the queue's. */
  lemma BeforeExitParts(s: State)
    requires Inv(s)
    ensures BeforeExit(s.history.accepted)
         == s.history.dispatched
          + (if s.exitRequest || ExitInHand(s) then [] else InHand(s) + BeforeExit(s.queue))
  {
    var h := s.history;
    var hand := if s.exitRequest then [Exit] else InHand(s);
    assert h.accepted == h.dispatched + (hand + s.queue);
    BeforeExitConcat(h.dispatched, hand + s.queue);
    if hand != [] && hand[0].Exit? {
      assert (hand + s.queue)[0].Exit?;
    } else {
      BeforeExitConcat(hand, s.queue);
    }
  }

  /** A buffer accepted before any EXIT is freed already or will be reached. */
  lemma BeforeExitIsComing(s: State, b: nat)
    requires Inv(s) && InMessages(BeforeExit(s.history.accepted), b) == 1 && s.history.freed[b] == 0
    ensures Coming(s, b)
  {
    BeforeExitParts(s);
    BeforeExitIsPrefix(s.history.accepted);
    PrefixCount(BeforeExit(s.history.accepted), s.history.accepted, b);
    AcceptedCount(s, b);
    assert InMessages(s.history.dequeued, b) == InOptional(InFlight(s), b);
    if !InHands(s, b) {
      PrefixCount(s.history.dispatched, s.history.dequeued, b);
      var tail := if s.exitRequest || ExitInHand(s) then [] else InHand(s) + BeforeExit(s.queue);
      InMessagesConcat(s.history.dispatched, tail, b);
      assert !s.exitRequest && !ExitInHand(s);
      InMessagesConcat(InHand(s), BeforeExit(s.queue), b);
      InMessagesConcat(s.history.dispatched, InHand(s), b);
      assert s.queue != [];
    }
  }

  /** A freed buffer was accepted before any EXIT. */
  lemma FreedWasBeforeExit(s: State, b: nat)
    requires Inv(s) && s.history.freed[b] > 0
    ensures InMessages(BeforeExit(s.history.accepted), b) > 0
  {
    AcceptedCount(s, b);
    var hand := if s.exitRequest then [Exit] else InHand(s);
    InMessagesConcat(s.history.dispatched, hand, b);
    assert InMessages(hand, b) == 0 by {
      if hand != [] {
        assert hand[1..] == [] && InMessages(hand, b) == InMessage(hand[0], b);
      }
    }
    BeforeExitParts(s);
    PrefixCount(s.history.dispatched, BeforeExit(s.history.accepted), b);
  }

  /** Once its message has left the web service thread, a buffer can still be freed exactly when the message was
      accepted, and no EXIT before it; otherwise it leaks in every continuation. */
  lemma FreedIffBeforeExit(s: State, b: nat)
    requires Reachable(s) && b < |s.history.posted| && InOptional(HandedOver(s), b) == 0
    ensures CanBeFreed(s, b) <==> InMessages(BeforeExit(s.history.accepted), b) == 1
  {
    ReachableInv(s);
    if InMessages(BeforeExit(s.history.accepted), b) == 1 {
      var steps: seq<Step> := [];
      if s.history.freed[b] == 0 {
        BeforeExitIsComing(s, b);
        steps := ComingIsFreed(s, b);
      }
      assert CanRun(s, steps) && Run(s, steps).history.freed[b] > 0;
    } else {
      forall steps | CanRun(s, steps) ensures Run(s, steps).history.freed[b] == 0 {
        NotBeforeExitIsNotFreed(s, steps, b);
      }
    }
  }

  /** An accepted message that does not stand before an EXIT stands behind one. */
  lemma BehindAnExit(s: State, b: nat)
    requires Inv(s) && b < |s.history.posted| && InOptional(HandedOver(s), b) == 0 && s.history.refused[b] == 0
    requires InMessages(BeforeExit(s.history.accepted), b) != 1
    ensures InMessages(BeforeExit(s.history.accepted), b) == 0
    ensures BeforeExit(s.history.accepted) != s.history.accepted
  {
    AcceptedCount(s, b);
    assert Places(s, b) == 1;
    BeforeExitIsPrefix(s.history.accepted);
    PrefixCount(BeforeExit(s.history.accepted), s.history.accepted, b);
  }

  lemma NotBeforeExitIsNotFreed(s: State, steps: seq<Step>, b: nat)
    requires Inv(s) && CanRun(s, steps) && b < |s.history.posted| && InOptional(HandedOver(s), b) == 0
    requires InMessages(BeforeExit(s.history.accepted), b) != 1
    ensures Run(s, steps).history.freed[b] == 0
  {
    hide Inv, Run, CanRun, HandedOver, InOptional, BeforeExit, InMessages;
    if s.history.refused[b] > 0 {
      RefusedForever(s, steps, b);
    } else {
      var last := Run(s, steps);
      BehindAnExit(s, b);
      RunInv(s, steps);
      RunOnlyAppends(s, steps);
      if last.history.freed[b] > 0 {
        FreedWasBeforeExit(last, b);
      }
      var a, accepted := s.history.accepted, last.history.accepted;
      assert accepted == a + accepted[|a|..];
      BeforeExitGrows(a, accepted[|a|..]);
    }
  }

  // ---------- both causes occur ----------

  /** A full queue refuses a message, whose buffer is never freed. */
  lemma SomeRefusedBufferLeaks()
    ensures exists s, b :: Reachable(s) && b < |s.history.posted| && s.history.refused[b] == 1 && !CanBeFreed(s, b)
  {
    var s := FillQueue(MAX_MESSAGES);
    PostsMessage(Init(), s, 0);
    RefusedLeaks(StoreMessage(Posted(s, 0), Ws), |s.history.posted|);
  }

  lemma RefusedLeaks(s: State, b: nat)
    requires Reachable(s) && s.history.refused[b] > 0
    ensures b < |s.history.posted| && s.history.refused[b] == 1 && !CanBeFreed(s, b)
  {
    ReachableInv(s);
    BufferInExactlyOnePlace(s, b);
    forall steps | CanRun(s, steps) ensures Run(s, steps).history.freed[b] == 0 {
      RefusedForever(s, steps, b);
    }
  }

  /** A message is accepted behind an EXIT; nothing was refused, and still its buffer is never freed. */
  lemma SomeAcceptedBufferLeaks()
    ensures exists s, b :: Reachable(s) && InMessages(s.history.accepted, b) == 1 && s.history.refused == multiset{}
                           && !CanBeFreed(s, b)
  {
    var s := FillQueue(0);
    StopReachesQueue(Init(), s);
    var stored := StoreMessage(StopPosts(s), App);
    assert stored.queue == stored.history.accepted == [Exit];
    CallReturns(Init(), stored, App);
    var returned := CallDo(CallDo(stored, App, SignalCall), App, UnlockCall);
    PostsMessage(Init(), returned, 0);
    var last := StoreMessage(Posted(returned, 0), Ws);
    AcceptedBehindExit(last, Posted(returned, 0).ws.call.message);
  }

  lemma AcceptedBehindExit(s: State, m: Message)
    requires Reachable(s) && HandedOver(s).None? && s.history.accepted == [Exit, m]
    requires m.Data? && m.buffer < |s.history.posted|
    ensures InMessages(s.history.accepted, m.buffer) == 1 && !CanBeFreed(s, m.buffer)
  {
    assert [Exit, m][1..] == [m] && [m][1..] == [];
    assert InMessages([m], m.buffer) == 1;
    FreedIffBeforeExit(s, m.buffer);
  }
}
