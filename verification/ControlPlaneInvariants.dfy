/** What every step of the control plane keeps. */
module ControlPlaneInvariants {
  import opened Wrappers
  import opened YamlTree
  import opened MessageQueue
  import opened HttpSession
  import opened FieldPaths
  import opened Callbacks
  import opened ControlPlane

  // ---------- threads and the mutex ----------

  predicate HoldsMutex(s: State, t: Thread) {
    if t == Machine then s.machine.Checking? || s.machine.Taken?
    else CallOf(s, t).Some? && CallOf(s, t).value.phase != WantLock
  }

  /** At most one thread is inside a critical section, and the mutex says which. */
  ghost predicate MutexOk(s: State) {
    && (s.mutex == Some(Machine) <==> HoldsMutex(s, Machine))
    && (s.mutex == Some(Ws) <==> HoldsMutex(s, Ws))
    && (s.mutex == Some(App) <==> HoldsMutex(s, App))
  }

  /** Which threads exist, and what they enqueue. */
  ghost predicate ThreadsOk(s: State) {
    && (s.handle <==> !s.machine.Absent?)
    && (s.ws.NoWs? <==> s.machine.Absent? || s.machine.Starting? || s.machine.Ended?)
    && (s.app.Stopping? || s.app.AwaitingMachine? ==> s.handle)
    && (s.app.Stopping? ==> s.app.call.message.Exit?)
    && (s.ws.Posting? ==> s.ws.call.message.Data?)
    && (s.machine.Joining? || s.machine.Ended? || s.ws.WsEnded? ==> s.exitRequest)
    && (InLoopBody(s.machine) ==> !s.exitRequest)
  }

  /** After the test of the exit flag and before the next message is handled. */
  predicate InLoopBody(pc: MachinePc) {
    pc.WantQueue? || pc.Checking? || pc.Parked? || pc.Woken? || pc.Taken? || pc.Handling? || pc.Dispatching?
  }

  /** No lost wakeup: a consumer sleeps on a non-empty queue only while the signal for it is on its way. */
  ghost predicate WakeupOk(s: State) {
    s.machine.Parked? && s.queue != [] ==> InPhase(s, Ws, Stored) || InPhase(s, App, Stored)
  }

  // ---------- order ----------

  /** The dequeued message not yet handed on. */
  function InHand(s: State): seq<Message> {
    if s.machine.Taken? || s.machine.Handling? then [s.machine.message] else []
  }

  predicate AllData(messages: seq<Message>) {
    forall m :: m in messages ==> m.Data?
  }

  ghost predicate OrderOk(s: State) {
    var h := s.history;
    && |s.queue| <= MAX_MESSAGES
    && h.accepted == h.dequeued + s.queue
    && h.dequeued == h.dispatched + (if s.exitRequest then [Exit] else InHand(s))
    && (s.exitRequest ==> InHand(s) == [])
    && (s.machine.Freeing? && s.machine.message.Exit? ==> s.exitRequest)
    && (s.machine.Dispatching? ==> s.machine.message.Data?)
    && AllData(h.dispatched)
  }

  lemma MutexMachine(s: State, step: MachineStep)
    requires MutexOk(s) && ThreadsOk(s) && MachineEnabled(s, step)
    ensures MutexOk(MachineDo(s, step))
  {
  }

  lemma MutexCall(s: State, t: Thread, step: CallStep)
    requires MutexOk(s) && ThreadsOk(s) && CallEnabled(s, t, step)
    ensures MutexOk(CallDo(s, t, step))
  {
  }

  lemma MutexStep(s: State, step: Step)
    requires MutexOk(s) && ThreadsOk(s) && Enabled(s, step)
    ensures MutexOk(Do(s, step))
  {
    hide MachineDo, CallDo;
    match step
    case ByMachine(m) => MutexMachine(s, m);
    case ByCaller(t, c) => MutexCall(s, t, c);
    case ByWs(_) =>
    case ByApp(_) =>
    case SpuriousWakeup =>
  }

  lemma ThreadsCall(s: State, t: Thread, step: CallStep)
    requires ThreadsOk(s) && CallEnabled(s, t, step)
    ensures ThreadsOk(CallDo(s, t, step))
  {
  }

  lemma ThreadsStep(s: State, step: Step)
    requires ThreadsOk(s) && Enabled(s, step)
    ensures ThreadsOk(Do(s, step))
  {
    match step
    case ByMachine(_) =>
    case ByCaller(t, c) => ThreadsCall(s, t, c);
    case ByWs(_) =>
    case ByApp(_) =>
    case SpuriousWakeup =>
  }

  lemma WakeupMachine(s: State, step: MachineStep)
    requires MutexOk(s) && WakeupOk(s) && MachineEnabled(s, step)
    ensures WakeupOk(MachineDo(s, step))
  {
  }

  lemma WakeupCall(s: State, t: Thread, step: CallStep)
    requires MutexOk(s) && WakeupOk(s) && CallEnabled(s, t, step)
    ensures WakeupOk(CallDo(s, t, step))
  {
  }

  lemma WakeupStep(s: State, step: Step)
    requires MutexOk(s) && WakeupOk(s) && Enabled(s, step)
    ensures WakeupOk(Do(s, step))
  {
    hide MachineDo, CallDo;
    match step
    case ByMachine(m) => WakeupMachine(s, m);
    case ByCaller(t, c) => WakeupCall(s, t, c);
    case ByWs(_) =>
    case ByApp(_) =>
    case SpuriousWakeup =>
  }

  lemma OrderCheck(s: State)
    requires ThreadsOk(s) && OrderOk(s) && s.machine.Checking?
    ensures OrderOk(MachineDo(s, CheckQueue))
  {
    if s.queue != [] {
      assert s.queue == [s.queue[0]] + s.queue[1..];
    }
  }

  lemma OrderMachine(s: State, step: MachineStep)
    requires ThreadsOk(s) && OrderOk(s) && MachineEnabled(s, step)
    ensures OrderOk(MachineDo(s, step))
  {
    if step.CheckQueue? {
      OrderCheck(s);
    }
  }

  lemma OrderCall(s: State, t: Thread, step: CallStep)
    requires ThreadsOk(s) && OrderOk(s) && CallEnabled(s, t, step)
    ensures OrderOk(CallDo(s, t, step))
  {
  }

  lemma OrderWs(s: State, step: WsStep)
    requires ThreadsOk(s) && OrderOk(s) && WsEnabled(s, step)
    ensures OrderOk(WsDo(s, step))
  {
  }

  lemma OrderStep(s: State, step: Step)
    requires ThreadsOk(s) && OrderOk(s) && Enabled(s, step)
    ensures OrderOk(Do(s, step))
  {
    match step
    case ByMachine(m) => OrderMachine(s, m);
    case ByCaller(t, c) => OrderCall(s, t, c);
    case ByWs(w) => OrderWs(s, w);
    case ByApp(_) =>
    case SpuriousWakeup =>
  }

  // ---------- buffers ----------

  /** How often buffer b occurs in a message, in an optional message, in a list of messages. */
  function InMessage(m: Message, b: nat): nat {
    if m.Data? && m.buffer == b then 1 else 0
  }

  function InOptional(m: Option<Message>, b: nat): nat {
    match m
    case Some(message) => InMessage(message, b)
    case None => 0
  }

  function InMessages(messages: seq<Message>, b: nat): nat {
    if messages == [] then 0 else InMessage(messages[0], b) + InMessages(messages[1..], b)
  }

  /** The message on its way from a session to the queue. */
  function HandedOver(s: State): Option<Message> {
    if InPhase(s, Ws, WantLock) || InPhase(s, Ws, Locked) then Some(s.ws.call.message) else None
  }

  /** The message the state machine works on. */
  function InFlight(s: State): Option<Message> {
    match s.machine
    case Taken(m) => Some(m)
    case Handling(m) => Some(m)
    case Dispatching(m, _, _, _) => Some(m)
    case Freeing(m) => Some(m)
    case _ => None
  }

  /** The number of places buffer b is in. */
  function Places(s: State, b: nat): nat {
    InOptional(HandedOver(s), b) + InMessages(s.queue, b) + InOptional(InFlight(s), b)
    + s.history.freed[b] + s.history.refused[b]
  }

  /** Every allocated buffer is in exactly one place. */
  ghost predicate BuffersOk(s: State) {
    forall b: nat :: Places(s, b) == if b < |s.history.posted| then 1 else 0
  }

  lemma {:induction false} InMessagesConcat(a: seq<Message>, b: seq<Message>, buffer: nat)
    ensures InMessages(a + b, buffer) == InMessages(a, buffer) + InMessages(b, buffer)
  {
    if a == [] {
      assert a + b == b;
    } else {
      assert (a + b)[1..] == a[1..] + b;
      InMessagesConcat(a[1..], b, buffer);
    }
  }

  /** What was dequeued is in flight or freed: no dequeued message is lost or handled twice. */
  ghost predicate ConsumedOk(s: State) {
    forall b: nat :: InMessages(s.history.dequeued, b) == InOptional(InFlight(s), b) + s.history.freed[b]
  }

  lemma PlacesFree(s: State, b: nat)
    requires s.machine.Freeing?
    ensures Places(MachineDo(s, Free), b) == Places(s, b)
  {
  }

  lemma PlacesMachine(s: State, step: MachineStep, b: nat)
    requires ThreadsOk(s) && MachineEnabled(s, step)
    ensures Places(MachineDo(s, step), b) == Places(s, b)
  {
    if step.Free? {
      PlacesFree(s, b);
    } else {
      var next := MachineDo(s, step);
      assert next.history.freed == s.history.freed && next.history.refused == s.history.refused;
      assert HandedOver(next) == HandedOver(s);
    }
  }

  lemma PlacesStore(s: State, t: Thread, b: nat)
    requires ThreadsOk(s) && CallEnabled(s, t, StoreCall)
    ensures Places(CallDo(s, t, StoreCall), b) == Places(s, b)
  {
    var m := CallOf(s, t).value.message;
    InMessagesConcat(s.queue, [m], b);
    assert InMessages([m], b) == InMessage(m, b) by {
      assert [m][1..] == [];
    }
    var next := CallDo(s, t, StoreCall);
    assert InFlight(next) == InFlight(s) && next.history.freed == s.history.freed;
    assert HandedOver(next) == if t == Ws then None else HandedOver(s);
    assert if |s.queue| < MAX_MESSAGES then next.queue == s.queue + [m] && next.history.refused == s.history.refused
           else next.queue == s.queue && next.history.refused == s.history.refused + Buffer(m);
    hide InMessages, CallDo, HandedOver, InFlight, ThreadsOk;
  }

  lemma PlacesCall(s: State, t: Thread, step: CallStep, b: nat)
    requires ThreadsOk(s) && CallEnabled(s, t, step)
    ensures Places(CallDo(s, t, step), b) == Places(s, b)
  {
    hide InMessages;
    if step.StoreCall? {
      PlacesStore(s, t, b);
    }
  }

  lemma PlacesWs(s: State, step: WsStep, b: nat)
    requires WsEnabled(s, step)
    ensures Places(WsDo(s, step), b)
         == Places(s, b) + if step.Completion? && b == |s.history.posted| then 1 else 0
  {
  }

  lemma PlacesApp(s: State, step: AppStep, b: nat)
    requires ThreadsOk(s) && AppEnabled(s, step)
    ensures Places(AppDo(s, step), b) == Places(s, b)
  {
  }

  lemma BuffersMachine(s: State, step: MachineStep)
    requires ThreadsOk(s) && BuffersOk(s) && MachineEnabled(s, step)
    ensures BuffersOk(MachineDo(s, step))
  {
    forall b: nat ensures Places(MachineDo(s, step), b) == if b < |MachineDo(s, step).history.posted| then 1 else 0 {
      PlacesMachine(s, step, b);
    }
  }

  lemma BuffersCall(s: State, t: Thread, step: CallStep)
    requires ThreadsOk(s) && BuffersOk(s) && CallEnabled(s, t, step)
    ensures BuffersOk(CallDo(s, t, step))
  {
    forall b: nat ensures Places(CallDo(s, t, step), b) == if b < |CallDo(s, t, step).history.posted| then 1 else 0 {
      PlacesCall(s, t, step, b);
    }
  }

  lemma BuffersWs(s: State, step: WsStep)
    requires ThreadsOk(s) && BuffersOk(s) && WsEnabled(s, step)
    ensures BuffersOk(WsDo(s, step))
  {
    forall b: nat ensures Places(WsDo(s, step), b) == if b < |WsDo(s, step).history.posted| then 1 else 0 {
      PlacesWs(s, step, b);
    }
  }

  lemma BuffersApp(s: State, step: AppStep)
    requires ThreadsOk(s) && BuffersOk(s) && AppEnabled(s, step)
    ensures BuffersOk(AppDo(s, step))
  {
    forall b: nat ensures Places(AppDo(s, step), b) == if b < |AppDo(s, step).history.posted| then 1 else 0 {
      PlacesApp(s, step, b);
    }
  }

  lemma BuffersStep(s: State, step: Step)
    requires ThreadsOk(s) && BuffersOk(s) && Enabled(s, step)
    ensures BuffersOk(Do(s, step))
  {
    match step
    case ByMachine(m) => BuffersMachine(s, m);
    case ByCaller(t, c) => BuffersCall(s, t, c);
    case ByWs(w) => BuffersWs(s, w);
    case ByApp(a) => BuffersApp(s, a);
    case SpuriousWakeup =>
      assert forall b: nat :: Places(Do(s, step), b) == Places(s, b);
  }

  lemma ConsumedFree(s: State)
    requires ConsumedOk(s) && s.machine.Freeing?
    ensures ConsumedOk(MachineDo(s, Free))
  {
  }

  lemma ConsumedDequeue(s: State)
    requires ConsumedOk(s) && s.machine.Checking?
    ensures ConsumedOk(MachineDo(s, CheckQueue))
  {
    var next := MachineDo(s, CheckQueue);
    if s.queue != [] {
      forall b: nat
        ensures InMessages(next.history.dequeued, b) == InOptional(InFlight(next), b) + next.history.freed[b]
      {
        InMessagesConcat(s.history.dequeued, [s.queue[0]], b);
        assert [s.queue[0]][1..] == [] && InMessages([s.queue[0]], b) == InMessage(s.queue[0], b);
      }
    }
  }

  lemma ConsumedMachine(s: State, step: MachineStep)
    requires ThreadsOk(s) && ConsumedOk(s) && MachineEnabled(s, step)
    ensures ConsumedOk(MachineDo(s, step))
  {
    if step.Free? {
      ConsumedFree(s);
    } else if step.CheckQueue? {
      ConsumedDequeue(s);
    } else {
      var next := MachineDo(s, step);
      assert next.history.dequeued == s.history.dequeued && next.history.freed == s.history.freed;
      assert InFlight(next) == InFlight(s);
    }
  }

  lemma ConsumedCall(s: State, t: Thread, step: CallStep)
    requires ThreadsOk(s) && ConsumedOk(s) && CallEnabled(s, t, step)
    ensures ConsumedOk(CallDo(s, t, step))
  {
  }

  lemma ConsumedApp(s: State, step: AppStep)
    requires ThreadsOk(s) && ConsumedOk(s) && AppEnabled(s, step)
    ensures ConsumedOk(AppDo(s, step))
  {
  }

  lemma ConsumedStep(s: State, step: Step)
    requires ThreadsOk(s) && ConsumedOk(s) && Enabled(s, step)
    ensures ConsumedOk(Do(s, step))
  {
    hide MachineDo, CallDo, AppDo;
    match step
    case ByMachine(m) => ConsumedMachine(s, m);
    case ByCaller(t, c) => ConsumedCall(s, t, c);
    case ByWs(_) =>
    case ByApp(a) => ConsumedApp(s, a);
    case SpuriousWakeup =>
  }

  // ---------- bytes ----------

  /** A message carries the bytes its buffer was filled with. */
  predicate Genuine(posted: seq<seq<Byte>>, m: Message) {
    m.Data? ==> m.buffer < |posted| && posted[m.buffer] == m.bytes
  }

  ghost predicate BytesOk(s: State) {
    && (s.ws.Posting? ==> Genuine(s.history.posted, s.ws.call.message))
    && forall m :: m in s.history.accepted ==> Genuine(s.history.posted, m)
  }

  lemma BytesMachine(s: State, step: MachineStep)
    requires ThreadsOk(s) && BytesOk(s) && MachineEnabled(s, step)
    ensures BytesOk(MachineDo(s, step))
  {
  }

  lemma BytesCall(s: State, t: Thread, step: CallStep)
    requires ThreadsOk(s) && BytesOk(s) && CallEnabled(s, t, step)
    ensures BytesOk(CallDo(s, t, step))
  {
  }

  lemma BytesStep(s: State, step: Step)
    requires ThreadsOk(s) && BytesOk(s) && Enabled(s, step)
    ensures BytesOk(Do(s, step))
  {
    hide MachineDo, CallDo;
    match step
    case ByMachine(m) => BytesMachine(s, m);
    case ByCaller(t, c) => BytesCall(s, t, c);
    case ByWs(_) =>
    case ByApp(_) =>
    case SpuriousWakeup =>
  }

  // ---------- HTTP sessions ----------

  /** The bytes of a session's accepted chunks among the first i events, since its last completion there. */
  function Since(http: seq<HttpEvent>, i: nat, session: nat): seq<Byte>
    requires i <= |http|
  {
    if i == 0 then []
    else
      match http[i - 1]
      case Complete(other, _) => if other == session then [] else Since(http, i - 1, session)
      case Chunk(other, bytes, accepted) =>
        Since(http, i - 1, session) + (if other == session && accepted then bytes else [])
  }

  lemma {:induction false} SinceFrame(http: seq<HttpEvent>, e: HttpEvent, i: nat, session: nat)
    requires i <= |http|
    ensures Since(http + [e], i, session) == Since(http, i, session)
  {
    if i > 0 {
      SinceFrame(http, e, i - 1, session);
    }
  }

  /** The session whose message is on its way, and whose buffer is about to be reset. */
  function BeingReset(s: State): Option<nat> {
    if s.ws.Posting? || s.ws.Resetting? then Some(s.ws.session) else None
  }

  /** An event fits what happened before: a chunk was accepted iff it fits, a message has the session's bytes. */
  predicate EventOk(http: seq<HttpEvent>, posted: seq<seq<Byte>>, i: nat)
    requires i < |http|
  {
    match http[i]
    case Chunk(session, bytes, accepted) => accepted <==> Fits(Since(http, i, session), bytes)
    case Complete(session, buffer) => buffer < |posted| && posted[buffer] == Since(http, i, session)
  }

  ghost predicate HttpOk(s: State) {
    var h := s.history;
    && (BeingReset(s).Some? ==> Since(h.http, |h.http|, BeingReset(s).value) == [])
    && (forall session: nat :: BeingReset(s) != Some(session) ==>
          SessionBytes(s, session) == Since(h.http, |h.http|, session))
    && (forall session :: |SessionBytes(s, session)| < MAX_POST_DATA_SIZE)
    && (forall i :: 0 <= i < |h.http| ==> EventOk(h.http, h.posted, i))
    && (forall b :: 0 <= b < |h.posted| ==> |h.posted[b]| < MAX_POST_DATA_SIZE)
  }

  lemma SinceAppend(http: seq<HttpEvent>, e: HttpEvent)
    ensures forall i, session :: 0 <= i <= |http| ==> Since(http + [e], i, session) == Since(http, i, session)
  {
    forall i, session | 0 <= i <= |http| ensures Since(http + [e], i, session) == Since(http, i, session) {
      SinceFrame(http, e, i, session);
    }
  }

  /** What `HttpOk` reads. */
  predicate SameHttp(s: State, next: State) {
    && next.sessions == s.sessions && next.history.http == s.history.http && next.history.posted == s.history.posted
    && BeingReset(next) == BeingReset(s)
  }

  lemma KeptHttp(s: State, next: State)
    requires HttpOk(s) && SameHttp(s, next)
    ensures HttpOk(next)
  {
    forall session ensures SessionBytes(next, session) == SessionBytes(s, session) {
    }
  }

  lemma EventsStayOk(http: seq<HttpEvent>, posted: seq<seq<Byte>>, e: HttpEvent, more: seq<seq<Byte>>)
    requires forall i :: 0 <= i < |http| ==> EventOk(http, posted, i)
    requires posted <= more
    ensures forall i :: 0 <= i < |http| ==> EventOk(http + [e], more, i)
  {
    SinceAppend(http, e);
    forall i | 0 <= i < |http| ensures EventOk(http + [e], more, i) {
      assert EventOk(http, posted, i);
      assert (http + [e])[i] == http[i];
    }
  }

  lemma HttpBody(s: State, session: nat, chunk: seq<Byte>)
    requires HttpOk(s) && s.ws.Serving?
    ensures HttpOk(ReceiveChunk(s, session, chunk))
  {
    var h := s.history;
    var e := Chunk(session, chunk, Fits(SessionBytes(s, session), chunk));
    var next := ReceiveChunk(s, session, chunk);
    SinceAppend(h.http, e);
    EventsStayOk(h.http, h.posted, e, h.posted);
    assert EventOk(h.http + [e], h.posted, |h.http|);
    forall other ensures SessionBytes(next, other) == Since(h.http + [e], |h.http| + 1, other) {
      assert SessionBytes(s, other) == Since(h.http, |h.http|, other);
    }
  }

  lemma HttpCompletion(s: State, session: nat)
    requires HttpOk(s) && s.ws.Serving?
    ensures HttpOk(CompleteBody(s, session))
  {
    var h := s.history;
    var e := Complete(session, |h.posted|);
    var next := CompleteBody(s, session);
    SinceAppend(h.http, e);
    EventsStayOk(h.http, h.posted, e, next.history.posted);
    assert SessionBytes(s, session) == Since(h.http, |h.http|, session);
    assert EventOk(h.http + [e], next.history.posted, |h.http|);
    forall other: nat | BeingReset(next) != Some(other)
      ensures SessionBytes(next, other) == Since(h.http + [e], |h.http| + 1, other)
    {
      assert SessionBytes(s, other) == Since(h.http, |h.http|, other);
    }
  }

  lemma HttpReset(s: State)
    requires HttpOk(s) && s.ws.Resetting?
    ensures HttpOk(WsDo(s, ResetSession))
  {
  }

  lemma HttpMachine(s: State, step: MachineStep)
    requires ThreadsOk(s) && HttpOk(s) && MachineEnabled(s, step)
    ensures HttpOk(MachineDo(s, step))
  {
    KeptHttp(s, MachineDo(s, step));
  }

  lemma HttpCall(s: State, t: Thread, step: CallStep)
    requires ThreadsOk(s) && HttpOk(s) && CallEnabled(s, t, step)
    ensures HttpOk(CallDo(s, t, step))
  {
    KeptHttp(s, CallDo(s, t, step));
  }

  lemma HttpWs(s: State, step: WsStep)
    requires ThreadsOk(s) && HttpOk(s) && WsEnabled(s, step)
    ensures HttpOk(WsDo(s, step))
  {
    match step
    case Body(session, chunk) => HttpBody(s, session, chunk);
    case Completion(session) => HttpCompletion(s, session);
    case ResetSession => HttpReset(s);
    case _ => KeptHttp(s, WsDo(s, step));
  }

  lemma HttpApp(s: State, step: AppStep)
    requires ThreadsOk(s) && HttpOk(s) && AppEnabled(s, step)
    ensures HttpOk(AppDo(s, step))
  {
    KeptHttp(s, AppDo(s, step));
  }

  lemma HttpStep(s: State, step: Step)
    requires ThreadsOk(s) && HttpOk(s) && Enabled(s, step)
    ensures HttpOk(Do(s, step))
  {
    match step
    case ByMachine(m) => HttpMachine(s, m);
    case ByCaller(t, c) => HttpCall(s, t, c);
    case ByWs(w) => HttpWs(s, w);
    case ByApp(a) => HttpApp(s, a);
    case SpuriousWakeup => KeptHttp(s, Do(s, step));
  }

  /** Every buffer was filled by a completion. */
  predicate Completed(http: seq<HttpEvent>, b: nat) {
    exists i :: 0 <= i < |http| && http[i].Complete? && http[i].buffer == b
  }

  ghost predicate CompletionsOk(s: State) {
    forall b :: 0 <= b < |s.history.posted| ==> Completed(s.history.http, b)
  }

  lemma CompletionsAppend(s: State, e: HttpEvent, posted: seq<seq<Byte>>)
    requires CompletionsOk(s)
    requires |posted| == |s.history.posted|
          || (|posted| == |s.history.posted| + 1 && e.Complete? && e.buffer == |s.history.posted|)
    ensures forall b :: 0 <= b < |posted| ==> Completed(s.history.http + [e], b)
  {
    var http := s.history.http + [e];
    forall b | 0 <= b < |posted| ensures Completed(http, b) {
      if b < |s.history.posted| {
        assert Completed(s.history.http, b);
        var i :| 0 <= i < |s.history.http| && s.history.http[i].Complete? && s.history.http[i].buffer == b;
        assert http[i] == s.history.http[i];
      } else {
        assert http[|s.history.http|] == e;
      }
    }
  }

  lemma CompletionsWs(s: State, step: WsStep)
    requires CompletionsOk(s) && WsEnabled(s, step)
    ensures CompletionsOk(WsDo(s, step))
  {
    match step
    case Body(session, chunk) =>
      CompletionsAppend(s, Chunk(session, chunk, Fits(SessionBytes(s, session), chunk)), s.history.posted);
    case Completion(session) =>
      CompletionsAppend(s, Complete(session, |s.history.posted|), WsDo(s, step).history.posted);
    case _ =>
  }

  lemma CompletionsStep(s: State, step: Step)
    requires CompletionsOk(s) && Enabled(s, step)
    ensures CompletionsOk(Do(s, step))
  {
    match step
    case ByMachine(_) =>
    case ByCaller(_, _) =>
    case ByWs(w) => CompletionsWs(s, w);
    case ByApp(_) =>
    case SpuriousWakeup =>
  }

  // ---------- callbacks ----------

  ghost predicate TableOk(s: State) {
    && |s.slots| == MAX_CALLBACK_ENTRIES && s.index <= MAX_CALLBACK_ENTRIES
    && (forall i :: 0 <= i < |s.slots| ==> |s.slots[i].key| < MAX_ELEMENT_SIZE)
    && (s.app.Registering? ==> |s.app.entry.key| < MAX_ELEMENT_SIZE)
    && (s.app.Registering? ==> s.index < MAX_CALLBACK_ENTRIES && Written(s.slots[s.index], s.app.entry, s.app.written))
  }

  /** The first fields of a slot already hold those of the new entry. */
  predicate Written(slot: Slot, entry: Slot, written: nat) {
    && written <= 3
    && (written >= 1 ==> slot.key == entry.key)
    && (written >= 2 ==> slot.callback == entry.callback)
    && (written >= 3 ==> slot.userData == entry.userData)
  }

  /** A finished dispatch called exactly the examined entries with a present key, among them all entries that
      were registered when it began. */
  predicate RoundOk(slots: seq<Slot>, index: nat, r: Round) {
    && r.message.Data?
    && r.registered <= r.examined <= index <= |slots|
    && r.calls == Invoked(r.root, slots, r.examined)
  }

  ghost predicate RoundsOk(s: State) {
    && (forall r :: r in s.history.rounds ==> RoundOk(s.slots, s.index, r))
    && (s.machine.Dispatching? ==>
          && s.machine.message.Data?
          && s.machine.registered <= s.index && s.machine.i <= s.index <= |s.slots|
          && s.history.calls == Invoked(s.machine.root, s.slots, s.machine.i))
  }

  /** The table only grows, and never changes an entry already published. */
  predicate TableGrows(s: State, next: State) {
    && s.index <= next.index <= |next.slots| && s.index <= |s.slots|
    && next.slots[..s.index] == s.slots[..s.index]
  }

  lemma TableCall(s: State, t: Thread, step: CallStep)
    requires TableOk(s) && CallEnabled(s, t, step)
    ensures TableOk(CallDo(s, t, step)) && TableGrows(s, CallDo(s, t, step))
  {
  }

  lemma TableApp(s: State, step: AppStep)
    requires TableOk(s) && AppEnabled(s, step)
    ensures TableOk(AppDo(s, step)) && TableGrows(s, AppDo(s, step))
  {
  }

  lemma TableStep(s: State, step: Step)
    requires TableOk(s) && Enabled(s, step)
    ensures TableOk(Do(s, step)) && TableGrows(s, Do(s, step))
  {
    hide CallDo, AppDo;
    match step
    case ByMachine(_) =>
    case ByCaller(t, c) => TableCall(s, t, c);
    case ByWs(_) =>
    case ByApp(a) => TableApp(s, a);
    case SpuriousWakeup =>
  }

  lemma RoundsStayOk(s: State, slots: seq<Slot>, index: nat)
    requires RoundsOk(s) && s.index <= index <= |slots| && s.index <= |s.slots|
    requires slots[..s.index] == s.slots[..s.index]
    ensures forall r :: r in s.history.rounds ==> RoundOk(slots, index, r)
    ensures s.machine.Dispatching? ==> s.history.calls == Invoked(s.machine.root, slots, s.machine.i)
  {
    forall r | r in s.history.rounds ensures RoundOk(slots, index, r) {
      assert slots[..r.examined] == slots[..s.index][..r.examined] == s.slots[..r.examined];
      InvokedFrame(r.root, slots, s.slots, r.examined);
    }
    if s.machine.Dispatching? {
      var i := s.machine.i;
      assert slots[..i] == slots[..s.index][..i] == s.slots[..i];
      InvokedFrame(s.machine.root, slots, s.slots, i);
    }
  }

  lemma RoundsMachine(s: State, step: MachineStep)
    requires ThreadsOk(s) && TableOk(s) && RoundsOk(s) && MachineEnabled(s, step)
    ensures RoundsOk(MachineDo(s, step))
  {
  }

  lemma RoundsCall(s: State, t: Thread, step: CallStep)
    requires ThreadsOk(s) && TableOk(s) && RoundsOk(s) && CallEnabled(s, t, step)
    ensures RoundsOk(CallDo(s, t, step))
  {
  }

  lemma RoundsApp(s: State, step: AppStep)
    requires ThreadsOk(s) && TableOk(s) && RoundsOk(s) && AppEnabled(s, step)
    ensures RoundsOk(AppDo(s, step))
  {
    TableApp(s, step);
    RoundsStayOk(s, AppDo(s, step).slots, AppDo(s, step).index);
  }

  lemma RoundsStep(s: State, step: Step)
    requires ThreadsOk(s) && TableOk(s) && RoundsOk(s) && Enabled(s, step)
    ensures RoundsOk(Do(s, step))
  {
    match step
    case ByMachine(m) => RoundsMachine(s, m);
    case ByCaller(t, c) => RoundsCall(s, t, c);
    case ByWs(_) =>
    case ByApp(a) => RoundsApp(s, a);
    case SpuriousWakeup =>
  }

  /** The dispatched messages that parsed, with their roots. */
  function WellFormed(dispatched: seq<Message>, parses: seq<Option<Node>>): seq<(Message, Node)>
    requires |dispatched| == |parses|
  {
    var n := |parses|;
    if n == 0 then []
    else
      WellFormed(dispatched[..n - 1], parses[..n - 1])
      + (match parses[n - 1]
         case Some(root) => [(dispatched[n - 1], root)]
         case None => [])
  }

  function Heads(rounds: seq<Round>): seq<(Message, Node)> {
    seq(|rounds|, i requires 0 <= i < |rounds| => (rounds[i].message, rounds[i].root))
  }

  /** Every dispatched message that parsed has its round, in order, except the one being dispatched. */
  ghost predicate DispatchesOk(s: State) {
    var h := s.history;
    && |h.dispatched| == |h.parses|
    && WellFormed(h.dispatched, h.parses)
       == Heads(h.rounds) + (if s.machine.Dispatching? then [(s.machine.message, s.machine.root)] else [])
  }

  lemma HandleDispatches(s: State, parsed: Option<Node>)
    requires DispatchesOk(s) && s.machine.Handling?
    ensures DispatchesOk(HandleMessage(s, parsed))
  {
    var h, next := s.history, HandleMessage(s, parsed);
    if s.machine.message.Data? {
      var n := |h.dispatched|;
      assert next.history.dispatched[..n] == h.dispatched && next.history.parses[..n] == h.parses;
    }
  }

  lemma ExamineDispatches(s: State)
    requires DispatchesOk(s) && MachineEnabled(s, Examine)
    ensures DispatchesOk(ExamineEntry(s))
  {
    var h, next := s.history, ExamineEntry(s);
    if next.machine.Freeing? {
      assert Heads(next.history.rounds) == Heads(h.rounds) + [(s.machine.message, s.machine.root)];
    } else {
      assert Heads(next.history.rounds) == Heads(h.rounds);
    }
  }

  lemma SameDispatches(s: State, next: State)
    requires DispatchesOk(s) && next.history.dispatched == s.history.dispatched
    requires next.history.parses == s.history.parses && next.history.rounds == s.history.rounds
    requires !s.machine.Dispatching? && !next.machine.Dispatching?
    ensures DispatchesOk(next)
  {
  }

  lemma DispatchesMachine(s: State, step: MachineStep)
    requires DispatchesOk(s) && MachineEnabled(s, step)
    ensures DispatchesOk(MachineDo(s, step))
  {
    match step
    case Handle(parsed) => HandleDispatches(s, parsed);
    case Examine => ExamineDispatches(s);
    case _ => SameDispatches(s, MachineDo(s, step));
  }

  lemma DispatchesCall(s: State, t: Thread, step: CallStep)
    requires DispatchesOk(s) && CallEnabled(s, t, step)
    ensures DispatchesOk(CallDo(s, t, step))
  {
  }

  lemma DispatchesStep(s: State, step: Step)
    requires ThreadsOk(s) && DispatchesOk(s) && Enabled(s, step)
    ensures DispatchesOk(Do(s, step))
  {
    hide MachineDo, CallDo, WellFormed, Heads;
    match step
    case ByMachine(m) => DispatchesMachine(s, m);
    case ByCaller(t, c) => DispatchesCall(s, t, c);
    case ByWs(_) =>
    case ByApp(_) =>
    case SpuriousWakeup =>
  }

  /** The published part of the table is the log of completed registrations. */
  ghost predicate RegisteredOk(s: State) {
    s.index <= |s.slots| && s.slots[..s.index] == s.history.registered
  }

  lemma RegisteredApp(s: State, step: AppStep)
    requires TableOk(s) && RegisteredOk(s) && AppEnabled(s, step)
    ensures RegisteredOk(AppDo(s, step))
  {
    if step.Publish? {
      assert s.slots[s.index] == s.app.entry;
      assert s.slots[..s.index + 1] == s.slots[..s.index] + [s.slots[s.index]];
    }
  }

  lemma RegisteredMachine(s: State, step: MachineStep)
    requires RegisteredOk(s) && MachineEnabled(s, step)
    ensures RegisteredOk(MachineDo(s, step))
  {
  }

  lemma RegisteredCall(s: State, t: Thread, step: CallStep)
    requires RegisteredOk(s) && CallEnabled(s, t, step)
    ensures RegisteredOk(CallDo(s, t, step))
  {
  }

  lemma RegisteredStep(s: State, step: Step)
    requires TableOk(s) && RegisteredOk(s) && Enabled(s, step)
    ensures RegisteredOk(Do(s, step))
  {
    hide MachineDo, CallDo, AppDo;
    match step
    case ByMachine(m) => RegisteredMachine(s, m);
    case ByCaller(t, c) => RegisteredCall(s, t, c);
    case ByWs(_) =>
    case ByApp(a) => RegisteredApp(s, a);
    case SpuriousWakeup =>
  }

  // ---------- an instance at rest ----------

  /** While no thread runs and none was stopped, nobody is in the middle of anything. */
  ghost predicate RestOk(s: State) {
    s.machine.Absent? && !s.exitRequest ==>
      s.queue == [] && s.mutex.None? && (s.app.Idle? || s.app.Registering?)
  }

  lemma RestCall(s: State, t: Thread, step: CallStep)
    requires ThreadsOk(s) && RestOk(s) && CallEnabled(s, t, step)
    ensures RestOk(CallDo(s, t, step))
  {
  }

  lemma RestStep(s: State, step: Step)
    requires ThreadsOk(s) && RestOk(s) && Enabled(s, step)
    ensures RestOk(Do(s, step))
  {
    match step
    case ByMachine(_) =>
    case ByCaller(t, c) => RestCall(s, t, c);
    case ByWs(_) =>
    case ByApp(_) =>
    case SpuriousWakeup =>
  }

  // ---------- numbering ----------

  /** Later data messages have later buffers. */
  ghost predicate Numbered(messages: seq<Message>) {
    forall i, j :: 0 <= i < j < |messages| && messages[i].Data? && messages[j].Data?
              ==> messages[i].buffer < messages[j].buffer
  }

  ghost predicate BuffersBelow(messages: seq<Message>, n: nat) {
    forall m :: m in messages && m.Data? ==> m.buffer < n
  }

  /** Later completions fill later buffers. */
  ghost predicate CompletionsNumbered(http: seq<HttpEvent>, n: nat) {
    && (forall i :: 0 <= i < |http| && http[i].Complete? ==> http[i].buffer < n)
    && (forall i, j :: 0 <= i < j < |http| && http[i].Complete? && http[j].Complete?
              ==> http[i].buffer < http[j].buffer)
  }

  /** There is one web service thread: messages reach the queue in the order of their completions. */
  ghost predicate NumberedOk(s: State) {
    var h := s.history;
    && Numbered(h.accepted)
    && BuffersBelow(h.accepted, |h.posted|)
    && (HandedOver(s).Some? ==>
          && HandedOver(s).value.Data? && HandedOver(s).value.buffer < |h.posted|
          && BuffersBelow(h.accepted, HandedOver(s).value.buffer))
    && CompletionsNumbered(h.http, |h.posted|)
  }

  lemma NumberedMachine(s: State, step: MachineStep)
    requires ThreadsOk(s) && NumberedOk(s) && MachineEnabled(s, step)
    ensures NumberedOk(MachineDo(s, step))
  {
    var next := MachineDo(s, step);
    assert HandedOver(next) == HandedOver(s);
    assert next.history.accepted == s.history.accepted && next.history.http == s.history.http;
    assert next.history.posted == s.history.posted;
  }

  lemma NumberedStore(s: State, t: Thread)
    requires ThreadsOk(s) && NumberedOk(s) && CallEnabled(s, t, StoreCall)
    ensures NumberedOk(CallDo(s, t, StoreCall))
  {
    var next := CallDo(s, t, StoreCall);
    var m := CallOf(s, t).value.message;
    assert next.history.http == s.history.http && next.history.posted == s.history.posted;
    assert next.history.accepted == s.history.accepted || next.history.accepted == s.history.accepted + [m];
    if t == Ws {
      assert HandedOver(s) == Some(m) && HandedOver(next).None?;
    } else {
      assert HandedOver(next) == HandedOver(s) && m.Exit?;
    }
  }

  lemma NumberedCall(s: State, t: Thread, step: CallStep)
    requires ThreadsOk(s) && NumberedOk(s) && CallEnabled(s, t, step)
    ensures NumberedOk(CallDo(s, t, step))
  {
    if step.StoreCall? {
      NumberedStore(s, t);
    } else {
      var next := CallDo(s, t, step);
      assert next.history == s.history && HandedOver(next) == HandedOver(s);
    }
  }

  lemma NumberedWs(s: State, step: WsStep)
    requires ThreadsOk(s) && NumberedOk(s) && WsEnabled(s, step)
    ensures NumberedOk(WsDo(s, step))
  {
  }

  lemma NumberedApp(s: State, step: AppStep)
    requires ThreadsOk(s) && NumberedOk(s) && AppEnabled(s, step)
    ensures NumberedOk(AppDo(s, step))
  {
    var next := AppDo(s, step);
    assert next.history.(registered := s.history.registered) == s.history && HandedOver(next) == HandedOver(s);
  }

  lemma NumberedStep(s: State, step: Step)
    requires ThreadsOk(s) && NumberedOk(s) && Enabled(s, step)
    ensures NumberedOk(Do(s, step))
  {
    match step
    case ByMachine(m) => NumberedMachine(s, m);
    case ByCaller(t, c) => NumberedCall(s, t, c);
    case ByWs(w) => NumberedWs(s, w);
    case ByApp(a) => NumberedApp(s, a);
    case SpuriousWakeup =>
      assert Do(s, step).history == s.history && HandedOver(Do(s, step)) == HandedOver(s);
  }

  // ---------- all together ----------

  ghost predicate Inv(s: State) {
    MutexOk(s) && ThreadsOk(s) && WakeupOk(s) && OrderOk(s) && BuffersOk(s) && ConsumedOk(s)
    && BytesOk(s) && HttpOk(s) && CompletionsOk(s) && TableOk(s) && RoundsOk(s)
    && DispatchesOk(s) && RegisteredOk(s) && RestOk(s) && NumberedOk(s)
  }

  lemma InitInv()
    ensures Inv(Init())
  {
  }

  lemma StepInv(s: State, step: Step)
    requires Inv(s) && Enabled(s, step)
    ensures Inv(Do(s, step))
  {
    hide MutexOk, ThreadsOk, WakeupOk, OrderOk, BuffersOk, ConsumedOk, BytesOk, HttpOk, CompletionsOk, TableOk,
         RoundsOk, DispatchesOk, RegisteredOk, RestOk, NumberedOk, Do, Enabled;
    MutexStep(s, step);
    ThreadsStep(s, step);
    WakeupStep(s, step);
    OrderStep(s, step);
    BuffersStep(s, step);
    ConsumedStep(s, step);
    BytesStep(s, step);
    CompletionsStep(s, step);
    HttpStep(s, step);
    TableStep(s, step);
    RoundsStep(s, step);
    DispatchesStep(s, step);
    RegisteredStep(s, step);
    RestStep(s, step);
    NumberedStep(s, step);
  }

  lemma {:induction false} RunInv(s: State, steps: seq<Step>)
    requires Inv(s) && CanRun(s, steps)
    ensures Inv(Run(s, steps))
    decreases steps
  {
    if steps != [] {
      StepInv(s, steps[0]);
      RunInv(Do(s, steps[0]), steps[1..]);
    }
  }

  lemma ReachableInv(s: State)
    requires Reachable(s)
    ensures Inv(s)
  {
    var steps :| CanRun(Init(), steps) && Run(Init(), steps) == s;
    InitInv();
    RunInv(Init(), steps);
  }
}
