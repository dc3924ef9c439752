/** The control plane as a step system.  Three threads share the queue, its mutex and condition variable, the
    exit flag and the callback table:
    - the state machine thread (`service_state_machine`), the only consumer;
    - the web service thread (`service_ws_requests` with `callback_http`), which enqueues received messages;
    - the application, which calls Start, Stop and RegisterCallbackOnMessage.
    A step is one action of one thread between two points where others may run.  Fields after `history` record
    what happened and are never read by the code. */
module ControlPlane {
  import opened Wrappers
  import opened YamlTree
  import opened MessageQueue
  import opened HttpSession
  import opened FieldPaths
  import opened Callbacks

  datatype Thread = Machine | Ws | App

  /** Positions inside `enqueue_message` (src/ut_control_plane.c:97-109). */
  datatype Phase = WantLock | Locked | Stored | Unlocking

  datatype Call = Call(message: Message, phase: Phase)

  /** Positions inside `service_state_machine`, `dequeue_message` and `call_callback_on_match`. */
  datatype MachinePc =
    | Absent
    | Starting
    | LoopHead
    | WantQueue
    | Checking
    | Parked
    | Woken
    | Taken(message: Message)
    | Handling(message: Message)
    | Dispatching(message: Message, root: Node, registered: nat, i: nat)
    | Freeing(message: Message)
    | Joining
    | Ended

  datatype WsPc = NoWs | WsHead | Serving | Posting(session: nat, call: Call) | Resetting(session: nat) | WsEnded

  datatype AppPc = Idle | Stopping(call: Call) | AwaitingMachine | Registering(entry: Slot, written: nat)

  datatype HttpEvent =
    | Chunk(session: nat, bytes: seq<Byte>, accepted: bool)
    | Complete(session: nat, buffer: nat)

  /** One finished dispatch: the message, its parsed root, the table size at its start, the number of entries
      examined, and the entries called. */
  datatype Round = Round(message: Message, root: Node, registered: nat, examined: nat, calls: seq<nat>)

  datatype History = History(
    accepted: seq<Message>,     // stored in the queue
    dequeued: seq<Message>,
    dispatched: seq<Message>,   // handed to call_callback_on_match
    parses: seq<Option<Node>>,  // what parsing each of them gave
    posted: seq<seq<Byte>>,     // the content of each allocated buffer
    freed: multiset<nat>,       // how often each buffer was freed
    refused: multiset<nat>,     // buffers of messages a full queue dropped
    http: seq<HttpEvent>,
    calls: seq<nat>,            // entries called so far in the current dispatch
    rounds: seq<Round>,
    registered: seq<Slot>)      // completed registrations

  datatype State = State(
    mutex: Option<Thread>,
    queue: seq<Message>,
    exitRequest: bool,
    machine: MachinePc,
    ws: WsPc,
    app: AppPc,
    handle: bool,               // state_machine_thread_handle is set
    slots: seq<Slot>,
    index: nat,
    sessions: map<nat, seq<Byte>>,
    history: History)

  function Init(): State {
    State(None, [], false, Absent, NoWs, Idle, false, seq(MAX_CALLBACK_ENTRIES, _ => EMPTY_SLOT), 0, map[],
          History([], [], [], [], [], multiset{}, multiset{}, [], [], [], []))
  }

  datatype MachineStep =
    | CreateWs | TestExit | LockQueue | CheckQueue | UnlockQueue | Handle(parsed: Option<Node>) | Examine | Free
    | JoinWs

  /** Inside `enqueue_message`. */
  datatype CallStep = LockCall | StoreCall | SignalCall | UnlockCall

  datatype WsStep =
    | WsTestExit | WsReturn | Body(session: nat, chunk: seq<Byte>) | Completion(session: nat) | ResetSession

  datatype AppStep = Start | Stop | JoinMachine | Register(entry: Slot) | WriteField | Publish

  /** A spurious wakeup moves the state machine thread without a signal. */
  datatype Step =
    | ByMachine(machineStep: MachineStep)
    | ByCaller(thread: Thread, callStep: CallStep)
    | ByWs(wsStep: WsStep)
    | ByApp(appStep: AppStep)
    | SpuriousWakeup

  /** The call of `enqueue_message` a thread is in. */
  function CallOf(s: State, t: Thread): Option<Call> {
    match t
    case Ws => if s.ws.Posting? then Some(s.ws.call) else None
    case App => if s.app.Stopping? then Some(s.app.call) else None
    case Machine => None
  }

  predicate InPhase(s: State, t: Thread, phase: Phase) {
    CallOf(s, t).Some? && CallOf(s, t).value.phase == phase
  }

  function SetPhase(s: State, t: Thread, phase: Phase): State
    requires CallOf(s, t).Some?
  {
    if t == Ws then s.(ws := s.ws.(call := s.ws.call.(phase := phase)))
    else s.(app := s.app.(call := s.app.call.(phase := phase)))
  }

  /** What a session has stored; a new session has nothing. */
  function SessionBytes(s: State, session: nat): seq<Byte> {
    if session in s.sessions then s.sessions[session] else []
  }

  function Buffer(m: Message): multiset<nat> {
    match m
    case Data(buffer, _) => multiset{buffer}
    case Exit => multiset{}
  }

  // ---------- the state machine thread ----------

  /** The bounds on the table in the steps that read or write it hold in every reachable state. */
  predicate MachineEnabled(s: State, step: MachineStep) {
    match step
    case CreateWs => s.machine.Starting?
    case TestExit => s.machine.LoopHead?
    case LockQueue => (s.machine.WantQueue? || s.machine.Woken?) && s.mutex.None?
    case CheckQueue => s.machine.Checking?
    case UnlockQueue => s.machine.Taken?
    case Handle(_) => s.machine.Handling?
    case Examine => s.machine.Dispatching? && s.index <= |s.slots|
    case Free => s.machine.Freeing?
    case JoinWs => s.machine.Joining? && s.ws.WsEnded?
  }

  function MachineDo(s: State, step: MachineStep): State
    requires MachineEnabled(s, step)
  {
    var h := s.history;
    match step
    case CreateWs => s.(machine := LoopHead, ws := WsHead)
    case TestExit => s.(machine := if s.exitRequest then Joining else WantQueue)
    case LockQueue => s.(machine := Checking, mutex := Some(Machine))
    case CheckQueue =>
      if s.queue == [] then s.(machine := Parked, mutex := None)
      else s.(machine := Taken(s.queue[0]), queue := s.queue[1..], history := h.(dequeued := h.dequeued + [s.queue[0]]))
    case UnlockQueue => s.(machine := Handling(s.machine.message), mutex := None)
    case Handle(parsed) => HandleMessage(s, parsed)
    case Examine => ExamineEntry(s)
    case Free => s.(machine := LoopHead, history := h.(freed := h.freed + Buffer(s.machine.message)))
    case JoinWs => s.(machine := Ended, ws := NoWs)
  }

  function HandleMessage(s: State, parsed: Option<Node>): State
    requires s.machine.Handling?
  {
    var m, h := s.machine.message, s.history;
    var logged := h.(dispatched := h.dispatched + [m], parses := h.parses + [parsed]);
    if m.Exit? then s.(exitRequest := true, machine := Freeing(m))
    else if parsed.None? then s.(machine := Freeing(m), history := logged)
    else s.(machine := Dispatching(m, parsed.value, s.index, 0), history := logged.(calls := []))
  }

  /** One round of the loop over the table, whose bound is read again each time. */
  function ExamineEntry(s: State): State
    requires s.machine.Dispatching? && s.index <= |s.slots|
  {
    var Dispatching(m, root, registered, i) := s.machine;
    var h := s.history;
    if i < s.index then
      s.(machine := Dispatching(m, root, registered, i + 1),
         history := h.(calls := h.calls + (if FieldPresent(root, s.slots[i].key) then [i] else [])))
    else
      s.(machine := Freeing(m), history := h.(rounds := h.rounds + [Round(m, root, registered, i, h.calls)]))
  }

  // ---------- enqueue_message ----------

  predicate CallEnabled(s: State, t: Thread, step: CallStep) {
    match step
    case LockCall => InPhase(s, t, WantLock) && s.mutex.None?
    case StoreCall => InPhase(s, t, Locked)
    case SignalCall => InPhase(s, t, Stored)
    case UnlockCall => InPhase(s, t, Unlocking)
  }

  function CallDo(s: State, t: Thread, step: CallStep): State
    requires CallEnabled(s, t, step)
  {
    match step
    case LockCall => SetPhase(s, t, Locked).(mutex := Some(t))
    case StoreCall => StoreMessage(s, t)
    case SignalCall => SetPhase(s, t, Unlocking).(machine := if s.machine.Parked? then Woken else s.machine)
    case UnlockCall =>
      if t == Ws then s.(mutex := None, ws := Resetting(s.ws.session))
      else s.(mutex := None, app := AwaitingMachine)
  }

  function StoreMessage(s: State, t: Thread): State
    requires InPhase(s, t, Locked)
  {
    var m, h := CallOf(s, t).value.message, s.history;
    if |s.queue| < MAX_MESSAGES then
      SetPhase(s, t, Stored).(queue := Enqueued(s.queue, m), history := h.(accepted := h.accepted + [m]))
    else
      SetPhase(s, t, Unlocking).(history := h.(refused := h.refused + Buffer(m)))
  }

  // ---------- the web service thread ----------

  predicate WsEnabled(s: State, step: WsStep) {
    match step
    case WsTestExit => s.ws.WsHead?
    case ResetSession => s.ws.Resetting?
    case _ => s.ws.Serving?
  }

  function WsDo(s: State, step: WsStep): State
    requires WsEnabled(s, step)
  {
    match step
    case WsTestExit => s.(ws := if s.exitRequest then WsEnded else Serving)
    case WsReturn => s.(ws := WsHead)
    case Body(session, chunk) => ReceiveChunk(s, session, chunk)
    case Completion(session) => CompleteBody(s, session)
    case ResetSession => s.(ws := Serving, sessions := s.sessions[s.ws.session := []])
  }

  function ReceiveChunk(s: State, session: nat, chunk: seq<Byte>): State {
    var stored, h := SessionBytes(s, session), s.history;
    var accepted := Fits(stored, chunk);
    s.(sessions := if accepted then s.sessions[session := stored + chunk] else s.sessions,
       history := h.(http := h.http + [Chunk(session, chunk, accepted)]))
  }

  /** The new message owns a new buffer with the bytes stored so far. */
  function CompleteBody(s: State, session: nat): State {
    var stored, h := SessionBytes(s, session), s.history;
    s.(ws := Posting(session, Call(Data(|h.posted|, stored), WantLock)),
       history := h.(posted := h.posted + [stored], http := h.http + [Complete(session, |h.posted|)]))
  }

  // ---------- the application ----------

  predicate AppEnabled(s: State, step: AppStep) {
    match step
    case Start => s.app.Idle? && !s.handle   // one state machine thread at a time
    case Stop => s.app.Idle?
    case JoinMachine => s.app.AwaitingMachine? && s.machine.Ended?
    case Register(entry) => s.app.Idle? && |entry.key| < MAX_ELEMENT_SIZE
    case WriteField => s.app.Registering? && s.app.written < 3 && s.index < |s.slots|
    case Publish => s.app.Registering? && s.app.written == 3
  }

  function AppDo(s: State, step: AppStep): State
    requires AppEnabled(s, step)
  {
    match step
    case Start => s.(handle := true, machine := Starting)
    case Stop => if s.handle then s.(app := Stopping(Call(Exit, WantLock))) else s
    case JoinMachine => s.(machine := Absent, handle := false, app := Idle)
    case Register(entry) => if s.index >= MAX_CALLBACK_ENTRIES then s else s.(app := Registering(entry, 0))
    case WriteField => WriteSlot(s)
    case Publish =>
      s.(index := s.index + 1, app := Idle,
         history := s.history.(registered := s.history.registered + [s.app.entry]))
  }

  function WriteSlot(s: State): State
    requires s.app.Registering? && s.index < |s.slots|
  {
    var Registering(e, written) := s.app;
    var slot := s.slots[s.index];
    var next := if written == 0 then slot.(key := e.key)
                else if written == 1 then slot.(callback := e.callback)
                else slot.(userData := e.userData);
    s.(slots := s.slots[s.index := next], app := Registering(e, written + 1))
  }

  // ---------- steps and runs ----------

  predicate Enabled(s: State, step: Step) {
    match step
    case ByMachine(m) => MachineEnabled(s, m)
    case ByCaller(t, c) => CallEnabled(s, t, c)
    case ByWs(w) => WsEnabled(s, w)
    case ByApp(a) => AppEnabled(s, a)
    case SpuriousWakeup => s.machine.Parked?
  }

  function Do(s: State, step: Step): State
    requires Enabled(s, step)
  {
    match step
    case ByMachine(m) => MachineDo(s, m)
    case ByCaller(t, c) => CallDo(s, t, c)
    case ByWs(w) => WsDo(s, w)
    case ByApp(a) => AppDo(s, a)
    case SpuriousWakeup => s.(machine := Woken)
  }

  ghost predicate CanRun(s: State, steps: seq<Step>)
    decreases steps
  {
    steps != [] ==> Enabled(s, steps[0]) && CanRun(Do(s, steps[0]), steps[1..])
  }

  ghost function Run(s: State, steps: seq<Step>): State
    requires CanRun(s, steps)
    decreases steps
  {
    if steps == [] then s else Run(Do(s, steps[0]), steps[1..])
  }

  /** Some run leads from s to t. */
  ghost predicate LeadsTo(s: State, t: State) {
    exists steps :: CanRun(s, steps) && Run(s, steps) == t
  }

  ghost predicate Reachable(s: State) {
    LeadsTo(Init(), s)
  }

  lemma {:induction false} RunConcat(s: State, a: seq<Step>, b: seq<Step>)
    requires CanRun(s, a) && CanRun(Run(s, a), b)
    ensures CanRun(s, a + b) && Run(s, a + b) == Run(Run(s, a), b)
    decreases a
  {
    if a == [] {
      assert a + b == b;
    } else {
      assert (a + b)[1..] == a[1..] + b;
      RunConcat(Do(s, a[0]), a[1..], b);
    }
  }

  lemma LeadsToItself(s: State)
    ensures LeadsTo(s, s)
  {
    assert CanRun(s, []) && Run(s, []) == s;
  }

  lemma LeadsOneFurther(s: State, t: State, step: Step)
    requires LeadsTo(s, t) && Enabled(t, step)
    ensures LeadsTo(s, Do(t, step))
  {
    var steps :| CanRun(s, steps) && Run(s, steps) == t;
    var next := Do(t, step);
    assert [step][1..] == [] && CanRun(next, []) && Run(next, []) == next;
    assert CanRun(t, [step]) && Run(t, [step]) == next;
    RunConcat(s, steps, [step]);
  }

  lemma LeadsFurther(s: State, t: State, steps: seq<Step>)
    requires LeadsTo(s, t) && CanRun(t, steps)
    ensures LeadsTo(s, Run(t, steps))
  {
    var first :| CanRun(s, first) && Run(s, first) == t;
    RunConcat(s, first, steps);
  }
}
