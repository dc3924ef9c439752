/** What the invariants say about whole runs of the control plane. */
module ControlPlaneRuns {
  import opened Wrappers
  import opened YamlTree
  import opened MessageQueue
  import opened HttpSession
  import opened FieldPaths
  import opened Callbacks
  import opened ControlPlane
  import opened ControlPlaneInvariants

  // ---------- order ----------

  /** The messages before the first EXIT. */
  function BeforeExit(messages: seq<Message>): seq<Message> {
    if messages == [] || messages[0].Exit? then [] else [messages[0]] + BeforeExit(messages[1..])
  }

  lemma {:induction false} BeforeExitConcat(a: seq<Message>, b: seq<Message>)
    requires AllData(a)
    ensures BeforeExit(a + b) == a + BeforeExit(b)
  {
    if a == [] {
      assert a + b == b;
    } else {
      assert a[0] in a && (a + b)[1..] == a[1..] + b;
      BeforeExitConcat(a[1..], b);
    }
  }

  /** Accepted = dequeued ++ queue; the data messages dispatched are an in-order prefix of those accepted before
      the first EXIT, and all of them once the EXIT was handled, for the rest of the run. */
  lemma DispatchedInOrder(s: State)
    requires Reachable(s)
    ensures s.history.accepted == s.history.dequeued + s.queue && |s.queue| <= 32
    ensures s.history.dispatched <= BeforeExit(s.history.accepted)
    ensures s.exitRequest ==> s.history.dispatched == BeforeExit(s.history.accepted)
  {
    ReachableInv(s);
    var h := s.history;
    var rest := (if s.exitRequest then [Exit] else InHand(s)) + s.queue;
    assert h.accepted == h.dispatched + rest;
    BeforeExitConcat(h.dispatched, rest);
    if s.exitRequest {
      assert rest[0].Exit?;
      assert h.dispatched + [] == h.dispatched;
    }
  }

  lemma StepOnlyAppends(s: State, step: Step)
    requires ThreadsOk(s) && Enabled(s, step)
    ensures s.history.accepted <= Do(s, step).history.accepted
    ensures s.exitRequest ==> Do(s, step).exitRequest
  {
    match step
    case ByMachine(m) => assert MachineDo(s, m).history.accepted == s.history.accepted;
    case ByCaller(t, c) => assert s.history.accepted <= CallDo(s, t, c).history.accepted;
    case ByWs(w) => assert WsDo(s, w).history.accepted == s.history.accepted;
    case ByApp(a) => assert AppDo(s, a).history.accepted == s.history.accepted;
    case SpuriousWakeup =>
  }

  lemma {:induction false} RunOnlyAppends(s: State, steps: seq<Step>)
    requires Inv(s) && CanRun(s, steps)
    ensures s.history.accepted <= Run(s, steps).history.accepted
    ensures s.exitRequest ==> Run(s, steps).exitRequest
    decreases steps
  {
    if steps != [] {
      StepOnlyAppends(s, steps[0]);
      StepInv(s, steps[0]);
      RunOnlyAppends(Do(s, steps[0]), steps[1..]);
    }
  }

  /** The exit flag is never cleared: once an EXIT was handled, no later Start dispatches anything. */
  lemma NothingDispatchedAfterExit(s: State, steps: seq<Step>)
    requires Reachable(s) && s.exitRequest && CanRun(s, steps)
    ensures Run(s, steps).exitRequest
    ensures Run(s, steps).history.dispatched == s.history.dispatched
    ensures Run(s, steps).history.dequeued == s.history.dequeued
  {
    ReachableInv(s);
    RunInv(s, steps);
    RunOnlyAppends(s, steps);
    var last := Run(s, steps);
    SameBeforeExit(s.history.dispatched, s.queue, last.history.dispatched, last.queue,
                   s.history.accepted, last.history.accepted);
  }

  lemma SameBeforeExit(d1: seq<Message>, q1: seq<Message>, d2: seq<Message>, q2: seq<Message>,
                       a1: seq<Message>, a2: seq<Message>)
    requires AllData(d1) && AllData(d2) && a1 == d1 + [Exit] + q1 && a2 == d2 + [Exit] + q2 && a1 <= a2
    ensures d1 == d2
  {
    assert d1 + [Exit] + q1 == d1 + ([Exit] + q1) && d2 + [Exit] + q2 == d2 + ([Exit] + q2);
    var more := a2[|a1|..];
    assert a2 == d1 + ([Exit] + q1 + more);
    BeforeExitConcat(d1, [Exit] + q1 + more);
    BeforeExitConcat(d2, [Exit] + q2);
    assert d1 + [] == d1 && d2 + [] == d2;
  }

  // ---------- the order of the requests ----------

  /** Event e is the completion that made message m. */
  predicate CompletedAt(http: seq<HttpEvent>, e: nat, m: Message) {
    m.Data? && e < |http| && http[e].Complete? && http[e].buffer == m.buffer
  }

  /** Messages are dispatched in the order in which their HTTP requests completed, over all sessions. */
  lemma DispatchOrderIsCompletionOrder(s: State, i: nat, j: nat, ei: nat, ej: nat)
    requires Reachable(s) && i < |s.history.dispatched| && j < |s.history.dispatched|
    requires CompletedAt(s.history.http, ei, s.history.dispatched[i])
    requires CompletedAt(s.history.http, ej, s.history.dispatched[j])
    ensures i < j <==> ei < ej
    ensures i == j <==> ei == ej
  {
    ReachableInv(s);
    var h := s.history;
    assert h.accepted == h.dispatched + ((if s.exitRequest then [Exit] else InHand(s)) + s.queue);
    assert h.accepted[i] == h.dispatched[i] && h.accepted[j] == h.dispatched[j];
    assert Numbered(h.accepted) && CompletionsNumbered(h.http, |h.posted|);
  }

  // ---------- buffers ----------

  /** In every reachable state each buffer the web service allocated is in exactly one place: on its way to the
      queue, in the queue, in the hands of the state machine, freed, or dropped by a full queue. */
  lemma BufferInExactlyOnePlace(s: State, b: nat)
    requires Reachable(s)
    ensures InOptional(HandedOver(s), b) + InMessages(s.queue, b) + InOptional(InFlight(s), b)
            + s.history.freed[b] + s.history.refused[b]
         == if b < |s.history.posted| then 1 else 0
  {
    ReachableInv(s);
    assert Places(s, b) == if b < |s.history.posted| then 1 else 0;
  }

  /** No buffer is freed twice, and no callback runs on a freed one. */
  lemma NoUseAfterFree(s: State)
    requires Reachable(s)
    ensures forall b: nat :: s.history.freed[b] <= 1
    ensures s.machine.Dispatching? ==>
              s.machine.message.Data? && s.history.freed[s.machine.message.buffer] == 0
              && InMessages(s.queue, s.machine.message.buffer) == 0
  {
    ReachableInv(s);
    forall b: nat ensures s.history.freed[b] <= 1 {
      BufferInExactlyOnePlace(s, b);
    }
    if s.machine.Dispatching? {
      BufferInExactlyOnePlace(s, s.machine.message.buffer);
    }
  }

  // ---------- HTTP reassembly ----------

  /** In any interleaving of sessions, each completed message is the concatenation of that session's accepted
      chunks since its previous completion, fewer than 4096 bytes, and a chunk is accepted iff it still fits. */
  lemma MessagesAreReassembled(s: State, i: nat)
    requires Reachable(s) && i < |s.history.http|
    ensures var e, before := s.history.http[i], Since(s.history.http, i, s.history.http[i].session);
            if e.Complete? then
              e.buffer < |s.history.posted| && s.history.posted[e.buffer] == before && |before| < 4096
            else
              (e.accepted <==> |before| + |e.bytes| < 4096)
  {
    ReachableInv(s);
    assert EventOk(s.history.http, s.history.posted, i);
  }

  /** End to end: the bytes the state machine dequeues are those that one completion assembled from the accepted
      chunks of its session, and no completion's message is dequeued twice. */
  lemma DequeuedMessagesAreReassembled(s: State, m: Message)
    requires Reachable(s) && m in s.history.dequeued && m.Data?
    ensures exists i :: 0 <= i < |s.history.http| && s.history.http[i].Complete? && s.history.http[i].buffer == m.buffer
                        && m.bytes == Since(s.history.http, i, s.history.http[i].session)
    ensures InMessages(s.history.dequeued, m.buffer) == 1
  {
    ReachableInv(s);
    var h := s.history;
    assert m in h.accepted;
    assert Genuine(h.posted, m);
    assert Completed(h.http, m.buffer);
    var i :| 0 <= i < |h.http| && h.http[i].Complete? && h.http[i].buffer == m.buffer;
    assert EventOk(h.http, h.posted, i);
    BufferInExactlyOnePlace(s, m.buffer);
    MemberIsCounted(h.dequeued, m);
  }

  lemma {:induction false} MemberIsCounted(messages: seq<Message>, m: Message)
    requires m in messages && m.Data?
    ensures InMessages(messages, m.buffer) >= 1
  {
    if messages[0] != m {
      MemberIsCounted(messages[1..], m);
    }
  }

  /** Every dequeued buffer is freed again, except the one in the hands of the state machine. */
  lemma DequeuedBuffersAreFreed(s: State, b: nat)
    requires Reachable(s)
    ensures InMessages(s.history.dequeued, b) == InOptional(InFlight(s), b) + s.history.freed[b]
  {
    ReachableInv(s);
  }

  // ---------- callbacks ----------

  lemma {:induction false} TableOnlyGrows(s: State, steps: seq<Step>)
    requires Inv(s) && CanRun(s, steps)
    ensures TableGrows(s, Run(s, steps)) && Run(s, steps).index <= 32
    decreases steps
  {
    if steps != [] {
      var next := Do(s, steps[0]);
      TableStep(s, steps[0]);
      StepInv(s, steps[0]);
      TableOnlyGrows(next, steps[1..]);
      var last := Run(s, steps);
      assert last.slots[..s.index] == last.slots[..next.index][..s.index] == next.slots[..s.index];
    }
  }

  /** Every finished dispatch called, in registration order and once each, precisely the examined entries whose
      key is present; all entries registered before it began were examined. */
  lemma CallbacksExactlyOnMatch(s: State, r: Round)
    requires Reachable(s) && r in s.history.rounds
    ensures r.registered <= r.examined <= s.index <= 32 == |s.slots|
    ensures forall i: nat :: i in r.calls <==> i < r.examined && FieldPresent(r.root, s.slots[i].key)
    ensures Increasing(r.calls)
  {
    ReachableInv(s);
    assert RoundOk(s.slots, s.index, r);
    InvokedExactly(r.root, s.slots, r.examined);
  }

  /** Entries whose keys differ only in `.` and `/` are called for the same messages. */
  lemma DotAndSlashKeysAgree(s: State, r: Round, i: nat, j: nat)
    requires Reachable(s) && r in s.history.rounds && i < r.registered && j < r.registered
    requires r.registered <= |s.slots| && DotToSlash(s.slots[i].key) == DotToSlash(s.slots[j].key)
    ensures i in r.calls <==> j in r.calls
  {
    CallbacksExactlyOnMatch(s, r);
    ReachableInv(s);
    assert |s.slots[i].key| < MAX_ELEMENT_SIZE && |s.slots[j].key| < MAX_ELEMENT_SIZE;
  }

  // ---------- wakeups ----------

  /** Whenever no thread holds the mutex, a parked state machine thread has nothing to do. */
  lemma NoLostWakeup(s: State)
    requires Reachable(s) && s.machine.Parked? && s.mutex.None?
    ensures s.queue == []
  {
    ReachableInv(s);
  }
}
