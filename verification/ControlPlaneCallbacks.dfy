/** From the inputs of a run to the callbacks made: every message that parses, and every registration, takes
    effect. */
module ControlPlaneCallbacks {
  import opened Wrappers
  import opened YamlTree
  import opened MessageQueue
  import opened FieldPaths
  import opened Callbacks
  import opened ControlPlane
  import opened ControlPlaneInvariants
  import opened ControlPlaneRuns
  import opened ControlPlaneRequests

  // ---------- what the logs record ----------

  function HandledBy(s: State, step: Step): seq<(Message, Option<Node>)>
    requires Enabled(s, step)
  {
    match step
    case ByMachine(Handle(parsed)) => if s.machine.message.Data? then [(s.machine.message, parsed)] else []
    case _ => []
  }

  /** The data messages handled in a run, each with the result of parsing it. */
  ghost function Handled(s: State, steps: seq<Step>): seq<(Message, Option<Node>)>
    requires CanRun(s, steps)
    decreases steps
  {
    if steps == [] then [] else HandledBy(s, steps[0]) + Handled(Do(s, steps[0]), steps[1..])
  }

  function Dispatches(h: History): seq<(Message, Option<Node>)>
    requires |h.dispatched| == |h.parses|
  {
    seq(|h.parses|, i requires 0 <= i < |h.parses| => (h.dispatched[i], h.parses[i]))
  }

  lemma HandleIsDispatched(s: State, parsed: Option<Node>)
    requires |s.history.dispatched| == |s.history.parses| && s.machine.Handling?
    ensures var next := HandleMessage(s, parsed);
            |next.history.dispatched| == |next.history.parses|
            && Dispatches(next.history)
               == Dispatches(s.history) + (if s.machine.message.Data? then [(s.machine.message, parsed)] else [])
  {
    if s.machine.message.Exit? {
      assert Dispatches(s.history) + [] == Dispatches(s.history);
    }
  }

  lemma MachineIsDispatched(s: State, m: MachineStep)
    requires |s.history.dispatched| == |s.history.parses| && MachineEnabled(s, m)
    ensures var next := MachineDo(s, m);
            |next.history.dispatched| == |next.history.parses|
            && Dispatches(next.history) == Dispatches(s.history) + HandledBy(s, ByMachine(m))
  {
    if m.Handle? {
      HandleIsDispatched(s, m.parsed);
      hide HandleMessage, Dispatches;
    } else {
      var next := MachineDo(s, m);
      assert next.history.dispatched == s.history.dispatched && next.history.parses == s.history.parses;
      assert Dispatches(s.history) + [] == Dispatches(s.history);
    }
  }

  lemma StepIsDispatched(s: State, step: Step)
    requires |s.history.dispatched| == |s.history.parses| && Enabled(s, step)
    ensures var next := Do(s, step);
            |next.history.dispatched| == |next.history.parses|
            && Dispatches(next.history) == Dispatches(s.history) + HandledBy(s, step)
  {
    hide MachineDo;
    match step
    case ByMachine(m) => MachineIsDispatched(s, m);
    case ByCaller(t, c) =>
      var next := CallDo(s, t, c);
      assert next.history.dispatched == s.history.dispatched && next.history.parses == s.history.parses;
    case ByWs(_) =>
    case ByApp(_) =>
    case SpuriousWakeup =>
  }

  /** The dispatched messages of a run are exactly the data messages handled, with the results of parsing them. */
  lemma {:induction false} DispatchedAreHandled(s: State, steps: seq<Step>)
    requires |s.history.dispatched| == |s.history.parses| && CanRun(s, steps)
    ensures var last := Run(s, steps);
            |last.history.dispatched| == |last.history.parses|
            && Dispatches(last.history) == Dispatches(s.history) + Handled(s, steps)
    decreases steps
  {
    if steps != [] {
      hide Dispatches, HandledBy, Do, Enabled;
      StepIsDispatched(s, steps[0]);
      var next := Do(s, steps[0]);
      DispatchedAreHandled(next, steps[1..]);
      ConcatAssociates(Dispatches(s.history), HandledBy(s, steps[0]), Handled(next, steps[1..]));
    }
  }

  /** The finished rounds are those of the dispatched messages that parsed, in order, with their roots; the only
      one missing is the dispatch going on. */
  lemma ParsedMessagesGetRounds(s: State)
    requires Reachable(s)
    ensures |s.history.dispatched| == |s.history.parses|
    ensures WellFormed(s.history.dispatched, s.history.parses)
         == Heads(s.history.rounds) + (if s.machine.Dispatching? then [(s.machine.message, s.machine.root)] else [])
  {
    ReachableInv(s);
  }

  // ---------- one message, from its handling to its callbacks ----------

  /** Round k belongs to this message and examines at least the first n entries: it is finished, or going on. */
  ghost predicate Underway(s: State, k: nat, m: Message, root: Node, n: nat) {
    var rounds := s.history.rounds;
    if |rounds| > k then rounds[k].message == m && rounds[k].root == root && rounds[k].examined >= n
    else |rounds| == k && s.machine.Dispatching? && s.machine.message == m && s.machine.root == root && s.index >= n
  }

  lemma UnderwayMachine(s: State, step: MachineStep, k: nat, m: Message, root: Node, n: nat)
    requires Underway(s, k, m, root, n) && MachineEnabled(s, step)
    ensures Underway(MachineDo(s, step), k, m, root, n)
  {
    if !step.Examine? {
      assert MachineDo(s, step).history.rounds == s.history.rounds && MachineDo(s, step).index == s.index;
    }
  }

  lemma UnderwayCall(s: State, t: Thread, step: CallStep, k: nat, m: Message, root: Node, n: nat)
    requires Underway(s, k, m, root, n) && CallEnabled(s, t, step)
    ensures Underway(CallDo(s, t, step), k, m, root, n)
  {
    assert CallDo(s, t, step).history.rounds == s.history.rounds && CallDo(s, t, step).index == s.index;
  }

  lemma UnderwayStep(s: State, step: Step, k: nat, m: Message, root: Node, n: nat)
    requires ThreadsOk(s) && Underway(s, k, m, root, n) && Enabled(s, step)
    ensures Underway(Do(s, step), k, m, root, n)
  {
    hide MachineDo, CallDo;
    match step
    case ByMachine(step) => UnderwayMachine(s, step, k, m, root, n);
    case ByCaller(t, c) => UnderwayCall(s, t, c, k, m, root, n);
    case ByWs(_) =>
    case ByApp(_) =>
    case SpuriousWakeup =>
  }

  lemma {:induction false} UnderwayRun(s: State, steps: seq<Step>, k: nat, m: Message, root: Node, n: nat)
    requires Inv(s) && Underway(s, k, m, root, n) && CanRun(s, steps)
    ensures Underway(Run(s, steps), k, m, root, n)
    decreases steps
  {
    if steps != [] {
      UnderwayStep(s, steps[0], k, m, root, n);
      StepInv(s, steps[0]);
      UnderwayRun(Do(s, steps[0]), steps[1..], k, m, root, n);
    }
  }

  /** The next round is this message's.  In every continuation, unless its dispatch is still going on, that round has
      called every entry of `table` whose key is present, besides only later entries with a present key, once each
      and in order of registration. */
  ghost predicate Called(s: State, last: State, m: Message, root: Node, table: seq<Slot>) {
    var k := |s.history.rounds|;
    if |last.history.rounds| <= k then last.machine.Dispatching? && last.machine.message == m
    else
      var r := last.history.rounds[k];
      r.message == m && r.root == root && |table| <= last.index <= |last.slots|
      && (forall i: nat :: i < |table| ==> (i in r.calls <==> FieldPresent(root, table[i].key)))
      && (forall i: nat :: i in r.calls ==> i < last.index && FieldPresent(root, last.slots[i].key))
      && Increasing(r.calls)
  }

  /** A dispatch calls every matching entry that is registered at any moment while it goes on: the loop reads the
      size of the table again each time. */
  lemma DispatchCallsEntries(s: State, steps: seq<Step>)
    requires Reachable(s) && s.machine.Dispatching? && CanRun(s, steps)
    ensures s.index <= |s.slots|
    ensures Called(s, Run(s, steps), s.machine.message, s.machine.root, s.slots[..s.index])
  {
    var k, last := |s.history.rounds|, Run(s, steps);
    ReachableInv(s);
    UnderwayRun(s, steps, k, s.machine.message, s.machine.root, s.index);
    TableOnlyGrows(s, steps);
    LeadsFurther(Init(), s, steps);
    if |last.history.rounds| > k {
      CallbacksExactlyOnMatch(last, last.history.rounds[k]);
      hide Inv, FieldPresent;
      forall i: nat | i < s.index ensures last.slots[i] == s.slots[..s.index][i] {
        assert last.slots[i] == last.slots[..s.index][i];
      }
    }
  }

  /** A handled message that parses is dispatched to every matching entry registered before. */
  lemma HandledMessageCallsEntries(s: State, root: Node, steps: seq<Step>)
    requires Reachable(s) && s.machine.Handling? && s.machine.message.Data?
    requires CanRun(Do(s, ByMachine(Handle(Some(root)))), steps)
    ensures s.index <= |s.slots|
    ensures Called(s, Run(Do(s, ByMachine(Handle(Some(root)))), steps), s.machine.message, root, s.slots[..s.index])
  {
    var step := ByMachine(Handle(Some(root)));
    LeadsOneFurther(Init(), s, step);
    DispatchCallsEntries(Do(s, step), steps);
  }

  // ---------- one registration, from the call to the table ----------

  /** In every reachable state the published table is the log of completed registrations. */
  lemma TableIsRegistrations(s: State)
    requires Reachable(s)
    ensures s.index <= |s.slots| && s.slots[..s.index] == s.history.registered && |s.history.registered| <= 32
  {
    ReachableInv(s);
  }

  /** The application makes no further call. */
  predicate NoCall(step: Step) {
    step.ByApp? ==> step.appStep.WriteField? || step.appStep.Publish?
  }

  /** The table before a registration was `table`; the registration of e is going on or done. */
  ghost predicate Pending(s: State, table: seq<Slot>, e: Slot) {
    s.index <= |s.slots|
    && if s.app.Registering? then s.app.entry == e && s.slots[..s.index] == table
       else s.app.Idle? && s.slots[..s.index] == table + [e]
  }

  lemma PendingApp(s: State, step: AppStep, table: seq<Slot>, e: Slot)
    requires TableOk(s) && Pending(s, table, e) && AppEnabled(s, step) && NoCall(ByApp(step))
    ensures Pending(AppDo(s, step), table, e)
  {
    if step.Publish? {
      assert s.slots[s.index] == s.app.entry;
      assert s.slots[..s.index + 1] == s.slots[..s.index] + [s.slots[s.index]];
    } else if step.WriteField? {
      assert AppDo(s, step).slots[..s.index] == s.slots[..s.index];
    }
  }

  lemma PendingStep(s: State, step: Step, table: seq<Slot>, e: Slot)
    requires TableOk(s) && Pending(s, table, e) && Enabled(s, step) && NoCall(step)
    ensures Pending(Do(s, step), table, e)
  {
    hide TableOk, AppDo;
    match step
    case ByMachine(m) => assert MachineDo(s, m).app == s.app && MachineDo(s, m).slots == s.slots;
    case ByCaller(t, c) => assert CallDo(s, t, c).app == s.app && CallDo(s, t, c).slots == s.slots;
    case ByWs(_) =>
    case ByApp(a) => PendingApp(s, a, table, e);
    case SpuriousWakeup =>
  }

  lemma {:induction false} PendingRun(s: State, steps: seq<Step>, table: seq<Slot>, e: Slot)
    requires Inv(s) && Pending(s, table, e) && CanRun(s, steps) && forall step :: step in steps ==> NoCall(step)
    ensures Pending(Run(s, steps), table, e)
    decreases steps
  {
    if steps != [] {
      PendingStep(s, steps[0], table, e);
      StepInv(s, steps[0]);
      assert forall step :: step in steps[1..] ==> step in steps;
      PendingRun(Do(s, steps[0]), steps[1..], table, e);
    }
  }

  /** A registration with room in the table appends exactly its entry by the time it returns, however the other
      threads interleave, and not before; with a full table it changes nothing. */
  lemma RegistrationAppendsEntry(s: State, e: Slot, steps: seq<Step>)
    requires Reachable(s) && s.app.Idle? && |e.key| < 256
    requires CanRun(Do(s, ByApp(Register(e))), steps) && forall step :: step in steps ==> NoCall(step)
    ensures var last := Run(Do(s, ByApp(Register(e))), steps);
            s.index <= |s.slots| && last.index <= |last.slots|
            && (s.index >= 32 ==> Do(s, ByApp(Register(e))) == s)
            && (s.index < 32 ==>
                  if last.app.Idle? then last.slots[..last.index] == s.slots[..s.index] + [e]
                  else last.app.Registering? && last.slots[..last.index] == s.slots[..s.index])
  {
    ReachableInv(s);
    var next := Do(s, ByApp(Register(e)));
    StepInv(s, ByApp(Register(e)));
    RunInv(next, steps);
    if s.index < 32 {
      PendingRun(next, steps, s.slots[..s.index], e);
    }
  }

  lemma RunOneMore(s: State, step: Step, rest: seq<Step>)
    requires Enabled(s, step) && CanRun(Do(s, step), rest)
    ensures CanRun(s, [step] + rest) && Run(s, [step] + rest) == Run(Do(s, step), rest)
  {
    assert ([step] + rest)[1..] == rest;
  }

  /** A registration never waits: from any state of the others, the steps left to it complete it. */
  lemma {:induction false} RegistrationCompletes(s: State) returns (steps: seq<Step>)
    requires Inv(s) && s.app.Registering?
    ensures forall step :: step in steps ==> step.ByApp? && NoCall(step)
    ensures |steps| == 4 - s.app.written && CanRun(s, steps) && Run(s, steps).app.Idle?
    decreases 4 - s.app.written
  {
    var step := ByApp(if s.app.written < 3 then WriteField else Publish);
    var next := Do(s, step);
    StepInv(s, step);
    var rest: seq<Step> := [];
    if next.app.Registering? {
      rest := RegistrationCompletes(next);
    }
    hide Inv;
    assert CanRun(next, rest);
    RunOneMore(s, step, rest);
    steps := [step] + rest;
  }
}
