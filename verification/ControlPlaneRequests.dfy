/** From the HTTP requests of a run to the messages made from them. */
module ControlPlaneRequests {
  import opened Wrappers
  import opened MessageQueue
  import opened HttpSession
  import opened ControlPlane
  import opened ControlPlaneInvariants

  // ---------- the log of the requests ----------

  /** A request as it arrives: a chunk of a session's body, or its end. */
  datatype Request = Piece(session: nat, bytes: seq<Byte>) | End(session: nat)

  function RequestsBy(step: Step): seq<Request> {
    match step
    case ByWs(Body(session, chunk)) => [Piece(session, chunk)]
    case ByWs(Completion(session)) => [End(session)]
    case _ => []
  }

  /** The requests among the steps of a run. */
  function Requests(steps: seq<Step>): seq<Request> {
    if steps == [] then [] else RequestsBy(steps[0]) + Requests(steps[1..])
  }

  function Logged(http: seq<HttpEvent>): seq<Request> {
    seq(|http|, i requires 0 <= i < |http| =>
          match http[i]
          case Chunk(session, bytes, _) => Piece(session, bytes)
          case Complete(session, _) => End(session))
  }

  lemma StepIsLogged(s: State, step: Step)
    requires Enabled(s, step)
    ensures Logged(Do(s, step).history.http) == Logged(s.history.http) + RequestsBy(step)
  {
    var next := Do(s, step);
    if RequestsBy(step) == [] {
      assert next.history.http == s.history.http by {
        match step
        case ByMachine(m) => assert MachineDo(s, m).history.http == s.history.http;
        case ByCaller(t, c) => assert CallDo(s, t, c).history.http == s.history.http;
        case ByWs(_) =>
        case ByApp(_) =>
        case SpuriousWakeup =>
      }
      assert Logged(s.history.http) + [] == Logged(s.history.http);
    }
  }

  lemma ConcatAssociates<T>(a: seq<T>, b: seq<T>, c: seq<T>)
    ensures (a + b) + c == a + (b + c)
  {
  }

  /** The HTTP log of a run holds exactly the requests that arrived. */
  lemma {:induction false} LogIsRequests(s: State, steps: seq<Step>)
    requires CanRun(s, steps)
    ensures Logged(Run(s, steps).history.http) == Logged(s.history.http) + Requests(steps)
    decreases steps
  {
    if steps != [] {
      hide Logged, RequestsBy, Do, Enabled;
      StepIsLogged(s, steps[0]);
      LogIsRequests(Do(s, steps[0]), steps[1..]);
      ConcatAssociates(Logged(s.history.http), RequestsBy(steps[0]), Requests(steps[1..]));
    }
  }

  // ---------- from chunks to a message ----------

  /** The requests of one session. */
  function OfSession(requests: seq<Request>, session: nat): seq<Request> {
    if requests == [] then []
    else (if requests[0].session == session then [requests[0]] else []) + OfSession(requests[1..], session)
  }

  /** The chunks of a body, and its end. */
  function BodyOf(session: nat, chunks: seq<seq<Byte>>): seq<Request> {
    if chunks == [] then [End(session)] else [Piece(session, chunks[0])] + BodyOf(session, chunks[1..])
  }

  function Joined(chunks: seq<seq<Byte>>): seq<Byte> {
    if chunks == [] then [] else chunks[0] + Joined(chunks[1..])
  }

  /** From event n on, the session completed a message with these bytes. */
  ghost predicate Made(h: History, n: nat, session: nat, bytes: seq<Byte>) {
    exists i :: n <= i < |h.http| && h.http[i].Complete? && h.http[i].session == session
                && h.http[i].buffer < |h.posted| && h.posted[h.http[i].buffer] == bytes
  }

  lemma StepKeepsLogs(s: State, step: Step)
    requires Enabled(s, step)
    ensures s.history.http <= Do(s, step).history.http && s.history.posted <= Do(s, step).history.posted
  {
    match step
    case ByMachine(m) =>
      assert MachineDo(s, m).history.http == s.history.http && MachineDo(s, m).history.posted == s.history.posted;
    case ByCaller(t, c) =>
      assert CallDo(s, t, c).history.http == s.history.http && CallDo(s, t, c).history.posted == s.history.posted;
    case ByWs(_) =>
    case ByApp(_) =>
    case SpuriousWakeup =>
  }

  lemma {:induction false} RunKeepsMade(s: State, steps: seq<Step>, n: nat, session: nat, bytes: seq<Byte>)
    requires Made(s.history, n, session, bytes) && CanRun(s, steps)
    ensures Made(Run(s, steps).history, n, session, bytes)
    decreases steps
  {
    if steps != [] {
      StepKeepsLogs(s, steps[0]);
      RunKeepsMade(Do(s, steps[0]), steps[1..], n, session, bytes);
    }
  }

  lemma MachineKeepsSessions(s: State, step: MachineStep)
    requires MachineEnabled(s, step)
    ensures MachineDo(s, step).sessions == s.sessions
    ensures BeingReset(MachineDo(s, step)).Some? ==> BeingReset(MachineDo(s, step)) == BeingReset(s)
  {
  }

  lemma CallKeepsSessions(s: State, t: Thread, step: CallStep)
    requires CallEnabled(s, t, step)
    ensures CallDo(s, t, step).sessions == s.sessions && BeingReset(CallDo(s, t, step)) == BeingReset(s)
  {
  }

  /** No step but its own requests and its reset touches the bytes of a session. */
  lemma OtherStepKeepsSession(s: State, step: Step, session: nat)
    requires Enabled(s, step) && BeingReset(s) != Some(session) && OfSession(RequestsBy(step), session) == []
    ensures SessionBytes(Do(s, step), session) == SessionBytes(s, session) && BeingReset(Do(s, step)) != Some(session)
  {
    match step
    case ByMachine(m) =>
      MachineKeepsSessions(s, m);
      hide MachineDo, OfSession;
    case ByCaller(t, c) =>
      CallKeepsSessions(s, t, c);
      hide CallDo, OfSession;
    case ByWs(_) =>
    case ByApp(_) =>
    case SpuriousWakeup =>
  }

  lemma {:induction false} OfSessionConcat(a: seq<Request>, b: seq<Request>, session: nat)
    ensures OfSession(a + b, session) == OfSession(a, session) + OfSession(b, session)
  {
    if a == [] {
      assert a + b == b;
    } else {
      assert (a + b)[1..] == a[1..] + b;
      OfSessionConcat(a[1..], b, session);
      ConcatAssociates(if a[0].session == session then [a[0]] else [], OfSession(a[1..], session),
                       OfSession(b, session));
    }
  }

  lemma {:induction false} ChunksAdded(s: State, session: nat, chunks: seq<seq<Byte>>, steps: seq<Step>)
    requires CanRun(s, steps) && BeingReset(s) != Some(session)
    requires OfSession(Requests(steps), session) == BodyOf(session, chunks)
    requires |SessionBytes(s, session)| + |Joined(chunks)| < 4096
    ensures Made(Run(s, steps).history, |s.history.http|, session, SessionBytes(s, session) + Joined(chunks))
    decreases steps
  {
    var step, rest, next := steps[0], steps[1..], Do(s, steps[0]);
    OfSessionConcat(RequestsBy(step), Requests(rest), session);
    StepKeepsLogs(s, step);
    if OfSession(RequestsBy(step), session) == [] {
      OtherStepKeepsSession(s, step, session);
      ChunksAdded(next, session, chunks, rest);
    } else if step.wsStep.Body? {
      var chunk := step.wsStep.chunk;
      assert BodyOf(session, chunks)[0] == Piece(session, chunk);
      assert SessionBytes(next, session) == SessionBytes(s, session) + chunk;
      assert BodyOf(session, chunks)[1..] == BodyOf(session, chunks[1..]);
      ChunksAdded(next, session, chunks[1..], rest);
      ConcatAssociates(SessionBytes(s, session), chunk, Joined(chunks[1..]));
    } else {
      assert BodyOf(session, chunks)[0] == End(session);
      assert next.history.http[|s.history.http|] == Complete(session, |s.history.posted|);
      assert Made(next.history, |s.history.http|, session, SessionBytes(s, session) + []);
      RunKeepsMade(next, rest, |s.history.http|, session, SessionBytes(s, session) + []);
    }
  }

  /** A body of fewer than 4096 bytes that arrives in any chunks, with anything of any other session and thread in
      between, becomes a message with exactly its bytes. */
  lemma BodyBecomesMessage(s: State, session: nat, chunks: seq<seq<Byte>>, steps: seq<Step>)
    requires CanRun(s, steps) && BeingReset(s) != Some(session) && SessionBytes(s, session) == []
    requires OfSession(Requests(steps), session) == BodyOf(session, chunks) && |Joined(chunks)| < 4096
    ensures Made(Run(s, steps).history, |s.history.http|, session, Joined(chunks))
  {
    ChunksAdded(s, session, chunks, steps);
    assert [] + Joined(chunks) == Joined(chunks);
  }

  /** Such a body can always arrive while the web service waits for events. */
  lemma {:induction false} BodyCanArrive(s: State, session: nat, chunks: seq<seq<Byte>>) returns (steps: seq<Step>)
    requires s.ws.Serving?
    ensures CanRun(s, steps) && Requests(steps) == BodyOf(session, chunks)
    decreases chunks
  {
    var step := ByWs(if chunks == [] then Completion(session) else Body(session, chunks[0]));
    var next := Do(s, step);
    var rest: seq<Step> := [];
    if chunks != [] {
      rest := BodyCanArrive(next, session, chunks[1..]);
    }
    steps := [step] + rest;
    assert steps[1..] == rest;
  }
}
