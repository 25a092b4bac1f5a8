/**
 * The protocol that every connection follows on its stream, judged by its trace alone: what may
 * come after what, which frame answers which message, and which events a session leaves behind.
 */
module NetworkProtocol {
  import opened Types
  import opened Sequences
  import opened Network
  import opened NetworkRuns

  // ----- The protocol ------------------------------------------------------------------------

  /** The error frame that a failed read is answered with. */
  predicate IsErrorFor(e: Error, kind: ErrorKind) {
    || (e.UnexpectedMessage? && kind == UnexpectedMessageKind)
    || (e.MalformedMessage? && kind == MalformedMessageKind)
    || (e.PayloadTooLarge? && kind == MalformedMessageKind)
  }

  predicate AnswersHandshake(m: ClientMessage, f: Frame) {
    if !m.Handshake? then f == ErrorFrame(UnexpectedMessageKind)
    else if m.minVersion <= 3 <= m.maxVersion then f == ServerHandshake
    else f == ErrorFrame(UnsupportedVersionRange)
  }

  predicate AnswersCredentials(m: ClientMessage, verified: bool, f: Frame) {
    if !m.Authentication? then f == ErrorFrame(UnexpectedMessageKind)
    else if verified then f == AuthenticationAccepted
    else f == ErrorFrame(InvalidCredentialsKind)
  }

  /** The message is a request for this job. */
  predicate Asks(hasHandler: bool, m: ClientMessage, job: Job) {
    || (m.EngineMessage? && job == ToEngine(m.request))
    || (m.CustomMessage? && hasHandler && job == ToHandler(m.request))
  }

  /** The frame answers a message of a session at once, without a request being made. */
  predicate AnswersDirectly(hasHandler: bool, m: ClientMessage, f: Frame) {
    || (m.Ping? && f == Pong)
    || ((m.Handshake? || m.Authentication? || (m.CustomMessage? && !hasHandler)) && f == ErrorFrame(UnexpectedMessageKind))
  }

  predicate IsRead(x: Io) { x.ReadOk? || x.ReadFailed? }

  predicate GoodFrame(x: Io) { x.Wrote? && !x.frame.ErrorFrame? }

  /** `x` may be the `i`-th thing to happen, right after `previous`. */
  predicate Follows(hasHandler: bool, i: nat, previous: Io, x: Io) {
    match x
    case ReadOk(_, _) => GoodFrame(previous)
    case ReadFailed(_) => GoodFrame(previous)
    case Requested(job) => i >= 5 && previous.ReadOk? && Asks(hasHandler, previous.message, job)
    case Wrote(f) =>
      match previous
      case Wrote(_) => false
      case Requested(_) => f.Reply?
      case ReadFailed(e) => f.ErrorFrame? && IsErrorFor(e, f.kind)
      case ReadOk(m, verified) =>
        if i == 1 then AnswersHandshake(m, f)
        else if i == 3 then AnswersCredentials(m, verified, f)
        else i >= 5 && AnswersDirectly(hasHandler, m, f)
  }

  ghost predicate Conforms(hasHandler: bool, trace: seq<Io>) {
    && (trace != [] ==> IsRead(trace[0]))
    && forall i :: 1 <= i < |trace| ==> Follows(hasHandler, i, trace[i - 1], trace[i])
  }

  /** The client's credentials were verified and accepted. */
  ghost predicate Introduced(trace: seq<Io>, client: ClientId) {
    |trace| >= 4 && trace[2] == ReadOk(Authentication(client), true) && trace[3] == Wrote(AuthenticationAccepted)
  }

  /** The session is over because the client quit, or fell silent when it was its turn. */
  ghost predicate EndsWell(trace: seq<Io>) {
    trace != [] && var last := trace[|trace| - 1]; GoodFrame(last) || (last.ReadOk? && last.message.Quit?)
  }

  // ----- What each phase promises ------------------------------------------------------------------

  /** Writing the error frame, if one is owed, is what the protocol says next. */
  ghost predicate ErrorDue(hasHandler: bool, trace: seq<Io>, e: Error)
    requires trace != []
  {
    ErrorResponse(e).Some? ==> Follows(hasHandler, |trace|, trace[|trace| - 1], Wrote(ErrorFrame(ErrorResponse(e).value)))
  }

  ghost predicate OpeningFits(hasHandler: bool, phase: Phase, trace: seq<Io>) {
    match phase
    case TlsAccept => trace == []
    case AwaitHandshake => trace == []
    case SendHandshake => |trace| == 1 && Follows(hasHandler, 1, trace[0], Wrote(ServerHandshake))
    case AwaitCredentials => |trace| == 2 && trace[1] == Wrote(ServerHandshake)
    case SendAccepted(client) => |trace| == 3 && trace[2] == ReadOk(Authentication(client), true)
    case Rejecting(e) => 1 <= |trace| <= 3 && ErrorDue(hasHandler, trace, e)
    case _ => false
  }

  ghost predicate SessionFits(hasHandler: bool, phase: Phase, trace: seq<Io>)
    requires |trace| >= 4
  {
    var last := trace[|trace| - 1];
    match phase
    case Announce(_) => GoodFrame(last)
    case Idle(_) => GoodFrame(last)
    case Forwarding(_, job) => |trace| >= 5 && last.ReadOk? && Asks(hasHandler, last.message, job)
    case AwaitAnswer(_, _) => last.Requested?
    case Replying(_, f) => !f.ErrorFrame? && Follows(hasHandler, |trace|, last, Wrote(f))
    case Ending(_, e) => !EndsWell(trace) && ErrorDue(hasHandler, trace, e)
    case Lost(_) => !EndsWell(trace)
    case Leaving(_) => EndsWell(trace)
    case _ => false
  }

  predicate InSession(phase: Phase) {
    phase.Announce? || phase.Idle? || phase.Forwarding? || phase.AwaitAnswer? || phase.Replying? || phase.Ending? || phase.Lost? || phase.Leaving?
  }

  ghost predicate PhaseFits(hasHandler: bool, phase: Phase, trace: seq<Io>) {
    if phase.Finished? then true
    else if InSession(phase) then Introduced(trace, phase.client) && SessionFits(hasHandler, phase, trace)
    else OpeningFits(hasHandler, phase, trace)
  }

  /** What may be appended to a trace. */
  ghost predicate MayCome(hasHandler: bool, trace: seq<Io>, x: Io) {
    if trace == [] then IsRead(x) else Follows(hasHandler, |trace|, trace[|trace| - 1], x)
  }

  lemma OpeningAdvances(id: ConnId, phase: Phase, trace: seq<Io>, hasHandler: bool, x: Choice)
    requires OpeningFits(hasHandler, phase, trace) && Advance(id, phase, hasHandler, x).Progress?
    ensures var p := Advance(id, phase, hasHandler, x);
            if p.io.None? then PhaseFits(hasHandler, p.phase, trace)
            else MayCome(hasHandler, trace, p.io.value) && PhaseFits(hasHandler, p.phase, trace + [p.io.value])
  {
  }

  lemma SessionAdvances(id: ConnId, phase: Phase, trace: seq<Io>, hasHandler: bool, x: Choice)
    requires InSession(phase) && Introduced(trace, phase.client) && SessionFits(hasHandler, phase, trace)
    requires Advance(id, phase, hasHandler, x).Progress?
    ensures var p := Advance(id, phase, hasHandler, x);
            if p.io.None? then PhaseFits(hasHandler, p.phase, trace)
            else MayCome(hasHandler, trace, p.io.value) && PhaseFits(hasHandler, p.phase, trace + [p.io.value])
  {
  }

  // ----- The events of a session ----------------------------------------------------------------------

  ghost predicate Accepted(trace: seq<Io>) { |trace| >= 4 && trace[3] == Wrote(AuthenticationAccepted) }

  /** A finished session's events: none without acceptance, else Connect and the ending that its trace deserves. */
  ghost predicate EventsTell(id: ConnId, trace: seq<Io>, events: seq<Event>) {
    if !Accepted(trace) then events == []
    else exists client :: Introduced(trace, client) &&
           events == [ClientConnect(client, id), if EndsWell(trace) then ClientDisconnect(client, id) else ClientConnectionLoss(client, id)]
  }

  ghost predicate EventsMatch(id: ConnId, phase: Phase, trace: seq<Io>, events: seq<Event>) {
    if phase.Finished? then EventsTell(id, trace, events)
    else events == if InSession(phase) && !phase.Announce? then [ClientConnect(phase.client, id)] else []
  }

  lemma OpeningSends(id: ConnId, phase: Phase, trace: seq<Io>, hasHandler: bool, x: Choice)
    requires OpeningFits(hasHandler, phase, trace) && Advance(id, phase, hasHandler, x).Progress?
    ensures var p := Advance(id, phase, hasHandler, x);
            Sent(p) == [] && EventsMatch(id, p.phase, if p.io.Some? then trace + [p.io.value] else trace, [])
  {
  }

  lemma SessionSends(id: ConnId, phase: Phase, trace: seq<Io>, hasHandler: bool, x: Choice)
    requires InSession(phase) && Introduced(trace, phase.client) && SessionFits(hasHandler, phase, trace)
    requires Advance(id, phase, hasHandler, x).Progress?
    ensures var p := Advance(id, phase, hasHandler, x);
            var events := if phase.Announce? then [] else [ClientConnect(phase.client, id)];
            EventsMatch(id, p.phase, if p.io.Some? then trace + [p.io.value] else trace, events + Sent(p))
  {
    var p := Advance(id, phase, hasHandler, x);
    if p.phase.Finished? { assert Introduced(trace, phase.client) && p.io.None?; }
  }

  // ----- Every interleaving ---------------------------------------------------------------------------

  ghost predicate Proper(hasHandler: bool, id: ConnId, c: Conn, events: seq<Event>) {
    Conforms(hasHandler, c.trace) && PhaseFits(hasHandler, c.phase, c.trace) && EventsMatch(id, c.phase, c.trace, events)
  }

  lemma Appended(hasHandler: bool, trace: seq<Io>, x: Io)
    requires Conforms(hasHandler, trace) && MayCome(hasHandler, trace, x)
    ensures Conforms(hasHandler, trace + [x])
  {
  }

  lemma OwnStepProper(id: ConnId, c: Conn, hasHandler: bool, x: Choice, events: seq<Event>)
    requires Proper(hasHandler, id, c, events) && Advance(id, c.phase, hasHandler, x).Progress?
    ensures var p := Advance(id, c.phase, hasHandler, x); Proper(hasHandler, id, Moved(c, p), events + Sent(p))
  {
    var p := Advance(id, c.phase, hasHandler, x);
    if InSession(c.phase) {
      SessionAdvances(id, c.phase, c.trace, hasHandler, x);
      SessionSends(id, c.phase, c.trace, hasHandler, x);
    } else {
      OpeningAdvances(id, c.phase, c.trace, hasHandler, x);
      OpeningSends(id, c.phase, c.trace, hasHandler, x);
      assert events + Sent(p) == [];
    }
    if p.io.Some? { Appended(hasHandler, c.trace, p.io.value); }
  }

  ghost predicate AllProper(s: System) {
    forall id :: id in s.conns ==> Proper(s.hasHandler, id, s.conns[id], Filter(s.events, EventOf(id)))
  }

  lemma TaskProper(s: System, id: ConnId, x: Choice, other: ConnId)
    requires AllProper(s) && Possible(s, Task(id, x)) && other in s.conns
    ensures var s' := Next(s, Task(id, x)); Proper(s'.hasHandler, other, s'.conns[other], Filter(s'.events, EventOf(other)))
  {
    TaskViews(s, id, x, other);
    if other == id {
      OwnStepProper(id, s.conns[id], s.hasHandler, x, Filter(s.events, EventOf(id)));
    } else {
      assert Filter(s.events, EventOf(other)) + [] == Filter(s.events, EventOf(other));
    }
  }

  lemma AcceptProper(s: System, other: ConnId)
    requires Invariant(s) && AllProper(s) && other in Next(s, Accept).conns
    ensures var s' := Next(s, Accept); Proper(s'.hasHandler, other, s'.conns[other], Filter(s'.events, EventOf(other)))
  {
    if other == s.counter { assert Untouched(s, other); }
  }

  /** An answer only fills the inbox of a task that waits for it. */
  lemma ServeProper(s: System, index: nat, answer: Option<nat>, other: ConnId)
    requires AllProper(s) && Possible(s, Serve(index, answer)) && other in s.conns
    ensures var s' := Next(s, Serve(index, answer)); Proper(s'.hasHandler, other, s'.conns[other], Filter(s'.events, EventOf(other)))
  {
  }

  lemma StepProper(s: System, step: Step)
    requires Invariant(s) && AllProper(s) && Possible(s, step)
    ensures AllProper(Next(s, step))
  {
    var s' := Next(s, step);
    forall id | id in s'.conns
      ensures Proper(s'.hasHandler, id, s'.conns[id], Filter(s'.events, EventOf(id)))
    {
      match step
      case Accept => AcceptProper(s, id);
      case Task(conn, x) => TaskProper(s, conn, x, id);
      case Serve(index, answer) => ServeProper(s, index, answer, id);
    }
  }

  lemma {:induction false} ProperInEveryRun(s: System, steps: seq<Step>)
    requires Invariant(s) && AllProper(s) && AllPossible(s, steps)
    ensures AllProper(Run(s, steps))
    decreases |steps|
  {
    if steps != [] {
      StepProper(s, steps[0]);
      StepKeeps(s, steps[0]);
      ProperInEveryRun(Next(s, steps[0]), steps[1..]);
    }
  }

  /** After every interleaving, every connection's trace conforms to the protocol. */
  lemma ConformsInEveryRun(hasHandler: bool, steps: seq<Step>, id: ConnId)
    requires AllPossible(Listening(hasHandler), steps) && id in Run(Listening(hasHandler), steps).conns
    ensures Run(Listening(hasHandler), steps).hasHandler == hasHandler
    ensures Conforms(hasHandler, Run(Listening(hasHandler), steps).conns[id].trace)
  {
    ProperInEveryRun(Listening(hasHandler), steps);
    HandlerStays(Listening(hasHandler), steps);
  }

  lemma {:induction false} HandlerStays(s: System, steps: seq<Step>)
    requires AllPossible(s, steps)
    ensures Run(s, steps).hasHandler == s.hasHandler
    decreases |steps|
  {
    if steps != [] { HandlerStays(Next(s, steps[0]), steps[1..]); }
  }

  /**
   * Acceptance is written at one place only: after a handshake whose range holds version 3, its
   * answer, and an authentication whose credentials were verified.
   */
  lemma AcceptedOnlyVerified(hasHandler: bool, trace: seq<Io>, i: nat)
    requires Conforms(hasHandler, trace) && i < |trace| && trace[i] == Wrote(AuthenticationAccepted)
    ensures i == 3 && trace[2].ReadOk? && trace[2].message.Authentication? && trace[2].verified
    ensures trace[1] == Wrote(ServerHandshake) && trace[0].ReadOk?
    ensures trace[0].message.Handshake? && trace[0].message.minVersion <= 3 <= trace[0].message.maxVersion
  {
    assert i > 0 && Follows(hasHandler, i, trace[i - 1], trace[i]);
    assert Follows(hasHandler, 2, trace[1], trace[2]);
    assert Follows(hasHandler, 1, trace[0], trace[1]);
  }

  /** Requests come only in a session of a verified client. */
  lemma RequestsOnlyVerified(hasHandler: bool, trace: seq<Io>, i: nat)
    requires Conforms(hasHandler, trace) && i < |trace| && trace[i].Requested?
    ensures i >= 5 && trace[3] == Wrote(AuthenticationAccepted)
    ensures trace[2].ReadOk? && trace[2].message.Authentication? && trace[2].verified
  {
    assert i > 0 && Follows(hasHandler, i, trace[i - 1], trace[i]);
    FourthIsAcceptance(hasHandler, trace);
    AcceptedOnlyVerified(hasHandler, trace, 3);
  }

  /** A trace that goes on after its fourth entry has acceptance there. */
  lemma FourthIsAcceptance(hasHandler: bool, trace: seq<Io>)
    requires Conforms(hasHandler, trace) && |trace| >= 5
    ensures trace[3] == Wrote(AuthenticationAccepted)
  {
    assert Follows(hasHandler, 1, trace[0], trace[1]);
    assert Follows(hasHandler, 2, trace[1], trace[2]);
    assert Follows(hasHandler, 3, trace[2], trace[3]);
    assert Follows(hasHandler, 4, trace[3], trace[4]);
  }

  /**
   * After every interleaving, a finished connection has sent no events if it was never accepted.
   * Otherwise it has sent Connect for the client whose credentials were verified, and then
   * Disconnect if that client quit or fell silent on its turn, and ConnectionLoss if not.
   */
  lemma EventsInEveryRun(hasHandler: bool, steps: seq<Step>, id: ConnId)
    requires AllPossible(Listening(hasHandler), steps) && id in Run(Listening(hasHandler), steps).conns
    requires Run(Listening(hasHandler), steps).conns[id].phase.Finished?
    ensures var s := Run(Listening(hasHandler), steps); EventsTell(id, s.conns[id].trace, Filter(s.events, EventOf(id)))
  {
    ProperInEveryRun(Listening(hasHandler), steps);
  }

  /** Events of a session under way name the client whose credentials were verified. */
  lemma ConnectNamesVerified(hasHandler: bool, steps: seq<Step>, id: ConnId)
    requires AllPossible(Listening(hasHandler), steps) && id in Run(Listening(hasHandler), steps).conns
    requires Filter(Run(Listening(hasHandler), steps).events, EventOf(id)) != []
    ensures var s := Run(Listening(hasHandler), steps);
            exists client :: Introduced(s.conns[id].trace, client) && Filter(s.events, EventOf(id))[0] == ClientConnect(client, id)
  {
    ProperInEveryRun(Listening(hasHandler), steps);
    var s := Run(Listening(hasHandler), steps);
    if InSession(s.conns[id].phase) { assert Introduced(s.conns[id].trace, s.conns[id].phase.client); }
  }

  // ----- Nothing owed is withheld -----------------------------------------------------------------------

  /** The task can read here, as the `i`-th thing to happen. */
  predicate ReadsAt(phase: Phase, i: nat) {
    (phase.AwaitHandshake? && i == 0) || (phase.AwaitCredentials? && i == 2) || (phase.Idle? && i >= 4)
  }

  /** After this choice and then a success, the task has done `x` first and `y` next. */
  ghost predicate Leads(id: ConnId, phase: Phase, hasHandler: bool, choice: Choice, x: Io, y: Io) {
    && Advance(id, phase, hasHandler, choice).Progress? && Advance(id, phase, hasHandler, choice).io == Some(x)
    && Advance(id, Advance(id, phase, hasHandler, choice).phase, hasHandler, Succeeds).Progress?
    && Advance(id, Advance(id, phase, hasHandler, choice).phase, hasHandler, Succeeds).io == Some(y)
  }

  /** Whatever is read is answered or forwarded as the protocol says, if the stream allows it; only Quit is not. */
  lemma EveryReadIsAnswered(id: ConnId, phase: Phase, i: nat, hasHandler: bool, m: ClientMessage, verified: bool)
    requires ReadsAt(phase, i) && (i >= 4 ==> !m.Quit?)
    ensures exists y :: Follows(hasHandler, i + 1, ReadOk(m, verified), y) &&
              Leads(id, phase, hasHandler, Reads(m, verified, true), ReadOk(m, verified), y)
  {
    var p := Advance(id, phase, hasHandler, Reads(m, verified, true));
    var y := Advance(id, p.phase, hasHandler, Succeeds).io.value;
    assert Follows(hasHandler, i + 1, ReadOk(m, verified), y);
    assert Leads(id, phase, hasHandler, Reads(m, verified, true), ReadOk(m, verified), y);
  }

  /** So is a frame that is too large, malformed or of an unknown kind. */
  lemma EveryBadFrameIsAnswered(id: ConnId, phase: Phase, i: nat, hasHandler: bool, e: Error, kind: ErrorKind)
    requires ReadsAt(phase, i) && IsErrorFor(e, kind)
    ensures Leads(id, phase, hasHandler, ReadFails(e), ReadFailed(e), Wrote(ErrorFrame(kind)))
  {
  }

  /** Quitting, and silence on the client's turn, end a session with a Disconnect; silence before it ends quietly. */
  lemma SilenceEnds(id: ConnId, phase: Phase, i: nat, hasHandler: bool, verified: bool)
    requires ReadsAt(phase, i)
    ensures phase.Idle? ==> Advance(id, phase, hasHandler, TimesOut) == Quietly(Leaving(phase.client))
    ensures phase.Idle? ==> Advance(id, phase, hasHandler, Reads(Quit, verified, true)) == After(ReadOk(Quit, verified), Leaving(phase.client))
    ensures !phase.Idle? ==> Advance(id, phase, hasHandler, TimesOut) == Quietly(Finished)
  {
  }

  /** After any good frame the task comes to read again, announcing the client first if it was just accepted. */
  lemma GoodFrameThenRead(id: ConnId, phase: Phase, hasHandler: bool, x: Choice, i: nat)
    requires Advance(id, phase, hasHandler, x).Progress? && Advance(id, phase, hasHandler, x).io.Some?
    requires GoodFrame(Advance(id, phase, hasHandler, x).io.value) && (phase.Replying? ==> i >= 4)
    ensures var next := Advance(id, phase, hasHandler, x).phase;
            || (phase.SendHandshake? && ReadsAt(next, 2))
            || (phase.SendAccepted? && next == Announce(phase.client) &&
                Advance(id, next, hasHandler, x) == Progress(Idle(phase.client), None, Some(ClientConnect(phase.client, id))))
            || (phase.Replying? && ReadsAt(next, i) && next.client == phase.client)
  {
  }

  /** An answer that was given is written as the reply. */
  lemma AnswerIsWritten(id: ConnId, client: ClientId, hasHandler: bool, x: Choice, answer: nat)
    ensures var p := Advance(id, AwaitAnswer(client, Answered(answer)), hasHandler, x);
            p.Progress? && Advance(id, p.phase, hasHandler, Succeeds) == After(Wrote(Reply(answer)), Idle(client))
  {
  }

  /** What a run of one connection's task makes of it, whatever the other connections do. */
  function Onward(id: ConnId, c: Conn, hasHandler: bool, x: Choice): Option<Conn> {
    var p := Advance(id, c.phase, hasHandler, x);
    if p.Progress? then Some(Moved(c, p)) else None
  }

  /** An answer to a pending request reaches its own connection, which then writes it and reads again. */
  lemma AnsweredRequestIsReplied(s: System, index: nat, answer: nat, x: Choice)
    requires Possible(s, Serve(index, Some(answer)))
    ensures var id := s.pending[index].conn;
            var c, answered := s.conns[id], Next(s, Serve(index, Some(answer))).conns[id];
            var replying := Onward(id, answered, s.hasHandler, x);
            && replying.Some?
            && Onward(id, replying.value, s.hasHandler, Succeeds) ==
               Some(Conn(Idle(c.phase.client), c.trace + [Wrote(Reply(answer))]))
  {
  }

  /** A request dropped without an answer ends its session as a connection loss, with nothing more written. */
  lemma DroppedRequestEnds(s: System, index: nat, x: Choice)
    requires Possible(s, Serve(index, None))
    ensures var id := s.pending[index].conn;
            var c, dropped := s.conns[id], Next(s, Serve(index, None)).conns[id];
            var ending := Onward(id, dropped, s.hasHandler, x);
            && ending.Some? && Onward(id, ending.value, s.hasHandler, x) == Some(Conn(Lost(c.phase.client), c.trace))
  {
  }
}
