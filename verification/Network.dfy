/**
 * Client connections: TLS, authentication, then strict request and response, with any number of
 * connection tasks interleaving on one event stream and one pool of pending requests.
 *
 * Transport, decoding, credential checks and the answers of the engine and of the application's
 * handler are choices of the environment.
 */
module Network {
  import opened Types

  type ConnId = nat

  datatype ClientMessage = Handshake(minVersion: nat, maxVersion: nat)
                         | Authentication(client: ClientId)
                         | EngineMessage(request: nat)   // bloop, audio retrieval or preload check
                         | Ping
                         | Quit
                         | CustomMessage(request: nat)

  datatype ErrorKind = UnexpectedMessageKind | MalformedMessageKind | UnsupportedVersionRange | InvalidCredentialsKind

  datatype Frame = ServerHandshake | AuthenticationAccepted | Pong | Reply(answer: nat) | ErrorFrame(kind: ErrorKind)

  datatype Error = Transport | PayloadTooLarge | UnexpectedMessage | MalformedMessage | UnsupportedVersion
                 | InvalidCredentials | EncodeFailed | AnswerDropped

  /** The error frame owed to the client; none when the connection is gone or the fault is internal. */
  function ErrorResponse(e: Error): Option<ErrorKind> {
    match e
    case UnexpectedMessage => Some(UnexpectedMessageKind)
    case MalformedMessage => Some(MalformedMessageKind)
    case PayloadTooLarge => Some(MalformedMessageKind)
    case UnsupportedVersion => Some(UnsupportedVersionRange)
    case InvalidCredentials => Some(InvalidCredentialsKind)
    case _ => None
  }

  datatype Job = ToEngine(request: nat) | ToHandler(request: nat)

  datatype Inbox = Empty | Answered(answer: nat) | Dropped

  datatype Phase =
    | TlsAccept
    | AwaitHandshake
    | SendHandshake
    | AwaitCredentials
    | SendAccepted(client: ClientId)
    | Rejecting(error: Error)
    | Announce(client: ClientId)
    | Idle(client: ClientId)
    | Forwarding(client: ClientId, job: Job)
    | AwaitAnswer(client: ClientId, inbox: Inbox)
    | Replying(client: ClientId, frame: Frame)
    | Ending(client: ClientId, error: Error)
    | Lost(client: ClientId)
    | Leaving(client: ClientId)
    | Finished

  /**
   * What a connection task does on its stream and towards the engine. A read also carries what
   * the credential check says of it, which matters only where credentials are due.
   */
  datatype Io = ReadOk(message: ClientMessage, verified: bool) | ReadFailed(error: Error) | Wrote(frame: Frame) | Requested(job: Job)

  datatype Conn = Conn(phase: Phase, trace: seq<Io>)

  datatype Event = ClientConnect(client: ClientId, conn: ConnId)
                 | ClientDisconnect(client: ClientId, conn: ConnId)
                 | ClientConnectionLoss(client: ClientId, conn: ConnId)

  // ----- One connection task ---------------------------------------------------------------

  /** What the environment lets happen at the task's current await point. */
  datatype Choice =
    | Succeeds                                   // TLS accepted, or a frame written
    | Fails                                      // TLS or write failure
    | EncodeFails                                // a message could not be encoded
    | Reads(message: ClientMessage, verified: bool, encodes: bool)
    | ReadFails(error: Error)
    | TimesOut

  /** The errors that reading or decoding a frame can give. */
  predicate IsReadError(e: Error) { e.Transport? || e.PayloadTooLarge? || e.UnexpectedMessage? || e.MalformedMessage? }

  /** The task's next phase, with what it did on the stream or towards the engine, and the event it sent. */
  datatype Progress = Stuck | Progress(phase: Phase, io: Option<Io>, event: Option<Event>)

  function Quietly(phase: Phase): Progress { Progress(phase, None, None) }

  function After(io: Io, phase: Phase): Progress { Progress(phase, Some(io), None) }

  /** Re-encoding the offending message for the error may itself fail. */
  function Unexpected(encodes: bool): Error { if encodes then UnexpectedMessage else EncodeFailed }

  function Advance(id: ConnId, phase: Phase, hasHandler: bool, x: Choice): Progress {
    match phase
    case TlsAccept =>
      if x.Succeeds? then Quietly(AwaitHandshake) else if x.Fails? then Quietly(Finished) else Stuck
    case AwaitHandshake =>
      if x.TimesOut? then Quietly(Finished)
      else if x.ReadFails? && IsReadError(x.error) then After(ReadFailed(x.error), Rejecting(x.error))
      else if x.Reads? then After(ReadOk(x.message, x.verified), AfterHandshake(x.message, x.encodes))
      else Stuck
    case SendHandshake =>
      if x.Succeeds? then After(Wrote(ServerHandshake), AwaitCredentials)
      else if x.Fails? then Quietly(Rejecting(Transport))
      else if x.TimesOut? then Quietly(Finished) else Stuck
    case AwaitCredentials =>
      if x.TimesOut? then Quietly(Finished)
      else if x.ReadFails? && IsReadError(x.error) then After(ReadFailed(x.error), Rejecting(x.error))
      else if x.Reads? then After(ReadOk(x.message, x.verified), AfterCredentials(x.message, x.verified, x.encodes))
      else Stuck
    case SendAccepted(client) =>
      if x.Succeeds? then After(Wrote(AuthenticationAccepted), Announce(client))
      else if x.Fails? then Quietly(Rejecting(Transport))
      else if x.TimesOut? then Quietly(Finished) else Stuck
    case Rejecting(error) =>
      if ErrorResponse(error).Some? && x.Succeeds? then After(Wrote(ErrorFrame(ErrorResponse(error).value)), Finished)
      else if ErrorResponse(error).None? || x.Fails? then Quietly(Finished) else Stuck
    case Announce(client) => Progress(Idle(client), None, Some(ClientConnect(client, id)))
    case Idle(client) =>
      if x.TimesOut? then Quietly(Leaving(client))
      else if x.ReadFails? && IsReadError(x.error) then After(ReadFailed(x.error), Ending(client, x.error))
      else if x.Reads? then After(ReadOk(x.message, x.verified), AfterRequest(client, x.message, hasHandler, x.encodes))
      else Stuck
    case Forwarding(client, job) => After(Requested(job), AwaitAnswer(client, Empty))
    case AwaitAnswer(client, inbox) =>
      (match inbox
       case Empty => Stuck
       case Answered(answer) => Quietly(Replying(client, Reply(answer)))
       case Dropped => Quietly(Ending(client, AnswerDropped)))
    case Replying(client, frame) =>
      if x.Succeeds? then After(Wrote(frame), Idle(client))
      else if x.Fails? then Quietly(Ending(client, Transport))
      else if x.EncodeFails? then Quietly(Ending(client, EncodeFailed)) else Stuck
    case Ending(client, error) =>
      if ErrorResponse(error).Some? && x.Succeeds? then After(Wrote(ErrorFrame(ErrorResponse(error).value)), Lost(client))
      else if ErrorResponse(error).None? || x.Fails? then Quietly(Lost(client)) else Stuck
    case Lost(client) => Progress(Finished, None, Some(ClientConnectionLoss(client, id)))
    case Leaving(client) => Progress(Finished, None, Some(ClientDisconnect(client, id)))
    case Finished => Stuck
  }

  /** The first message must be a handshake whose version range holds version 3. */
  function AfterHandshake(message: ClientMessage, encodes: bool): Phase {
    if !message.Handshake? then Rejecting(Unexpected(encodes))
    else if message.minVersion > 3 || message.maxVersion < 3 then Rejecting(UnsupportedVersion)
    else SendHandshake
  }

  function AfterCredentials(message: ClientMessage, verified: bool, encodes: bool): Phase {
    if !message.Authentication? then Rejecting(Unexpected(encodes))
    else if !verified then Rejecting(InvalidCredentials)
    else SendAccepted(message.client)
  }

  function AfterRequest(client: ClientId, message: ClientMessage, hasHandler: bool, encodes: bool): Phase {
    match message
    case EngineMessage(request) => Forwarding(client, ToEngine(request))
    case Ping => Replying(client, Pong)
    case Quit => Leaving(client)
    case CustomMessage(request) =>
      if hasHandler then Forwarding(client, ToHandler(request)) else Ending(client, Unexpected(encodes))
    case _ => Ending(client, Unexpected(encodes))
  }

  // ----- The whole listener ------------------------------------------------------------------

  datatype Pending = Pending(conn: ConnId, job: Job)

  datatype ServedJob = ServedJob(conn: ConnId, job: Job, answer: Option<nat>)

  datatype System = System(hasHandler: bool, counter: nat, conns: map<ConnId, Conn>, events: seq<Event>,
                           pending: seq<Pending>, served: seq<ServedJob>)

  datatype Step = Accept
                | Task(conn: ConnId, choice: Choice)
                | Serve(index: nat, answer: Option<nat>)   // the engine or the handler takes up any pending job

  function Moved(c: Conn, p: Progress): Conn
    requires p.Progress?
  {
    Conn(p.phase, if p.io.Some? then c.trace + [p.io.value] else c.trace)
  }

  function Sent(p: Progress): seq<Event>
    requires p.Progress?
  {
    if p.event.Some? then [p.event.value] else []
  }

  function Handed(id: ConnId, p: Progress): seq<Pending>
    requires p.Progress?
  {
    if p.io.Some? && p.io.value.Requested? then [Pending(id, p.io.value.job)] else []
  }

  ghost predicate Possible(s: System, step: Step) {
    match step
    case Accept => true
    case Task(id, x) => id in s.conns && Advance(id, s.conns[id].phase, s.hasHandler, x).Progress?
    case Serve(index, _) =>
      && index < |s.pending| && s.pending[index].conn in s.conns
      && s.conns[s.pending[index].conn].phase.AwaitAnswer?
  }

  ghost function Next(s: System, step: Step): System
    requires Possible(s, step)
  {
    match step
    case Accept => s.(counter := s.counter + 1, conns := s.conns[s.counter := Conn(TlsAccept, [])])
    case Task(id, x) =>
      var p := Advance(id, s.conns[id].phase, s.hasHandler, x);
      s.(conns := s.conns[id := Moved(s.conns[id], p)],
         events := s.events + Sent(p),
         pending := s.pending + Handed(id, p))
    case Serve(index, answer) =>
      var job := s.pending[index];
      var c := s.conns[job.conn];
      var inbox := if answer.Some? then Answered(answer.value) else Dropped;
      s.(conns := s.conns[job.conn := c.(phase := AwaitAnswer(c.phase.client, inbox))],
         pending := s.pending[..index] + s.pending[index + 1..],
         served := s.served + [ServedJob(job.conn, job.job, answer)])
  }

  // ----- Reading a trace ------------------------------------------------------------------------

  /** Whose turn it is on the stream, judged by the trace alone. */
  datatype Turn = Reading | Owing | Closing | Silent | Broken

  function TurnAfter(t: Turn, x: Io): Turn {
    if x.Requested? then t
    else match t
      case Reading => if x.ReadOk? then Owing else if x.ReadFailed? then Closing else Broken
      case Owing => if x.Wrote? then Reading else Broken
      case Closing => if x.Wrote? then Silent else Broken
      case _ => Broken
  }

  ghost function TurnOf(trace: seq<Io>): Turn {
    if trace == [] then Reading else TurnAfter(TurnOf(trace[..|trace| - 1]), trace[|trace| - 1])
  }

  ghost function Asked(trace: seq<Io>): seq<Job> {
    if trace == [] then []
    else Asked(trace[..|trace| - 1]) + if trace[|trace| - 1].Requested? then [trace[|trace| - 1].job] else []
  }

  ghost function Told(trace: seq<Io>): seq<nat> {
    if trace == [] then []
    else Told(trace[..|trace| - 1]) +
         if trace[|trace| - 1].Wrote? && trace[|trace| - 1].frame.Reply? then [trace[|trace| - 1].frame.answer] else []
  }

  ghost predicate Authenticated(trace: seq<Io>) { Wrote(AuthenticationAccepted) in trace }

  /** Every request is preceded by a written AuthenticationAccepted. */
  ghost predicate AuthenticatedFirst(trace: seq<Io>) {
    forall i :: 0 <= i < |trace| && trace[i].Requested? ==> Authenticated(trace[..i])
  }

  lemma TraceAppend(trace: seq<Io>, x: Io)
    ensures TurnOf(trace + [x]) == TurnAfter(TurnOf(trace), x)
    ensures Asked(trace + [x]) == Asked(trace) + if x.Requested? then [x.job] else []
    ensures Told(trace + [x]) == Told(trace) + if x.Wrote? && x.frame.Reply? then [x.frame.answer] else []
    ensures Authenticated(trace + [x]) <==> Authenticated(trace) || x == Wrote(AuthenticationAccepted)
    ensures AuthenticatedFirst(trace) && (x.Requested? ==> Authenticated(trace)) ==> AuthenticatedFirst(trace + [x])
  {
  }

  // ----- What each phase promises about the trace ---------------------------------------------------

  /** The replies written so far, the answers given and the requests made fit together. */
  ghost predicate Exchange(asked: seq<Job>, told: seq<nat>, served: seq<ServedJob>, pending: seq<Pending>) {
    && |told| <= |served| <= |told| + 1 && |asked| == |served| + |pending|
    && (forall k :: 0 <= k < |told| ==> served[k].answer == Some(told[k]))
    && (forall k :: 0 <= k < |served| ==> served[k].job == asked[k])
    && (forall k :: 0 <= k < |pending| ==> pending[k].job == asked[|served| + k])
  }

  /** Which of the requests are still open in each phase. */
  ghost predicate ExchangeSettled(phase: Phase, told: seq<nat>, served: seq<ServedJob>, pending: seq<Pending>) {
    match phase
    case AwaitAnswer(_, inbox) =>
      (match inbox
       case Empty => |served| == |told| && |pending| == 1
       case Answered(answer) => |served| == |told| + 1 && served[|told|].answer == Some(answer) && pending == []
       case Dropped => |served| == |told| + 1 && pending == [])
    case Replying(_, Reply(answer)) => |served| == |told| + 1 && served[|told|].answer == Some(answer) && pending == []
    case Ending(_, _) => pending == []
    case Lost(_) => pending == []
    case Finished => pending == []
    case _ => |served| == |told| && pending == []
  }

  ghost predicate TurnFits(phase: Phase, turn: Turn, authenticated: bool) {
    match phase
    case TlsAccept => turn == Reading && !authenticated
    case AwaitHandshake => turn == Reading && !authenticated
    case SendHandshake => turn == Owing && !authenticated
    case AwaitCredentials => turn == Reading && !authenticated
    case SendAccepted(_) => turn == Owing && !authenticated
    case Rejecting(e) => !authenticated && (if ErrorResponse(e).Some? then turn == Owing || turn == Closing else turn != Broken)
    case Announce(_) => turn == Reading && authenticated
    case Idle(_) => turn == Reading && authenticated
    case Forwarding(_, _) => turn == Owing && authenticated
    case AwaitAnswer(_, _) => turn == Owing && authenticated
    case Replying(_, frame) => turn == Owing && authenticated && (frame.Pong? || frame.Reply?)
    case Ending(_, e) => authenticated && (if ErrorResponse(e).Some? then turn == Owing || turn == Closing else turn != Broken)
    case Lost(_) => turn != Broken && authenticated
    case Leaving(_) => turn != Broken && authenticated
    case Finished => turn != Broken
  }

  /** A connection's events: nothing, then Connect, then one of Disconnect and ConnectionLoss. */
  ghost predicate EventsFit(id: ConnId, phase: Phase, events: seq<Event>) {
    match phase
    case Idle(client) => events == [ClientConnect(client, id)]
    case Forwarding(client, _) => events == [ClientConnect(client, id)]
    case AwaitAnswer(client, _) => events == [ClientConnect(client, id)]
    case Replying(client, _) => events == [ClientConnect(client, id)]
    case Ending(client, _) => events == [ClientConnect(client, id)]
    case Lost(client) => events == [ClientConnect(client, id)]
    case Leaving(client) => events == [ClientConnect(client, id)]
    case Finished =>
      events == [] || exists client ::
        events == [ClientConnect(client, id), ClientDisconnect(client, id)] ||
        events == [ClientConnect(client, id), ClientConnectionLoss(client, id)]
    case _ => events == []
  }
}
