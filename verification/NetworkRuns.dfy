/** What every interleaving of connection tasks keeps. */
module NetworkRuns {
  import opened Types
  import opened Sequences
  import opened Network

  function EventOf(id: ConnId): Event -> bool { (e: Event) => e.conn == id }
  function PendingOf(id: ConnId): Pending -> bool { (p: Pending) => p.conn == id }
  function ServedOf(id: ConnId): ServedJob -> bool { (j: ServedJob) => j.conn == id }

  ghost predicate ConnInvariant(id: ConnId, c: Conn, events: seq<Event>, pending: seq<Pending>, served: seq<ServedJob>) {
    && TurnFits(c.phase, TurnOf(c.trace), Authenticated(c.trace)) && AuthenticatedFirst(c.trace)
    && EventsFit(id, c.phase, events)
    && Exchange(Asked(c.trace), Told(c.trace), served, pending)
    && ExchangeSettled(c.phase, Told(c.trace), served, pending)
  }

  /** The connection's own events, pending jobs and answers. */
  ghost predicate Fits(s: System, id: ConnId)
    requires id in s.conns
  {
    ConnInvariant(id, s.conns[id], Filter(s.events, EventOf(id)), Filter(s.pending, PendingOf(id)), Filter(s.served, ServedOf(id)))
  }

  ghost predicate Untouched(s: System, id: ConnId) {
    Filter(s.events, EventOf(id)) == [] && Filter(s.pending, PendingOf(id)) == [] && Filter(s.served, ServedOf(id)) == []
  }

  ghost predicate Invariant(s: System) {
    && (forall id :: id in s.conns ==> id < s.counter && Fits(s, id))
    && (forall id: ConnId :: id !in s.conns ==> Untouched(s, id))
  }

  // ----- One task -----------------------------------------------------------------------------

  lemma AdvanceTurn(id: ConnId, phase: Phase, hasHandler: bool, x: Choice, turn: Turn, authenticated: bool)
    requires TurnFits(phase, turn, authenticated) && Advance(id, phase, hasHandler, x).Progress?
    ensures var p := Advance(id, phase, hasHandler, x);
            if p.io.None? then TurnFits(p.phase, turn, authenticated)
            else TurnFits(p.phase, TurnAfter(turn, p.io.value), authenticated || p.io.value == Wrote(AuthenticationAccepted))
                 && (p.io.value.Requested? ==> authenticated)
  {
  }

  lemma AdvanceEvents(id: ConnId, phase: Phase, hasHandler: bool, x: Choice, events: seq<Event>)
    requires EventsFit(id, phase, events) && Advance(id, phase, hasHandler, x).Progress?
    ensures var p := Advance(id, phase, hasHandler, x); EventsFit(id, p.phase, events + Sent(p))
  {
  }

  lemma AdvanceSends(id: ConnId, phase: Phase, hasHandler: bool, x: Choice)
    requires Advance(id, phase, hasHandler, x).Progress?
    ensures forall e <- Sent(Advance(id, phase, hasHandler, x)) :: e.conn == id
  {
  }

  lemma AdvanceSettles(id: ConnId, phase: Phase, hasHandler: bool, x: Choice, told: seq<nat>, served: seq<ServedJob>,
                       pending: seq<Pending>)
    requires |told| <= |served| && ExchangeSettled(phase, told, served, pending)
    requires Advance(id, phase, hasHandler, x).Progress?
    ensures var p := Advance(id, phase, hasHandler, x);
            && ExchangeSettled(p.phase, told + ToldBy(p.io), served, pending + Handed(id, p))
            && (ToldBy(p.io) != [] ==> |told| < |served| && served[|told|].answer == Some(ToldBy(p.io)[0]))
            && (Handed(id, p) != [] ==> pending == [])
  {
  }

  function ToldBy(io: Option<Io>): seq<nat> {
    if io.Some? && io.value.Wrote? && io.value.frame.Reply? then [io.value.frame.answer] else []
  }

  lemma ExchangeAsks(asked: seq<Job>, told: seq<nat>, served: seq<ServedJob>, id: ConnId, job: Job)
    requires Exchange(asked, told, served, [])
    ensures Exchange(asked + [job], told, served, [Pending(id, job)])
  {
  }

  lemma ExchangeTells(asked: seq<Job>, told: seq<nat>, served: seq<ServedJob>, pending: seq<Pending>, answer: nat)
    requires Exchange(asked, told, served, pending) && |told| < |served| && served[|told|].answer == Some(answer)
    ensures Exchange(asked, told + [answer], served, pending)
  {
  }

  /** A task's own step keeps its own invariant. */
  lemma OwnStep(id: ConnId, c: Conn, hasHandler: bool, x: Choice, events: seq<Event>, pending: seq<Pending>,
                served: seq<ServedJob>)
    requires ConnInvariant(id, c, events, pending, served) && Advance(id, c.phase, hasHandler, x).Progress?
    ensures var p := Advance(id, c.phase, hasHandler, x);
            ConnInvariant(id, Moved(c, p), events + Sent(p), pending + Handed(id, p), served)
  {
    var p := Advance(id, c.phase, hasHandler, x);
    AdvanceTurn(id, c.phase, hasHandler, x, TurnOf(c.trace), Authenticated(c.trace));
    AdvanceEvents(id, c.phase, hasHandler, x, events);
    AdvanceSettles(id, c.phase, hasHandler, x, Told(c.trace), served, pending);
    OwnTrace(id, c, p, pending, served);
  }

  lemma OwnTrace(id: ConnId, c: Conn, p: Progress, pending: seq<Pending>, served: seq<ServedJob>)
    requires p.Progress? && Exchange(Asked(c.trace), Told(c.trace), served, pending)
    requires ToldBy(p.io) != [] ==> |Told(c.trace)| < |served| && served[|Told(c.trace)|].answer == Some(ToldBy(p.io)[0])
    requires Handed(id, p) != [] ==> pending == []
    ensures var trace := Moved(c, p).trace;
            && Told(trace) == Told(c.trace) + ToldBy(p.io)
            && Exchange(Asked(trace), Told(trace), served, pending + Handed(id, p))
            && (p.io.Some? ==> TurnOf(trace) == TurnAfter(TurnOf(c.trace), p.io.value))
            && (p.io.Some? ==> (Authenticated(trace) <==> Authenticated(c.trace) || p.io.value == Wrote(AuthenticationAccepted)))
            && (AuthenticatedFirst(c.trace) && (p.io.Some? && p.io.value.Requested? ==> Authenticated(c.trace)) ==>
                AuthenticatedFirst(trace))
  {
    assert pending + [] == pending && Told(c.trace) + [] == Told(c.trace) && Asked(c.trace) + [] == Asked(c.trace);
    if p.io.Some? {
      TraceAppend(c.trace, p.io.value);
      if p.io.value.Requested? {
        ExchangeAsks(Asked(c.trace), Told(c.trace), served, id, p.io.value.job);
        assert pending + Handed(id, p) == [Pending(id, p.io.value.job)];
      } else if ToldBy(p.io) != [] {
        ExchangeTells(Asked(c.trace), Told(c.trace), served, pending, p.io.value.frame.answer);
      }
    }
  }

  /** What is appended for one connection shows in that connection's view only. */
  lemma AppendOwn<T>(s: seq<T>, more: seq<T>, own: T -> bool, all: bool)
    requires forall x <- more :: own(x) == all
    ensures Filter(s + more, own) == Filter(s, own) + if all then more else []
  {
    FilterConcat(s, more, own);
    if all { FilterAll(more, own); } else { FilterNone(more, own); }
  }

  /** What one task's step adds to each connection's view. */
  lemma TaskViews(s: System, id: ConnId, x: Choice, other: ConnId)
    requires Possible(s, Task(id, x))
    ensures var p, s' := Advance(id, s.conns[id].phase, s.hasHandler, x), Next(s, Task(id, x));
            && Filter(s'.events, EventOf(other)) == Filter(s.events, EventOf(other)) + (if other == id then Sent(p) else [])
            && Filter(s'.pending, PendingOf(other)) ==
               Filter(s.pending, PendingOf(other)) + (if other == id then Handed(id, p) else [])
            && s'.served == s.served
  {
    var p := Advance(id, s.conns[id].phase, s.hasHandler, x);
    AdvanceSends(id, s.conns[id].phase, s.hasHandler, x);
    AppendOwn(s.events, Sent(p), EventOf(other), other == id);
    AppendOwn(s.pending, Handed(id, p), PendingOf(other), other == id);
  }

  lemma TaskStep(s: System, id: ConnId, x: Choice, other: ConnId)
    requires Invariant(s) && Possible(s, Task(id, x)) && other in s.conns
    ensures Fits(Next(s, Task(id, x)), other)
  {
    TaskViews(s, id, x, other);
    assert Fits(s, other);
    if other == id {
      OwnStep(id, s.conns[id], s.hasHandler, x, Filter(s.events, EventOf(id)), Filter(s.pending, PendingOf(id)),
              Filter(s.served, ServedOf(id)));
    } else {
      assert Filter(s.events, EventOf(other)) + [] == Filter(s.events, EventOf(other));
      assert Filter(s.pending, PendingOf(other)) + [] == Filter(s.pending, PendingOf(other));
    }
  }

  // ----- Serving a job ---------------------------------------------------------------------------

  lemma FilterWithout<T>(s: seq<T>, i: nat, p: T -> bool)
    requires i < |s|
    ensures Filter(s[..i] + s[i + 1..], p) == Filter(s[..i], p) + Filter(s[i + 1..], p)
    ensures Filter(s, p) == Filter(s[..i], p) + ((if p(s[i]) then [s[i]] else []) + Filter(s[i + 1..], p))
  {
    var a, b := s[..i], s[i..];
    FilterConcat(a, s[i + 1..], p);
    FilterConcat(a, b, p);
    assert a + b == s;
    FilterHead(b, p);
    assert b[1..] == s[i + 1..];
  }

  lemma FilterHead<T>(s: seq<T>, p: T -> bool)
    requires s != []
    ensures Filter(s, p) == (if p(s[0]) then [s[0]] else []) + Filter(s[1..], p)
  {
  }

  /** Every pending job belongs to a connection that waits for its answer, so serving is never blocked. */
  lemma PendingWaits(s: System, index: nat)
    requires Invariant(s) && index < |s.pending|
    ensures var id := s.pending[index].conn;
            && id in s.conns && s.conns[id].phase.AwaitAnswer? && s.conns[id].phase.inbox == Empty
            && Filter(s.pending, PendingOf(id)) == [s.pending[index]]
            && Filter(s.pending[..index] + s.pending[index + 1..], PendingOf(id)) == []
  {
    var id := s.pending[index].conn;
    FilterWithout(s.pending, index, PendingOf(id));
    if id in s.conns { assert Fits(s, id); }
  }

  lemma ServeOwn(id: ConnId, c: Conn, events: seq<Event>, job: Pending, served: seq<ServedJob>, answer: Option<nat>)
    requires c.phase.AwaitAnswer? && c.phase.inbox == Empty && ConnInvariant(id, c, events, [job], served)
    ensures var c' := c.(phase := AwaitAnswer(c.phase.client, if answer.Some? then Answered(answer.value) else Dropped));
            ConnInvariant(id, c', events, [], served + [ServedJob(job.conn, job.job, answer)])
  {
    assert [job][0].job == Asked(c.trace)[|served|];
  }

  lemma ServeStep(s: System, index: nat, answer: Option<nat>, other: ConnId)
    requires Invariant(s) && Possible(s, Serve(index, answer)) && other in s.conns
    ensures Fits(Next(s, Serve(index, answer)), other)
  {
    var job := s.pending[index];
    var done := ServedJob(job.conn, job.job, answer);
    assert Fits(s, other);
    AppendOwn(s.served, [done], ServedOf(other), other == job.conn);
    if other == job.conn {
      PendingWaits(s, index);
      ServeOwn(other, s.conns[other], Filter(s.events, EventOf(other)), job, Filter(s.served, ServedOf(other)), answer);
    } else {
      FilterWithout(s.pending, index, PendingOf(other));
      assert Filter(s.served, ServedOf(other)) + [] == Filter(s.served, ServedOf(other));
      assert [] + Filter(s.pending[index + 1..], PendingOf(other)) == Filter(s.pending[index + 1..], PendingOf(other));
    }
  }

  // ----- Every step -------------------------------------------------------------------------------

  lemma AcceptStep(s: System, other: ConnId)
    requires Invariant(s) && other in Next(s, Accept).conns
    ensures other < s.counter + 1 && Fits(Next(s, Accept), other)
  {
    if other == s.counter {
      assert Untouched(s, other);
    } else {
      assert Fits(s, other);
    }
  }

  lemma StepUntouched(s: System, step: Step, id: ConnId)
    requires Invariant(s) && Possible(s, step) && id !in Next(s, step).conns
    ensures Untouched(Next(s, step), id)
  {
    assert Untouched(s, id);
    match step
    case Accept =>
    case Task(conn, x) =>
      TaskViews(s, conn, x, id);
    case Serve(index, answer) =>
      FilterWithout(s.pending, index, PendingOf(id));
      AppendOwn(s.served, [ServedJob(s.pending[index].conn, s.pending[index].job, answer)], ServedOf(id), false);
  }

  lemma StepKeeps(s: System, step: Step)
    requires Invariant(s) && Possible(s, step)
    ensures Invariant(Next(s, step))
  {
    var s' := Next(s, step);
    forall id | id in s'.conns
      ensures id < s'.counter && Fits(s', id)
    {
      match step
      case Accept => AcceptStep(s, id);
      case Task(conn, x) => TaskStep(s, conn, x, id);
      case Serve(index, answer) => ServeStep(s, index, answer, id);
    }
    forall id: ConnId | id !in s'.conns
      ensures Untouched(s', id)
    {
      StepUntouched(s, step, id);
    }
  }

  // ----- Runs ------------------------------------------------------------------------------------

  ghost predicate AllPossible(s: System, steps: seq<Step>)
    decreases |steps|
  {
    steps == [] || (Possible(s, steps[0]) && AllPossible(Next(s, steps[0]), steps[1..]))
  }

  ghost function Run(s: System, steps: seq<Step>): System
    requires AllPossible(s, steps)
    decreases |steps|
  {
    if steps == [] then s else Run(Next(s, steps[0]), steps[1..])
  }

  function Listening(hasHandler: bool): System { System(hasHandler, 0, map[], [], [], []) }

  lemma {:induction false} InvariantInEveryRun(s: System, steps: seq<Step>)
    requires Invariant(s) && AllPossible(s, steps)
    ensures Invariant(Run(s, steps))
    decreases |steps|
  {
    if steps != [] {
      StepKeeps(s, steps[0]);
      InvariantInEveryRun(Next(s, steps[0]), steps[1..]);
    }
  }

  lemma Reachable(hasHandler: bool, steps: seq<Step>)
    requires AllPossible(Listening(hasHandler), steps)
    ensures Invariant(Run(Listening(hasHandler), steps))
  {
    InvariantInEveryRun(Listening(hasHandler), steps);
  }

  // ----- The guarantees ------------------------------------------------------------------------------

  /** A new connection gets an id that no connection ever had. */
  lemma IdsUnique(hasHandler: bool, steps: seq<Step>)
    requires AllPossible(Listening(hasHandler), steps)
    ensures var s := Run(Listening(hasHandler), steps);
            s.counter !in s.conns && Filter(s.events, EventOf(s.counter)) == []
  {
    Reachable(hasHandler, steps);
    var s := Run(Listening(hasHandler), steps);
    if s.counter !in s.conns { assert Untouched(s, s.counter); }
  }

  /** A connection's events are a prefix of Connect followed by exactly one of the two endings. */
  ghost predicate SessionEvents(id: ConnId, events: seq<Event>) {
    events == [] || exists client ::
      events == [ClientConnect(client, id)] ||
      events == [ClientConnect(client, id), ClientDisconnect(client, id)] ||
      events == [ClientConnect(client, id), ClientConnectionLoss(client, id)]
  }

  lemma EventsOrderly(hasHandler: bool, steps: seq<Step>, id: ConnId)
    requires AllPossible(Listening(hasHandler), steps)
    ensures SessionEvents(id, Filter(Run(Listening(hasHandler), steps).events, EventOf(id)))
  {
    Reachable(hasHandler, steps);
    var s := Run(Listening(hasHandler), steps);
    if id in s.conns { assert Fits(s, id); } else { assert Untouched(s, id); }
  }

  /** No request reaches the engine or the handler before AuthenticationAccepted was written. */
  lemma NoRequestBeforeAuthentication(hasHandler: bool, steps: seq<Step>, id: ConnId, i: nat)
    requires AllPossible(Listening(hasHandler), steps)
    requires id in Run(Listening(hasHandler), steps).conns
    requires var trace := Run(Listening(hasHandler), steps).conns[id].trace; i < |trace| && trace[i].Requested?
    ensures Wrote(AuthenticationAccepted) in Run(Listening(hasHandler), steps).conns[id].trace[..i]
  {
    Reachable(hasHandler, steps);
    assert Fits(Run(Listening(hasHandler), steps), id);
  }

  ghost function WritesIn(trace: seq<Io>): nat {
    if trace == [] then 0 else WritesIn(trace[..|trace| - 1]) + if trace[|trace| - 1].Wrote? then 1 else 0
  }

  lemma {:induction false} UnbrokenPrefix(trace: seq<Io>, i: nat)
    requires i <= |trace| && TurnOf(trace) != Broken
    ensures TurnOf(trace[..i]) != Broken
  {
    if i < |trace| {
      var front := trace[..|trace| - 1];
      UnbrokenPrefix(front, i);
      assert front[..i] == trace[..i];
    } else {
      assert trace[..i] == trace;
    }
  }

  /** After a successful read at `i` and before the next one, the turn tells how many frames were written. */
  lemma {:induction false} SinceRead(trace: seq<Io>, i: nat, j: nat)
    requires i < j <= |trace| && trace[i].ReadOk? && TurnOf(trace[..j]) != Broken
    requires forall k :: i < k < j ==> !trace[k].ReadOk?
    ensures TurnOf(trace[..j]) == Owing ==> WritesIn(trace[i + 1..j]) == 0
    ensures TurnOf(trace[..j]) == Reading ==> WritesIn(trace[i + 1..j]) == 1
    decreases j
  {
    assert trace[..j][..j - 1] == trace[..j - 1];
    if j == i + 1 {
      assert trace[i + 1..j] == [];
      assert TurnOf(trace[..j]) == TurnAfter(TurnOf(trace[..i]), trace[i]);
    } else {
      assert TurnOf(trace[..j]) == TurnAfter(TurnOf(trace[..j - 1]), trace[j - 1]);
      SinceRead(trace, i, j - 1);
      assert trace[i + 1..j][..j - 1 - (i + 1)] == trace[i + 1..j - 1];
    }
  }

  /** Exactly one frame is written between two consecutive successful reads. */
  lemma OneFrameBetweenReads(hasHandler: bool, steps: seq<Step>, id: ConnId, i: nat, j: nat)
    requires AllPossible(Listening(hasHandler), steps)
    requires id in Run(Listening(hasHandler), steps).conns
    requires var trace := Run(Listening(hasHandler), steps).conns[id].trace;
             && i < j < |trace| && trace[i].ReadOk? && trace[j].ReadOk?
             && forall k :: i < k < j ==> !trace[k].ReadOk?
    ensures WritesIn(Run(Listening(hasHandler), steps).conns[id].trace[i + 1..j]) == 1
  {
    Reachable(hasHandler, steps);
    var s := Run(Listening(hasHandler), steps);
    assert Fits(s, id);
    var trace := s.conns[id].trace;
    ReadingBeforeRead(trace, j);
    SinceRead(trace, i, j);
  }

  lemma ReadingBeforeRead(trace: seq<Io>, j: nat)
    requires j < |trace| && trace[j].ReadOk? && TurnOf(trace) != Broken
    ensures TurnOf(trace[..j]) == Reading
  {
    UnbrokenPrefix(trace, j + 1);
    assert trace[..j + 1][..j] == trace[..j];
    assert TurnOf(trace[..j + 1]) == TurnAfter(TurnOf(trace[..j]), trace[j]);
  }

  /** The k-th reply a connection writes is the answer given to its own k-th request. */
  lemma RepliesMatchRequests(hasHandler: bool, steps: seq<Step>, id: ConnId, k: nat)
    requires AllPossible(Listening(hasHandler), steps)
    requires id in Run(Listening(hasHandler), steps).conns
    requires k < |Told(Run(Listening(hasHandler), steps).conns[id].trace)|
    ensures var s := Run(Listening(hasHandler), steps);
            var c, served := s.conns[id], Filter(s.served, ServedOf(id));
            && k < |served| && k < |Asked(c.trace)|
            && served[k].answer == Some(Told(c.trace)[k]) && served[k].job == Asked(c.trace)[k]
  {
    Reachable(hasHandler, steps);
    assert Fits(Run(Listening(hasHandler), steps), id);
  }
}
