/** The health monitor object: its report of all clients and the reports it sends. */
module HealthMonitor {
  import opened Types
  import opened HealthModel

  /** A broadcast event as the monitor sees it. */
  datatype Incoming = ClientEventReceived(client: ClientId, kind: Kind, connId: nat, ip: nat)
                    | Unrelated
                    | Lagged
                    | Closed

  /** The counting loop with its early exit. */
  method CountRecentLosses(events: seq<ClientEvent>, cutoff: Instant) returns (count: nat)
    ensures count == EarlyExitCount(events, cutoff)
    ensures NewestFirst(events) ==> count == LossesSince(events, cutoff)
  {
    count := 0;
    if NewestFirst(events) { EarlyExitExact(events, cutoff); }
    var i := 0;
    while i < |events|
      invariant 0 <= i <= |events|
      invariant count + EarlyExitCount(events[i..], cutoff) == EarlyExitCount(events, cutoff)
    {
      if events[i].at < cutoff {
        break;
      }
      if events[i].kind.ConnectionLoss? {
        count := count + 1;
      }
      assert events[i..][1..] == events[i + 1..];
      i := i + 1;
    }
  }

  /** One client's part of the check. */
  method CheckClient(s: ClientStatus, limits: Limits, now: Instant) returns (r: Checked)
    ensures r == Check(s, limits, now)
  {
    if s.health.Offline? || s.events == [] {
      return Checked(s, Unchanged);
    }
    var latest := Latest(s.events);
    if latest.kind.ConnectionLoss? && latest.at <= now - limits.offlineGrace {
      return Checked(s.(health := Offline, since := now), Alert);
    }
    if s.health.Unstable? && latest.kind.Connect? && latest.at <= now - limits.recoveryGrace {
      return Checked(s.(health := Healthy, since := now), Silent);
    }
    if s.health.Healthy? {
      var losses := CountRecentLosses(s.events, now - limits.lossWindow);
      if losses >= limits.connectionLossLimit {
        return Checked(s.(health := Unstable, since := now), Alert);
      }
    }
    r := Checked(s, Unchanged);
  }

  ghost function UpdatedBy(clients: map<ClientId, ClientStatus>, limits: Limits, now: Instant, update: Update): set<ClientId> {
    set c | c in clients && Check(clients[c], limits, now).update == update
  }

  function CheckedAll(clients: map<ClientId, ClientStatus>, limits: Limits, now: Instant): map<ClientId, ClientStatus> {
    map c | c in clients :: Check(clients[c], limits, now).status
  }

  /** Exactly the clients outside `pending` have been checked. */
  ghost predicate CheckedExcept(before: map<ClientId, ClientStatus>, after: map<ClientId, ClientStatus>, limits: Limits, now: Instant,
                                pending: set<ClientId>) {
    && after.Keys == before.Keys
    && forall c :: c in before ==> after[c] == if c in pending then before[c] else Check(before[c], limits, now).status
  }

  predicate SomeoneUnwell(clients: map<ClientId, ClientStatus>) {
    exists c :: c in clients && !clients[c].health.Healthy?
  }

  // ----- All clients together -----------------------------------------------------------------

  /** Every client's status and the complete log of its events, newest first. */
  datatype Monitored = Monitored(clients: map<ClientId, ClientStatus>, logs: map<ClientId, seq<ClientEvent>>, clock: Instant)

  datatype MonitorInput = Arrives(x: Incoming, firstNow: Instant, sinceNow: Instant, eventNow: Instant)
                        | CheckAll(now: Instant)

  ghost predicate Permitted(m: Monitored, i: MonitorInput) {
    match i
    case Arrives(_, firstNow, sinceNow, eventNow) => m.clock <= firstNow <= sinceNow <= eventNow
    case CheckAll(now) => m.clock <= now
  }

  function LogOf(m: Monitored, c: ClientId): seq<ClientEvent> { if c in m.logs then m.logs[c] else [] }

  function StepAll(limits: Limits, m: Monitored, i: MonitorInput): Monitored {
    match i
    case CheckAll(now) =>
      Monitored(CheckedAll(m.clients, limits, now), m.logs, now)
    case Arrives(x, firstNow, sinceNow, eventNow) =>
      if !x.ClientEventReceived? then m.(clock := eventNow)
      else
        var before := if x.client in m.clients then m.clients[x.client] else Unseen(firstNow);
        Monitored(
          m.clients[x.client := OnEvent(before, limits.maxClientEvents, x.kind, x.connId, x.ip, sinceNow, eventNow)],
          m.logs[x.client := [ClientEvent(x.kind, x.connId, eventNow)] + LogOf(m, x.client)],
          eventNow)
  }

  /** Each client's status and log are as if it were monitored alone. */
  ghost predicate AllInvariant(limits: Limits, m: Monitored) {
    m.logs.Keys == m.clients.Keys && forall c :: c in m.clients ==> Invariant(limits, Tracked(m.clients[c], m.logs[c], m.clock))
  }

  lemma LaterInvariant(limits: Limits, t: Tracked, now: Instant)
    requires Invariant(limits, t) && t.clock <= now
    ensures Invariant(limits, t.(clock := now))
  {
  }

  /** What happens to one client, whichever client the input is about. */
  lemma ClientStep(limits: Limits, m: Monitored, i: MonitorInput, c: ClientId)
    requires Build(limits).Built? && AllInvariant(limits, m) && Permitted(m, i) && c in StepAll(limits, m, i).clients
    ensures var m' := StepAll(limits, m, i); c in m'.logs && Invariant(limits, Tracked(m'.clients[c], m'.logs[c], m'.clock))
  {
    var m' := StepAll(limits, m, i);
    if i.CheckAll? {
      StepKeeps(limits, Tracked(m.clients[c], m.logs[c], m.clock), CheckAt(i.now));
    } else if i.x.ClientEventReceived? && i.x.client == c {
      var t := Tracked(if c in m.clients then m.clients[c] else Unseen(i.firstNow), LogOf(m, c), m.clock);
      StepKeeps(limits, t, Happens(i.x.kind, i.x.connId, i.x.ip, i.sinceNow, i.eventNow));
    } else {
      LaterInvariant(limits, Tracked(m.clients[c], m.logs[c], m.clock), m'.clock);
    }
  }

  ghost predicate PermittedRun(limits: Limits, m: Monitored, inputs: seq<MonitorInput>)
    decreases |inputs|
  {
    inputs == [] || (Permitted(m, inputs[0]) && PermittedRun(limits, StepAll(limits, m, inputs[0]), inputs[1..]))
  }

  ghost function RunAll(limits: Limits, m: Monitored, inputs: seq<MonitorInput>): Monitored
    decreases |inputs|
  {
    if inputs == [] then m else RunAll(limits, StepAll(limits, m, inputs[0]), inputs[1..])
  }

  lemma {:induction false} AllInvariantInEveryRun(limits: Limits, m: Monitored, inputs: seq<MonitorInput>)
    requires Build(limits).Built? && AllInvariant(limits, m) && PermittedRun(limits, m, inputs)
    ensures AllInvariant(limits, RunAll(limits, m, inputs))
    decreases |inputs|
  {
    if inputs != [] {
      var m' := StepAll(limits, m, inputs[0]);
      forall c | c in m'.clients
        ensures c in m'.logs && Invariant(limits, Tracked(m'.clients[c], m'.logs[c], m'.clock))
      {
        ClientStep(limits, m, inputs[0], c);
      }
      AllInvariantInEveryRun(limits, m', inputs[1..]);
    }
  }

  function Starting(known: set<ClientId>, now: Instant): Monitored {
    Monitored(map c | c in known :: Unseen(now), map c | c in known :: [], now)
  }

  /** However the events of many clients and the checks interleave, every client's log and health are sound. */
  lemma EveryClientSound(limits: Limits, known: set<ClientId>, start: Instant, inputs: seq<MonitorInput>, c: ClientId)
    requires Build(limits).Built? && PermittedRun(limits, Starting(known, start), inputs)
    requires c in RunAll(limits, Starting(known, start), inputs).clients
    ensures var m := RunAll(limits, Starting(known, start), inputs);
            c in m.logs && Invariant(limits, Tracked(m.clients[c], m.logs[c], m.clock))
  {
    AllInvariantInEveryRun(limits, Starting(known, start), inputs);
  }

  /** The clients whose health differs for the worse, and for the better. */
  ghost function GotWorse(before: map<ClientId, ClientStatus>, after: map<ClientId, ClientStatus>): set<ClientId> {
    set c | c in before && c in after && Badness(after[c].health) > Badness(before[c].health)
  }

  ghost function GotBetter(before: map<ClientId, ClientStatus>, after: map<ClientId, ClientStatus>): set<ClientId> {
    set c | c in before && c in after && Badness(after[c].health) < Badness(before[c].health)
  }

  lemma UpdatesExactly(clients: map<ClientId, ClientStatus>, limits: Limits, now: Instant)
    ensures UpdatedBy(clients, limits, now, Alert) == GotWorse(clients, CheckedAll(clients, limits, now))
    ensures UpdatedBy(clients, limits, now, Silent) == GotBetter(clients, CheckedAll(clients, limits, now))
  {
    forall c | c in clients
      ensures Check(clients[c], limits, now).update.Alert? <==>
              Badness(Check(clients[c], limits, now).status.health) > Badness(clients[c].health)
      ensures Check(clients[c], limits, now).update.Silent? <==>
              Badness(Check(clients[c], limits, now).status.health) < Badness(clients[c].health)
    {
      UpdateExactly(clients[c], limits, now);
    }
  }

  /** In every run, a check judges every client by its own log as it should. */
  lemma ChecksInEveryRun(limits: Limits, known: set<ClientId>, start: Instant, inputs: seq<MonitorInput>, now: Instant, c: ClientId)
    requires Build(limits).Built? && PermittedRun(limits, Starting(known, start), inputs)
    requires c in RunAll(limits, Starting(known, start), inputs).clients
    ensures var m := RunAll(limits, Starting(known, start), inputs);
            var m' := StepAll(limits, m, CheckAll(now));
            c in m'.clients && Judged(m.clients[c], m'.clients[c], limits, now)
  {
    var m := RunAll(limits, Starting(known, start), inputs);
    EveryClientSound(limits, known, start, inputs, c);
    TakeNewestFirst(limits, Tracked(m.clients[c], m.logs[c], m.clock));
    CheckExactly(m.clients[c], limits, now);
  }

  /** In every run, no client whose decisive event is a loss older than the grace outlives a check as healthy or unstable. */
  lemma LostClientsGoOffline(limits: Limits, known: set<ClientId>, start: Instant, inputs: seq<MonitorInput>, now: Instant,
                             c: ClientId, e: ClientEvent)
    requires Build(limits).Built? && PermittedRun(limits, Starting(known, start), inputs)
    requires c in RunAll(limits, Starting(known, start), inputs).clients
    requires Decisive(RunAll(limits, Starting(known, start), inputs).clients[c].events, e)
    requires e.kind.ConnectionLoss? && e.at + limits.offlineGrace <= now
    ensures var m' := StepAll(limits, RunAll(limits, Starting(known, start), inputs), CheckAll(now));
            c in m'.clients && m'.clients[c].health.Offline?
  {
    ChecksInEveryRun(limits, known, start, inputs, now, c);
  }

  class Monitor {
    const limits: Limits
    var clients: map<ClientId, ClientStatus>
    /** The reports sent so far; `true` for silent ones. */
    var sent: seq<bool>
    ghost var logs: map<ClientId, seq<ClientEvent>>
    ghost var clock: Instant

    ghost function View(): Monitored
      reads this
    {
      Monitored(clients, logs, clock)
    }

    constructor (limits: Limits, known: set<ClientId>, now: Instant)
      requires Build(limits).Built?
      ensures this.limits == limits && sent == [] && View() == Starting(known, now)
    {
      this.limits := limits;
      clients := map c | c in known :: Unseen(now);
      sent := [];
      logs := map c | c in known :: [];
      clock := now;
    }

    /** The loop over all clients, in any order, with its counts of loud and silent updates. */
    method JudgeAll(now: Instant) returns (silentUpdates: nat, alertUpdates: nat)
      modifies this`clients
      ensures clients == CheckedAll(old(clients), limits, now)
      ensures silentUpdates == 0 <==> UpdatedBy(old(clients), limits, now, Silent) == {}
      ensures alertUpdates == 0 <==> UpdatedBy(old(clients), limits, now, Alert) == {}
    {
      silentUpdates, alertUpdates := 0, 0;
      var pending := clients.Keys;
      while pending != {}
        invariant pending <= old(clients).Keys && CheckedExcept(old(clients), clients, limits, now, pending)
        invariant silentUpdates == 0 <==> UpdatedBy(old(clients), limits, now, Silent) <= pending
        invariant alertUpdates == 0 <==> UpdatedBy(old(clients), limits, now, Alert) <= pending
      {
        var c :| c in pending;
        pending := pending - {c};
        var result := CheckClient(clients[c], limits, now);
        clients := clients[c := result.status];
        if result.update.Alert? {
          alertUpdates := alertUpdates + 1;
        } else if result.update.Silent? {
          silentUpdates := silentUpdates + 1;
        }
      }
      assert clients == CheckedAll(old(clients), limits, now);
    }

    /**
     * Every client is judged by its own log; one report goes out, loud if anyone got worse,
     * silent if clients only recovered, and none if nothing changed.
     */
    method CheckClients(now: Instant)
      modifies this
      ensures View() == StepAll(limits, old(View()), CheckAll(now))
      ensures sent == old(sent) +
              if GotWorse(old(clients), clients) != {} then [false]
              else if GotBetter(old(clients), clients) != {} then [true] else []
    {
      UpdatesExactly(clients, limits, now);
      var silentUpdates, alertUpdates := JudgeAll(now);
      clock := now;
      if alertUpdates > 0 {
        sent := sent + [false];
      } else if silentUpdates > 0 {
        sent := sent + [true];
      }
    }

    /** A loud reminder, exactly when some client is not healthy. */
    method SendReminder()
      modifies this`sent
      ensures (forall c :: c in clients ==> clients[c].health == Healthy) ==> sent == old(sent)
      ensures (exists c :: c in clients && clients[c].health != Healthy) ==> sent == old(sent) + [false]
    {
      if SomeoneUnwell(clients) {
        ghost var c :| c in clients && !clients[c].health.Healthy?;
        sent := sent + [false];
        assert clients[c].health != Healthy;
      }
    }

    function StatusOf(client: ClientId, now: Instant): ClientStatus
      reads this
    {
      if client in clients then clients[client] else Unseen(now)
    }

    /** Clients are reported silently when they come back from offline or disconnect. */
    method HandleEventRecv(x: Incoming, firstNow: Instant, sinceNow: Instant, eventNow: Instant) returns (proceed: bool)
      modifies this
      ensures proceed == !x.Closed? && View() == StepAll(limits, old(View()), Arrives(x, firstNow, sinceNow, eventNow))
      ensures sent == old(sent) +
              if x.ClientEventReceived? && (x.kind.Disconnect? || (x.kind.Connect? && old(StatusOf(x.client, firstNow)).health.Offline?))
              then [true] else []
    {
      clock := eventNow;
      if !x.ClientEventReceived? {
        return !x.Closed?;
      }
      proceed := true;
      var client := StatusOf(x.client, firstNow);
      var shouldSendReport := false;
      match x.kind {
        case Connect =>
          client := client.(localIp := Some(x.ip));
          if client.health.Offline? {
            client := client.(health := Healthy, since := sinceNow);
            shouldSendReport := true;
          }
        case Disconnect =>
          client := client.(health := Offline, since := sinceNow);
          shouldSendReport := true;
        case ConnectionLoss =>
      }
      client := client.(events := [ClientEvent(x.kind, x.connId, eventNow)] + client.events);
      if |client.events| > limits.maxClientEvents {
        client := client.(events := client.events[..|client.events| - 1]);
      }
      clients := clients[x.client := client];
      logs := logs[x.client := [ClientEvent(x.kind, x.connId, eventNow)] + LogOf(View(), x.client)];
      if shouldSendReport {
        sent := sent + [true];
      }
    }
  }
}
