/**
 * Client health: bounded event logs, newest first, and the periodic check that demotes and
 * promotes clients. Each client is judged by its own log alone, so runs are per client.
 */
module HealthModel {
  import opened Types
  import opened Sequences

  datatype Kind = Connect | Disconnect | ConnectionLoss

  datatype ClientEvent = ClientEvent(kind: Kind, connId: nat, at: Instant)

  datatype Health = Healthy | Unstable | Offline

  datatype ClientStatus = ClientStatus(health: Health, since: Instant, localIp: Option<nat>, events: seq<ClientEvent>)

  datatype Limits = Limits(maxClientEvents: nat, connectionLossLimit: nat,
                           offlineGrace: Duration, lossWindow: Duration, recoveryGrace: Duration)

  datatype BuildError = MaxClientEventsBelowTwo | ConnectionLossLimitBelowOne

  datatype BuildResult = Built(limits: Limits) | Failed(error: BuildError)

  function Build(limits: Limits): BuildResult {
    if limits.maxClientEvents < 2 then Failed(MaxClientEventsBelowTwo)
    else if limits.connectionLossLimit < 1 then Failed(ConnectionLossLimitBelowOne)
    else Built(limits)
  }

  /** Two events have to fit into a log for the decisive one to be found, and a limit of no losses makes no sense. */
  lemma BuildExactly(limits: Limits)
    ensures Build(limits) == Built(limits) <==> limits.maxClientEvents >= 2 && limits.connectionLossLimit >= 1
    ensures Build(limits) == Failed(MaxClientEventsBelowTwo) <==> limits.maxClientEvents < 2
  {
  }

  // ----- Receiving events ----------------------------------------------------------------

  function Unseen(now: Instant): ClientStatus { ClientStatus(Offline, now, None, []) }

  /** `push_front`, then `pop_back` when the log has grown beyond its limit. */
  function Logged(events: seq<ClientEvent>, e: ClientEvent, max: nat): seq<ClientEvent> {
    var grown := [e] + events;
    if |grown| > max then grown[..|grown| - 1] else grown
  }

  /** The status change and the log entry read the clock separately. */
  function OnEvent(s: ClientStatus, max: nat, kind: Kind, connId: nat, ip: nat, sinceNow: Instant, eventNow: Instant): ClientStatus {
    var logged := s.(events := Logged(s.events, ClientEvent(kind, connId, eventNow), max));
    match kind
    case Connect =>
      var known := logged.(localIp := Some(ip));
      if s.health.Offline? then known.(health := Healthy, since := sinceNow) else known
    case Disconnect => logged.(health := Offline, since := sinceNow)
    case ConnectionLoss => logged
  }

  // ----- The periodic check ----------------------------------------------------------------

  /** Of the two newest events, the one of the later connection; the newer one in a tie. */
  function Latest(events: seq<ClientEvent>): ClientEvent
    requires events != []
  {
    if |events| >= 2 && events[1].connId > events[0].connId then events[1] else events[0]
  }

  /** Losses counted from the newest event on, stopping at the first one before the cutoff. */
  function EarlyExitCount(events: seq<ClientEvent>, cutoff: Instant): nat {
    if events == [] || events[0].at < cutoff then 0
    else (if events[0].kind.ConnectionLoss? then 1 else 0) + EarlyExitCount(events[1..], cutoff)
  }

  datatype Update = Unchanged | Silent | Alert

  datatype Checked = Checked(status: ClientStatus, update: Update)

  function Check(s: ClientStatus, limits: Limits, now: Instant): Checked {
    if s.health.Offline? || s.events == [] then Checked(s, Unchanged)
    else
      var latest := Latest(s.events);
      if latest.kind.ConnectionLoss? && latest.at <= now - limits.offlineGrace then
        Checked(s.(health := Offline, since := now), Alert)
      else if s.health.Unstable? && latest.kind.Connect? && latest.at <= now - limits.recoveryGrace then
        Checked(s.(health := Healthy, since := now), Silent)
      else if s.health.Healthy? && EarlyExitCount(s.events, now - limits.lossWindow) >= limits.connectionLossLimit then
        Checked(s.(health := Unstable, since := now), Alert)
      else Checked(s, Unchanged)
  }

  // ----- Runs of one client -----------------------------------------------------------------

  /** A client with the complete log of its events, newest first, and the latest clock reading. */
  datatype Tracked = Tracked(status: ClientStatus, full: seq<ClientEvent>, clock: Instant)

  datatype Input = Happens(kind: Kind, connId: nat, ip: nat, sinceNow: Instant, eventNow: Instant)
                 | CheckAt(now: Instant)

  /** Clock readings never go back. */
  ghost predicate Enabled(t: Tracked, i: Input) {
    match i
    case Happens(_, _, _, sinceNow, eventNow) => t.clock <= sinceNow <= eventNow
    case CheckAt(now) => t.clock <= now
  }

  function Next(limits: Limits, t: Tracked, i: Input): Tracked {
    match i
    case Happens(kind, connId, ip, sinceNow, eventNow) =>
      Tracked(OnEvent(t.status, limits.maxClientEvents, kind, connId, ip, sinceNow, eventNow),
              [ClientEvent(kind, connId, eventNow)] + t.full, eventNow)
    case CheckAt(now) => Tracked(Check(t.status, limits, now).status, t.full, now)
  }

  ghost predicate EnabledRun(limits: Limits, t: Tracked, inputs: seq<Input>)
    decreases |inputs|
  {
    inputs == [] || (Enabled(t, inputs[0]) && EnabledRun(limits, Next(limits, t, inputs[0]), inputs[1..]))
  }

  function Run(limits: Limits, t: Tracked, inputs: seq<Input>): Tracked
    decreases |inputs|
  {
    if inputs == [] then t else Run(limits, Next(limits, t, inputs[0]), inputs[1..])
  }

  // ----- What holds in every reachable state -------------------------------------------------

  ghost predicate NewestFirst(events: seq<ClientEvent>) {
    forall i, j :: 0 <= i < j < |events| ==> events[i].at >= events[j].at
  }

  /** No log can hold enough losses, or a log that does is nothing but losses and its client offline at once. */
  predicate NeverUnstable(limits: Limits) {
    || limits.connectionLossLimit > limits.maxClientEvents
    || (limits.connectionLossLimit == limits.maxClientEvents && limits.offlineGrace == 0)
  }

  /** The log is the newest part of the complete one, and only offline clients have none. */
  ghost predicate Invariant(limits: Limits, t: Tracked) {
    && t.status.events == Take(t.full, limits.maxClientEvents)
    && NewestFirst(t.full) && (forall e <- t.full :: e.at <= t.clock)
    && (t.status.events == [] ==> t.status.health.Offline?)
    && (NeverUnstable(limits) ==> !t.status.health.Unstable?)
  }

  lemma LoggedTakes(full: seq<ClientEvent>, e: ClientEvent, max: nat)
    requires max >= 1
    ensures Logged(Take(full, max), e, max) == Take([e] + full, max)
  {
  }

  lemma {:induction false} CountBounded(events: seq<ClientEvent>, cutoff: Instant)
    ensures EarlyExitCount(events, cutoff) <= |events|
    ensures EarlyExitCount(events, cutoff) == |events| ==> forall i :: 0 <= i < |events| ==> events[i].kind.ConnectionLoss?
  {
    if events != [] {
      CountBounded(events[1..], cutoff);
      assert forall i :: 1 <= i < |events| ==> events[i] == events[1..][i - 1];
    }
  }

  lemma StepKeeps(limits: Limits, t: Tracked, i: Input)
    requires Build(limits).Built? && Invariant(limits, t) && Enabled(t, i)
    ensures Invariant(limits, Next(limits, t, i))
  {
    match i
    case Happens(kind, connId, ip, sinceNow, eventNow) =>
      LoggedTakes(t.full, ClientEvent(kind, connId, eventNow), limits.maxClientEvents);
    case CheckAt(now) =>
      CountBounded(t.status.events, now - limits.lossWindow);
  }

  lemma {:induction false} InvariantInEveryRun(limits: Limits, t: Tracked, inputs: seq<Input>)
    requires Build(limits).Built? && Invariant(limits, t) && EnabledRun(limits, t, inputs)
    ensures Invariant(limits, Run(limits, t, inputs))
    decreases |inputs|
  {
    if inputs != [] {
      StepKeeps(limits, t, inputs[0]);
      InvariantInEveryRun(limits, Next(limits, t, inputs[0]), inputs[1..]);
    }
  }

  /** From the first sight of a client on: the log is the newest events, newest first, and so on. */
  lemma ReachableInvariant(limits: Limits, start: Instant, inputs: seq<Input>)
    requires Build(limits).Built? && EnabledRun(limits, Tracked(Unseen(start), [], start), inputs)
    ensures Invariant(limits, Run(limits, Tracked(Unseen(start), [], start), inputs))
  {
    InvariantInEveryRun(limits, Tracked(Unseen(start), [], start), inputs);
  }

  // ----- Counting losses -----------------------------------------------------------------------

  /** All losses in the log at or after the cutoff. */
  ghost function LossesSince(events: seq<ClientEvent>, cutoff: Instant): nat {
    if events == [] then 0
    else (if events[0].kind.ConnectionLoss? && events[0].at >= cutoff then 1 else 0) + LossesSince(events[1..], cutoff)
  }

  lemma {:induction false} NoLossesSince(events: seq<ClientEvent>, cutoff: Instant)
    requires forall e <- events :: e.at < cutoff
    ensures LossesSince(events, cutoff) == 0 && EarlyExitCount(events, cutoff) == 0
  {
    if events != [] { NoLossesSince(events[1..], cutoff); }
  }

  /** On a log that is newest first the early exit misses nothing. */
  lemma {:induction false} EarlyExitExact(events: seq<ClientEvent>, cutoff: Instant)
    requires NewestFirst(events)
    ensures EarlyExitCount(events, cutoff) == LossesSince(events, cutoff)
  {
    if events != [] {
      if events[0].at < cutoff {
        NoLossesSince(events, cutoff);
      } else {
        EarlyExitExact(events[1..], cutoff);
      }
    }
  }

  lemma {:induction false} LaterCutoffCountsLess(events: seq<ClientEvent>, cutoff: Instant, later: Instant)
    requires cutoff <= later
    ensures LossesSince(events, later) <= LossesSince(events, cutoff)
  {
    if events != [] { LaterCutoffCountsLess(events[1..], cutoff, later); }
  }

  lemma TakeNewestFirst(limits: Limits, t: Tracked)
    requires Invariant(limits, t)
    ensures NewestFirst(t.status.events)
  {
  }

  // ----- What a check decides --------------------------------------------------------------------

  /** Of the two newest events, this is the one of the later connection; the newer one in a tie. */
  ghost predicate Decisive(events: seq<ClientEvent>, e: ClientEvent) {
    && events != [] && (e == events[0] || (|events| >= 2 && e == events[1]))
    && (|events| >= 2 ==> if events[0].connId >= events[1].connId then e == events[0] else e == events[1])
  }

  /** How bad a state is. */
  function Badness(h: Health): nat {
    match h
    case Healthy => 0
    case Unstable => 1
    case Offline => 2
  }

  /** The health after a check, given the decisive event. */
  ghost predicate JudgedBy(before: ClientStatus, after: Health, limits: Limits, now: Instant, e: ClientEvent) {
    && (after.Offline? <==> e.kind.ConnectionLoss? && e.at + limits.offlineGrace <= now)
    && (before.health.Unstable? ==> (after.Healthy? <==> e.kind.Connect? && e.at + limits.recoveryGrace <= now))
    && (before.health.Healthy? ==>
        (after.Unstable? <==> !after.Offline? && LossesSince(before.events, now - limits.lossWindow) >= limits.connectionLossLimit))
  }

  /** The status after a check. Nothing happens to clients that are offline or were never heard of. */
  ghost predicate Judged(before: ClientStatus, after: ClientStatus, limits: Limits, now: Instant) {
    && after.events == before.events && after.localIp == before.localIp
    && after.since == (if after.health != before.health then now else before.since)
    && (before.health.Offline? || before.events == [] ==> after.health == before.health)
    && (!before.health.Offline? ==> forall e :: Decisive(before.events, e) ==> JudgedBy(before, after.health, limits, now, e))
  }

  /** A check judges every client as it should. */
  lemma CheckExactly(s: ClientStatus, limits: Limits, now: Instant)
    requires NewestFirst(s.events)
    ensures Judged(s, Check(s, limits, now).status, limits, now)
  {
    EarlyExitExact(s.events, now - limits.lossWindow);
  }

  /** The update is loud exactly for a worsening and silent exactly for a recovery. */
  lemma UpdateExactly(s: ClientStatus, limits: Limits, now: Instant)
    ensures var c := Check(s, limits, now);
            && (c.update.Alert? <==> Badness(c.status.health) > Badness(s.health))
            && (c.update.Silent? <==> Badness(c.status.health) < Badness(s.health))
  {
  }

  /** A connect brings a client back from offline, a disconnect takes it offline, a loss alone changes nothing yet. */
  lemma EventExactly(s: ClientStatus, max: nat, kind: Kind, connId: nat, ip: nat, sinceNow: Instant, eventNow: Instant)
    ensures var after := OnEvent(s, max, kind, connId, ip, sinceNow, eventNow);
            && after.health == (if kind.Disconnect? then Offline else if kind.Connect? && s.health.Offline? then Healthy else s.health)
            && after.since == (if kind.Disconnect? || (kind.Connect? && s.health.Offline?) then sinceNow else s.since)
            && after.localIp == (if kind.Connect? then Some(ip) else s.localIp)
            && (max >= 1 ==> after.events != [] && after.events[0] == ClientEvent(kind, connId, eventNow))
  {
  }

  // ----- Promotion is stable -------------------------------------------------------------------

  /** The check at `now` promotes the client from unstable to healthy. */
  predicate Promotes(limits: Limits, t: Tracked, now: Instant) {
    t.status.health.Unstable? && Check(t.status, limits, now).status.health.Healthy?
  }

  ghost predicate OnlyChecks(inputs: seq<Input>) { forall i <- inputs :: i.CheckAt? }

  /** While no event arrives, every sequence of checks leaves the client healthy. */
  ghost predicate StaysHealthy(limits: Limits, t: Tracked) {
    forall inputs: seq<Input> :: OnlyChecks(inputs) && EnabledRun(limits, t, inputs) ==> Run(limits, t, inputs).status.health.Healthy?
  }

  lemma {:induction false} CalmStaysHealthy(limits: Limits, t: Tracked, inputs: seq<Input>)
    requires t.status.health.Healthy? && t.status.events != [] && Latest(t.status.events).kind.Connect?
    requires NewestFirst(t.status.events)
    requires LossesSince(t.status.events, t.clock - limits.lossWindow) < limits.connectionLossLimit
    requires OnlyChecks(inputs) && EnabledRun(limits, t, inputs)
    ensures Run(limits, t, inputs).status.health.Healthy?
    decreases |inputs|
  {
    if inputs != [] {
      var now := inputs[0].now;
      LaterCutoffCountsLess(t.status.events, t.clock - limits.lossWindow, now - limits.lossWindow);
      EarlyExitExact(t.status.events, now - limits.lossWindow);
      CalmStaysHealthy(limits, Next(limits, t, inputs[0]), inputs[1..]);
    }
  }

  /**
   * A promoted client stays healthy through all checks until its next event exactly when its log
   * holds fewer recent losses than the limit at the moment of promotion.
   */
  lemma PromotionStable(limits: Limits, t: Tracked, now: Instant)
    requires Build(limits).Built? && Invariant(limits, t) && t.clock <= now && Promotes(limits, t, now)
    ensures StaysHealthy(limits, Next(limits, t, CheckAt(now))) <==>
            LossesSince(t.status.events, now - limits.lossWindow) < limits.connectionLossLimit
  {
    var t' := Next(limits, t, CheckAt(now));
    TakeNewestFirst(limits, t);
    EarlyExitExact(t.status.events, now - limits.lossWindow);
    if LossesSince(t.status.events, now - limits.lossWindow) < limits.connectionLossLimit {
      forall inputs: seq<Input> | OnlyChecks(inputs) && EnabledRun(limits, t', inputs)
        ensures Run(limits, t', inputs).status.health.Healthy?
      {
        CalmStaysHealthy(limits, t', inputs);
      }
    } else {
      var again := [CheckAt(now)];
      assert again[1..] == [];
      assert EnabledRun(limits, t', again) && OnlyChecks(again);
      assert Run(limits, t', again) == Run(limits, Next(limits, t', CheckAt(now)), []);
    }
  }

  /** With a recovery grace longer than the loss window and the Connect as newest event, promotion is stable. */
  lemma PromotionStableByConfiguration(limits: Limits, t: Tracked, now: Instant)
    requires Build(limits).Built? && Invariant(limits, t) && t.clock <= now && Promotes(limits, t, now)
    requires limits.recoveryGrace > limits.lossWindow && Latest(t.status.events) == t.status.events[0]
    ensures StaysHealthy(limits, Next(limits, t, CheckAt(now)))
  {
    TakeNewestFirst(limits, t);
    NoLossesSince(t.status.events, now - limits.lossWindow);
    PromotionStable(limits, t, now);
  }
}
