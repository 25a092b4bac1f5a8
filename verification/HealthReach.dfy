/** Which health states the events of real connections can lead to. */
module HealthReach {
  import opened Types
  import opened Sequences
  import opened HealthModel

  // ----- Runs that connections can produce ------------------------------------------------------

  predicate Opens(i: Input, connId: nat) { i.Happens? && i.kind.Connect? && i.connId == connId }

  predicate Ends(i: Input, connId: nat) { i.Happens? && !i.kind.Connect? && i.connId == connId }

  ghost predicate HasOpened(inputs: seq<Input>, connId: nat) {
    inputs != [] && (Opens(inputs[|inputs| - 1], connId) || HasOpened(inputs[..|inputs| - 1], connId))
  }

  ghost predicate HasEnded(inputs: seq<Input>, connId: nat) {
    inputs != [] && (Ends(inputs[|inputs| - 1], connId) || HasEnded(inputs[..|inputs| - 1], connId))
  }

  /** A connection connects once; it ends only after that, and only once. */
  ghost predicate MayFollow(inputs: seq<Input>, i: Input) {
    i.Happens? ==>
      if i.kind.Connect? then !HasOpened(inputs, i.connId)
      else HasOpened(inputs, i.connId) && !HasEnded(inputs, i.connId)
  }

  /** Every connection's events come as the listener announces them. */
  ghost predicate Orderly(inputs: seq<Input>) {
    inputs == [] || (Orderly(inputs[..|inputs| - 1]) && MayFollow(inputs[..|inputs| - 1], inputs[|inputs| - 1]))
  }

  function Fresh(): Tracked { Tracked(Unseen(0), [], 0) }

  /** From the first sight of a client, this can happen and connections can produce it. */
  ghost predicate Realistic(limits: Limits, inputs: seq<Input>) {
    EnabledRun(limits, Fresh(), inputs) && Orderly(inputs)
  }

  function Reached(limits: Limits, inputs: seq<Input>): Tracked { Run(limits, Fresh(), inputs) }

  lemma {:induction false} RunSnoc(limits: Limits, t: Tracked, inputs: seq<Input>, i: Input)
    ensures Run(limits, t, inputs + [i]) == Next(limits, Run(limits, t, inputs), i)
    ensures EnabledRun(limits, t, inputs + [i]) <==> EnabledRun(limits, t, inputs) && Enabled(Run(limits, t, inputs), i)
    decreases |inputs|
  {
    if inputs == [] {
      assert (inputs + [i])[1..] == [];
    } else {
      assert (inputs + [i])[1..] == inputs[1..] + [i];
      RunSnoc(limits, Next(limits, t, inputs[0]), inputs[1..], i);
    }
  }

  lemma Extend(limits: Limits, inputs: seq<Input>, i: Input)
    requires Realistic(limits, inputs) && Enabled(Reached(limits, inputs), i) && MayFollow(inputs, i)
    ensures Realistic(limits, inputs + [i]) && Reached(limits, inputs + [i]) == Next(limits, Reached(limits, inputs), i)
    ensures forall c: nat {:trigger HasOpened(inputs + [i], c)} :: HasOpened(inputs + [i], c) <==> Opens(i, c) || HasOpened(inputs, c)
    ensures forall c: nat {:trigger HasEnded(inputs + [i], c)} :: HasEnded(inputs + [i], c) <==> Ends(i, c) || HasEnded(inputs, c)
  {
    RunSnoc(limits, Fresh(), inputs, i);
    assert (inputs + [i])[..|inputs|] == inputs;
  }

  // ----- Losing connections -----------------------------------------------------------------------

  /** The newest `m` events are losses. */
  ghost predicate LossesOnTop(events: seq<ClientEvent>, m: nat) {
    m <= |events| && forall k :: 0 <= k < m ==> events[k].kind.ConnectionLoss?
  }

  ghost predicate AtStart(events: seq<ClientEvent>, n: nat) { forall e <- events :: e.at == 0 && e.connId < n }

  /** Of connections 0 to `n - 1`, all opened, the first `m` are lost; the client still counts as healthy. */
  ghost predicate Losing(limits: Limits, inputs: seq<Input>, n: nat, m: nat) {
    var t := Reached(limits, inputs);
    && Realistic(limits, inputs) && t.clock == 0 && (if n > 0 then t.status.health.Healthy? else t.status.health.Offline?)
    && AtStart(t.full, n) && LossesOnTop(t.full, m)
    && (forall c: nat :: HasOpened(inputs, c) <==> c < n) && (forall c: nat :: HasEnded(inputs, c) <==> c < m)
  }

  lemma ConnectOne(limits: Limits, before: seq<Input>, n: nat)
    requires Losing(limits, before, n, 0)
    ensures Losing(limits, before + [Happens(Connect, n, 9, 0, 0)], n + 1, 0)
  {
    Extend(limits, before, Happens(Connect, n, 9, 0, 0));
  }

  lemma LoseOne(limits: Limits, before: seq<Input>, n: nat, m: nat)
    requires Losing(limits, before, n, m) && m < n
    ensures Losing(limits, before + [Happens(ConnectionLoss, m, 9, 0, 0)], n, m + 1)
  {
    Extend(limits, before, Happens(ConnectionLoss, m, 9, 0, 0));
    TopGrows(Reached(limits, before).full, ClientEvent(ConnectionLoss, m, 0), m);
  }

  lemma TopGrows(events: seq<ClientEvent>, e: ClientEvent, m: nat)
    requires LossesOnTop(events, m) && e.kind.ConnectionLoss?
    ensures LossesOnTop([e] + events, m + 1)
  {
  }

  lemma {:induction false} Lost(limits: Limits, n: nat, m: nat) returns (inputs: seq<Input>)
    requires m <= n
    ensures Losing(limits, inputs, n, m)
    decreases n + m
  {
    if n == 0 {
      inputs := [];
    } else if m == 0 {
      var before := Lost(limits, n - 1, 0);
      ConnectOne(limits, before, n - 1);
      inputs := before + [Happens(Connect, n - 1, 9, 0, 0)];
    } else {
      var before := Lost(limits, n, m - 1);
      LoseOne(limits, before, n, m - 1);
      inputs := before + [Happens(ConnectionLoss, m - 1, 9, 0, 0)];
    }
  }

  // ----- Becoming unstable ----------------------------------------------------------------------------

  lemma {:induction false} CountsAtLeast(events: seq<ClientEvent>, cutoff: Instant, m: nat)
    requires LossesOnTop(events, m) && cutoff <= 0 && forall e <- events :: e.at == 0
    ensures EarlyExitCount(events, cutoff) >= m
    decreases m
  {
    if m > 0 {
      assert forall k :: 1 <= k < m ==> events[1..][k - 1] == events[k];
      CountsAtLeast(events[1..], cutoff, m - 1);
    }
  }

  lemma TakeOnTop(full: seq<ClientEvent>, max: nat, m: nat)
    requires LossesOnTop(full, m) && m <= max
    ensures LossesOnTop(Take(full, max), m) && forall e <- Take(full, max) :: e in full
  {
  }

  /** Enough losses, and some grace before the newest one makes the client offline. */
  lemma UnstableByLosses(limits: Limits, t: Tracked)
    requires Build(limits).Built? && t.status.health.Healthy? && t.status.events == Take(t.full, limits.maxClientEvents)
    requires LossesOnTop(t.full, limits.connectionLossLimit) && forall e <- t.full :: e.at == 0
    requires limits.connectionLossLimit <= limits.maxClientEvents && limits.offlineGrace > 0
    ensures Check(t.status, limits, 0).status.health.Unstable?
  {
    TakeOnTop(t.full, limits.maxClientEvents, limits.connectionLossLimit);
    CountsAtLeast(t.status.events, 0 - limits.lossWindow, limits.connectionLossLimit);
  }

  /** Enough losses, and room for a newer Connect that keeps the client from being offline. */
  lemma UnstableBehindConnect(limits: Limits, t: Tracked, lost: seq<ClientEvent>, e: ClientEvent)
    requires Build(limits).Built? && t.status.health.Healthy? && t.status.events == Take(t.full, limits.maxClientEvents)
    requires t.full == [e] + lost && e.kind.Connect? && e.at == 0
    requires LossesOnTop(lost, limits.connectionLossLimit) && forall x <- lost :: x.at == 0 && x.connId < e.connId
    requires limits.connectionLossLimit < limits.maxClientEvents
    ensures Check(t.status, limits, 0).status.health.Unstable?
  {
    var shown := Take(lost, limits.maxClientEvents - 1);
    TakeOnTop(lost, limits.maxClientEvents - 1, limits.connectionLossLimit);
    assert t.status.events == [e] + shown;
    assert ([e] + shown)[1..] == shown;
    CountsAtLeast(shown, 0 - limits.lossWindow, limits.connectionLossLimit);
    assert Latest(t.status.events) == e;
  }

  lemma UnstableReachable(limits: Limits) returns (inputs: seq<Input>)
    requires Build(limits).Built? && !NeverUnstable(limits)
    ensures Realistic(limits, inputs) && Reached(limits, inputs).status.health.Unstable?
  {
    var n := limits.connectionLossLimit;
    var lost := Lost(limits, n, n);
    var t := Reached(limits, lost);
    ReachableInvariant(limits, 0, lost);
    if limits.offlineGrace > 0 {
      UnstableByLosses(limits, t);
      Extend(limits, lost, CheckAt(0));
      inputs := lost + [CheckAt(0)];
    } else {
      var again := Happens(Connect, n, 9, 0, 0);
      Extend(limits, lost, again);
      ReachableInvariant(limits, 0, lost + [again]);
      UnstableBehindConnect(limits, Reached(limits, lost + [again]), t.full, ClientEvent(Connect, n, 0));
      Extend(limits, lost + [again], CheckAt(0));
      inputs := lost + [again] + [CheckAt(0)];
    }
  }

  /** Whether any run makes a client unstable, realistic or not, depends on the configuration alone. */
  lemma UnstableExactly(limits: Limits)
    requires Build(limits).Built?
    ensures (exists inputs :: Realistic(limits, inputs) && Reached(limits, inputs).status.health.Unstable?) <==> !NeverUnstable(limits)
    ensures (exists inputs :: EnabledRun(limits, Fresh(), inputs) && Reached(limits, inputs).status.health.Unstable?)
            <==> !NeverUnstable(limits)
  {
    if NeverUnstable(limits) {
      forall inputs | EnabledRun(limits, Fresh(), inputs)
        ensures !Reached(limits, inputs).status.health.Unstable?
      {
        ReachableInvariant(limits, 0, inputs);
      }
    } else {
      var inputs := UnstableReachable(limits);
    }
  }

  // ----- Flapping ---------------------------------------------------------------------------------------

  const FLAP_LIMITS := Limits(50, 1, 120, 600, 1200)

  /** Connection 1 is lost long after connection 2 has connected. */
  const FLAP_INPUTS := [Happens(Connect, 0, 9, 0, 0), Happens(ConnectionLoss, 0, 9, 1, 1), Happens(Connect, 1, 9, 1, 1),
                        Happens(Connect, 2, 9, 2, 2), CheckAt(2), Happens(ConnectionLoss, 1, 9, 1202, 1202)]

  const FLAP_LOG := [ClientEvent(ConnectionLoss, 1, 1202), ClientEvent(Connect, 2, 2), ClientEvent(Connect, 1, 1),
                     ClientEvent(ConnectionLoss, 0, 1), ClientEvent(Connect, 0, 0)]

  function FlapState(health: Health, since: Instant, skip: nat, clock: Instant): Tracked
    requires skip <= 5
  {
    Tracked(ClientStatus(health, since, Some(9), FLAP_LOG[skip..]), FLAP_LOG[skip..], clock)
  }

  lemma FlapSteps()
    ensures Next(FLAP_LIMITS, Fresh(), FLAP_INPUTS[0]) == FlapState(Healthy, 0, 4, 0)
    ensures Next(FLAP_LIMITS, FlapState(Healthy, 0, 4, 0), FLAP_INPUTS[1]) == FlapState(Healthy, 0, 3, 1)
    ensures Next(FLAP_LIMITS, FlapState(Healthy, 0, 3, 1), FLAP_INPUTS[2]) == FlapState(Healthy, 0, 2, 1)
    ensures Next(FLAP_LIMITS, FlapState(Healthy, 0, 2, 1), FLAP_INPUTS[3]) == FlapState(Healthy, 0, 1, 2)
    ensures Next(FLAP_LIMITS, FlapState(Unstable, 2, 1, 2), FLAP_INPUTS[5]) == FlapState(Unstable, 2, 0, 1202)
  {
  }

  lemma FlapCheck()
    ensures Next(FLAP_LIMITS, FlapState(Healthy, 0, 1, 2), FLAP_INPUTS[4]) == FlapState(Unstable, 2, 1, 2)
  {
    var events := FLAP_LOG[1..];
    assert events[1..] == FLAP_LOG[2..] && FLAP_LOG[2..][1..] == FLAP_LOG[3..];
    assert EarlyExitCount(FLAP_LOG[3..], 2 - 600) >= 1;
    assert EarlyExitCount(FLAP_LOG[2..], 2 - 600) >= 1;
  }

  lemma FlapRun()
    ensures Realistic(FLAP_LIMITS, FLAP_INPUTS) && Reached(FLAP_LIMITS, FLAP_INPUTS) == FlapState(Unstable, 2, 0, 1202)
  {
    var i := FLAP_INPUTS;
    var first := [] + [i[0]];
    var second := first + [i[1]];
    var third := second + [i[2]];
    var fourth := third + [i[3]];
    var fifth := fourth + [i[4]];
    FlapSteps();
    FlapCheck();
    Extend(FLAP_LIMITS, [], i[0]);
    Extend(FLAP_LIMITS, first, i[1]);
    Extend(FLAP_LIMITS, second, i[2]);
    Extend(FLAP_LIMITS, third, i[3]);
    Extend(FLAP_LIMITS, fourth, i[4]);
    Extend(FLAP_LIMITS, fifth, i[5]);
    assert fifth + [i[5]] == i;
  }

  /** A loss of an older connection after the Connect: the client flaps within one instant. */
  lemma FlapsWhenConnectIsNotNewest()
    ensures Realistic(FLAP_LIMITS, FLAP_INPUTS) && Build(FLAP_LIMITS).Built? && FLAP_LIMITS.recoveryGrace > FLAP_LIMITS.lossWindow
    ensures var t := Reached(FLAP_LIMITS, FLAP_INPUTS);
            && Promotes(FLAP_LIMITS, t, 1202)
            && Next(FLAP_LIMITS, Next(FLAP_LIMITS, t, CheckAt(1202)), CheckAt(1202)).status.health.Unstable?
  {
    FlapRun();
    assert FLAP_LOG[0..] == FLAP_LOG;
    assert EarlyExitCount(FLAP_LOG, 1202 - 600) >= 1;
  }
}
