/** The engine's promises to players and clients, over every run and every pruning schedule. */
module EngineGuarantees {
  import opened Types
  import opened Sequences
  import opened StableSort
  import opened Bloops
  import opened Players
  import opened Awards
  import opened EngineModel
  import opened EngineRuns

  // ----- Awards -----------------------------------------------------------------------

  /**
   * In every run, whatever players the application adds, removes or brings back, no (player,
   * achievement) pair is in two batches, and a present player holds what was sent for it.
   */
  lemma AwardedOnceInEveryRun(cfg: Config, states: seq<EngineState>, inputs: seq<Input>, k: nat,
                              i: nat, j: nat, p: Uuid, a: Uuid)
    requires IsRun(cfg, states, inputs) && Invariant(cfg, states[0]) && k < |states|
    requires i < |states[k].batches| && a in AwardsOf(states[k].batches[i].awards, p)
    ensures p in states[k].directory.players ==> a in states[k].directory.players[p].awarded
    ensures j < |states[k].batches| && a in AwardsOf(states[k].batches[j].awards, p) ==> i == j
  {
    InvariantInEveryRun(cfg, states, inputs, k);
    var s := states[k];
    assert BatchHeld(s.directory, s.batches[i]);
    if i < j < |s.batches| {
      assert BatchesDisjoint(s.batches[i], s.batches[j]);
    } else if j < i {
      assert BatchesDisjoint(s.batches[j], s.batches[i]);
    }
  }

  /** If the player is present, it holds the award with this time. */
  ghost predicate Stored(d: Directory, p: Uuid, a: Uuid, at: Instant) {
    p in d.players ==> a in d.players[p].awarded && d.players[p].awarded[a] == at
  }

  lemma ServeKeepsAward(cfg: Config, s: EngineState, q: Request, p: Uuid, a: Uuid, at: Instant)
    requires Bijective(s.directory) && Stored(s.directory, p, a, at)
    ensures Stored(Handle(cfg, s, q).0.directory, p, a, at)
  {
    if IsAccepted(cfg, s, q) {
      HandleAccepts(cfg, s, q);
      AcceptBijective(cfg, s, q, s.directory.uids[q.uid]);
      if p in s.directory.players { AcceptAwards(cfg, s, q, s.directory.uids[q.uid], p); }
    } else {
      HandleRefuses(cfg, s, q);
    }
  }

  /** The application's own changes between states `i` and `j` keep the award and its time. */
  ghost predicate KeptOutside(inputs: seq<Input>, i: nat, j: nat, p: Uuid, a: Uuid, at: Instant)
    requires j <= |inputs|
  {
    forall k :: i <= k < j && inputs[k].Environment? ==> Stored(inputs[k].directory, p, a, at)
  }

  /** The engine never changes an award or its timestamp: they last exactly as long as the application keeps them. */
  lemma {:induction false} AwardNeverChanges(cfg: Config, states: seq<EngineState>, inputs: seq<Input>, i: nat, j: nat,
                                             p: Uuid, a: Uuid, at: Instant)
    requires IsRun(cfg, states, inputs) && i <= j < |states| && Stored(states[i].directory, p, a, at)
    ensures (forall k :: i <= k <= j ==> Stored(states[k].directory, p, a, at)) <==> KeptOutside(inputs, i, j, p, a, at)
    decreases j
  {
    if i < j {
      AwardNeverChanges(cfg, states, inputs, i, j - 1, p, a, at);
      AwardAt(cfg, states, inputs, j - 1, p, a, at);
    }
  }

  lemma AwardAt(cfg: Config, states: seq<EngineState>, inputs: seq<Input>, k: nat, p: Uuid, a: Uuid, at: Instant)
    requires IsRun(cfg, states, inputs) && k < |inputs|
    ensures inputs[k].Serve? && Stored(states[k].directory, p, a, at) ==> Stored(states[k + 1].directory, p, a, at)
    ensures inputs[k].Environment? ==> (Stored(states[k + 1].directory, p, a, at) <==> Stored(inputs[k].directory, p, a, at))
  {
    assert StepsAt(cfg, states, inputs, k);
    if inputs[k].Serve? && Stored(states[k].directory, p, a, at) {
      ServeKeepsAward(cfg, states[k], inputs[k].request, p, a, at);
    }
  }

  /** A step leaves the batches alone or sends one more, whose awards are then stored with its time. */
  ghost predicate SendsAtMostOne(s: EngineState, s': EngineState, p: Uuid, a: Uuid) {
    s'.batches == s.batches ||
    (&& |s'.batches| == |s.batches| + 1 && s'.batches[..|s.batches|] == s.batches
     && (a in AwardsOf(s'.batches[|s.batches|].awards, p) ==> Stored(s'.directory, p, a, s'.batches[|s.batches|].awardedAt)))
  }

  lemma StepSends(cfg: Config, s: EngineState, i: Input, p: Uuid, a: Uuid)
    requires Bijective(s.directory)
    ensures SendsAtMostOne(s, Next(cfg, s, i), p, a)
  {
    if i.Serve? && IsAccepted(cfg, s, i.request) {
      var q := i.request;
      var player := s.directory.uids[q.uid];
      HandleAccepts(cfg, s, q);
      JudgeGranted(cfg, s, q, player, p);
      if p in s.directory.players { AcceptAwards(cfg, s, q, player, p); }
    } else if i.Serve? {
      HandleRefuses(cfg, s, i.request);
    }
  }

  lemma SendsAt(cfg: Config, states: seq<EngineState>, inputs: seq<Input>, k: nat, p: Uuid, a: Uuid)
    requires IsRun(cfg, states, inputs) && k < |inputs|
    ensures SendsAtMostOne(states[k], states[k + 1], p, a)
  {
    assert StepsAt(cfg, states, inputs, k);
    StepSends(cfg, states[k], inputs[k], p, a);
  }

  /** In every run a sent award is stored with its batch's time for as long as the application keeps it. */
  lemma {:induction false} AwardTimeInEveryRun(cfg: Config, states: seq<EngineState>, inputs: seq<Input>, k: nat,
                                               b: nat, p: Uuid, a: Uuid)
    requires IsRun(cfg, states, inputs) && states[0].batches == [] && k < |states|
    requires b < |states[k].batches| && a in AwardsOf(states[k].batches[b].awards, p)
    requires forall m :: 0 <= m < k && inputs[m].Environment? && b < |states[m].batches| ==>
               Stored(inputs[m].directory, p, a, states[k].batches[b].awardedAt)
    ensures Stored(states[k].directory, p, a, states[k].batches[b].awardedAt)
    decreases k
  {
    if k > 0 {
      var s := states[k - 1];
      SendsAt(cfg, states, inputs, k - 1, p, a);
      if b < |s.batches| {
        assert states[k].batches[..|s.batches|][b] == s.batches[b];
        AwardTimeInEveryRun(cfg, states, inputs, k - 1, b, p, a);
        AwardAt(cfg, states, inputs, k - 1, p, a, s.batches[b].awardedAt);
      }
    }
  }

  // ----- Forgotten awards ---------------------------------------------------------------

  lemma UnusedClient(used: set<ClientId>) returns (c: ClientId)
    ensures c !in used
  {
    c := 0;
    ghost var rest := used;
    while c in used
      invariant rest <= used && forall x :: x in used && x !in rest ==> x < c
      decreases |rest|
    {
      rest := rest - {c};
      c := c + 1;
    }
  }

  /** A client without history never throttles, unless the limit is zero. */
  ghost predicate CanBloop(cfg: Config, s: EngineState, p: Uuid) {
    && p in s.directory.players && s.directory.players[p].uid !in s.triggers.specs
    && (cfg.throttle.Some? ==> cfg.throttle.value.maxBloops > 0)
  }

  /** The player bloops at a client never used before, and one evaluator awards it. */
  function AwardingRequest(s: EngineState, p: Uuid, a: Uuid, client: ClientId): Request
    requires p in s.directory.players
  {
    Request(s.directory.players[p].uid, client, s.clock, s.clock, s.clock, s.clock, s.clock, [a], map[a := Conclude(AwardSelf)])
  }

  lemma AwardingRequestAccepted(cfg: Config, s: EngineState, p: Uuid, a: Uuid, client: ClientId)
    requires Bijective(s.directory) && CanBloop(cfg, s, p) && client !in s.histories.perClient
    ensures Served(s, AwardingRequest(s, p, a, client)) == Some(p) && IsAccepted(cfg, s, AwardingRequest(s, p, a, client))
  {
    assert s.histories.ForClient(client) == [];
  }

  lemma AwardingRequestAwards(cfg: Config, s: EngineState, p: Uuid, a: Uuid, client: ClientId)
    requires p in s.directory.players && a !in s.directory.players[p].awarded
    ensures var o := Judge(cfg, s, AwardingRequest(s, p, a, client), p);
            a in AwardsOf(o.granted, p) && o.triggers == s.triggers
  {
    var q := AwardingRequest(s, p, a, client);
    EvaluateExact(q, q.order, s.directory.players[p].awarded.Keys, p, map[], s.triggers, p);
    JudgeGranted(cfg, s, q, p, p);
  }

  /** Whoever can bloop and lacks an achievement can be awarded it, and can bloop again. */
  lemma CanBeAwarded(cfg: Config, s: EngineState, p: Uuid, a: Uuid) returns (q: Request)
    requires Bijective(s.directory) && CanBloop(cfg, s, p)
    requires a in cfg.achievements && a !in s.directory.players[p].awarded
    ensures Requestable(cfg, s, q) && IsAccepted(cfg, s, q)
    ensures var s' := Handle(cfg, s, q).0;
            && |s'.batches| == |s.batches| + 1 && s'.batches[..|s.batches|] == s.batches
            && a in AwardsOf(s'.batches[|s.batches|].awards, p) && CanBloop(cfg, s', p)
  {
    var client := UnusedClient(s.histories.perClient.Keys);
    q := AwardingRequest(s, p, a, client);
    AwardingRequestAccepted(cfg, s, p, a, client);
    AwardingRequestAwards(cfg, s, p, a, client);
    HandleAccepts(cfg, s, q);
    AcceptAwards(cfg, s, q, p, p);
  }

  /** No request after the application's change sends an award a second time. */
  ghost predicate NeverRepeats(cfg: Config, s: EngineState)
    requires Bijective(s.directory)
  {
    forall q :: Requestable(cfg, s, q) ==> AwardedOnce(Handle(cfg, s, q).0)
  }

  /** Forgetting a sent award of a present player is what permits a second batch with it. */
  lemma ForgottenAwardRepeats(cfg: Config, s: EngineState, i: nat, p: Uuid, a: Uuid) returns (q: Request)
    requires Bijective(s.directory) && CanBloop(cfg, s, p) && BatchesKnown(cfg, s.batches)
    requires i < |s.batches| && a in AwardsOf(s.batches[i].awards, p) && a !in s.directory.players[p].awarded
    ensures Requestable(cfg, s, q) && SentTwice(Handle(cfg, s, q).0, p, a) && !AwardedOnce(Handle(cfg, s, q).0)
  {
    assert BatchKnown(cfg, s.batches[i]);
    q := CanBeAwarded(cfg, s, p, a);
    var s', n := Handle(cfg, s, q).0, |s.batches|;
    assert s'.batches[i] == s'.batches[..n][i];
    assert a in AwardsOf(s'.batches[i].awards, p) && a in AwardsOf(s'.batches[n].awards, p);
    assert !BatchesDisjoint(s'.batches[i], s'.batches[n]);
  }

  ghost predicate SentTwice(s: EngineState, p: Uuid, a: Uuid) {
    exists i, j :: 0 <= i < j < |s.batches| && a in AwardsOf(s.batches[i].awards, p) && a in AwardsOf(s.batches[j].awards, p)
  }

  /**
   * What the application must respect is exact: after a change to the registry no award can be
   * sent twice if and only if every present player still holds what was sent for it.
   */
  lemma RememberingExact(cfg: Config, s: EngineState, d: Directory)
    requires Invariant(cfg, s) && Bijective(d)
    requires forall p :: p in d.players ==> CanBloop(cfg, s.(directory := d), p)
    ensures NeverRepeats(cfg, s.(directory := d)) <==> Remembers(s.batches, d)
  {
    var s' := s.(directory := d);
    if Remembers(s.batches, d) {
      EnvironmentKeeps(cfg, s, d);
      forall q | Requestable(cfg, s', q)
        ensures AwardedOnce(Handle(cfg, s', q).0)
      {
        ServeKeeps(cfg, s', q);
      }
    } else {
      var i :| 0 <= i < |s.batches| && !BatchHeld(d, s.batches[i]);
      var p, a :| p in s.batches[i].awards && a in s.batches[i].awards[p] && p in d.players && a !in d.players[p].awarded;
      var q := ForgottenAwardRepeats(cfg, s', i, p, a);
    }
  }

  /** Removing a player is harmless. */
  lemma RemovalRemembers(batches: seq<Batch>, d: Directory, p: Uuid)
    requires Remembers(batches, d) && Bijective(d)
    ensures Bijective(Apply(d, RemovePlayer(p))) && Remembers(batches, Apply(d, RemovePlayer(p)))
  {
  }

  /** The player as added anew: same id and uid, nothing awarded. */
  function Readded(p: PlayerData): PlayerData { PlayerData(p.id, p.uid, 0, map[]) }

  function RemovedAndReadded(d: Directory, p: Uuid): Directory
    requires p in d.players
  {
    Apply(Apply(d, RemovePlayer(p)), AddPlayer(Readded(d.players[p])))
  }

  /**
   * In any engine as built, for any player that can bloop and lacks an achievement: earn it, have
   * the application remove the player and add it anew, bloop again, and the award is sent twice.
   * Of the application's two changes only the second forgets an award; removing is permitted.
   */
  lemma ReaddedPlayerEarnsAgain(cfg: Config, s: EngineState, maxAge: Duration, stored: seq<Bloop>, p: Uuid, a: Uuid)
    returns (first: Request, second: Request)
    requires Start(cfg, s, maxAge, stored) && CanBloop(cfg, s, p)
    requires a in cfg.achievements && a !in s.directory.players[p].awarded
    ensures Requestable(cfg, s, first)
    ensures var s' := Handle(cfg, s, first).0;
            && Bijective(s'.directory) && p in s'.directory.players
            && Enabled(cfg, s', Environment(Apply(s'.directory, RemovePlayer(p))))
            && Bijective(RemovedAndReadded(s'.directory, p))
            && (var s'' := s'.(directory := RemovedAndReadded(s'.directory, p));
                Requestable(cfg, s'', second) && SentTwice(Handle(cfg, s'', second).0, p, a))
  {
    StartInvariant(cfg, s, maxAge, stored);
    first := CanBeAwarded(cfg, s, p, a);
    ServeKeeps(cfg, s, first);
    second := EarnAgain(cfg, Handle(cfg, s, first).0, p, a);
  }

  lemma EarnAgain(cfg: Config, s: EngineState, p: Uuid, a: Uuid) returns (q: Request)
    requires Invariant(cfg, s) && CanBloop(cfg, s, p) && |s.batches| > 0 && a in AwardsOf(s.batches[0].awards, p)
    ensures Enabled(cfg, s, Environment(Apply(s.directory, RemovePlayer(p)))) && Bijective(RemovedAndReadded(s.directory, p))
    ensures var s' := s.(directory := RemovedAndReadded(s.directory, p));
            Requestable(cfg, s', q) && SentTwice(Handle(cfg, s', q).0, p, a)
  {
    RemovalRemembers(s.batches, s.directory, p);
    ApplyBijective(Apply(s.directory, RemovePlayer(p)), AddPlayer(Readded(s.directory.players[p])));
    q := ForgottenAwardRepeats(cfg, s.(directory := RemovedAndReadded(s.directory, p)), 0, p, a);
  }

  /**
   * The response to an accepted bloop lists exactly the player's new awards, and every listed id
   * is a known achievement, so looking up its audio cannot fail.
   */
  lemma ResponseExact(cfg: Config, s: EngineState, q: Request)
    requires Invariant(cfg, s) && Requestable(cfg, s, q) && IsAccepted(cfg, s, q)
    ensures var (s', response) := Handle(cfg, s, q);
            var p := s.directory.uids[q.uid];
            && p in s'.directory.players
            && response == Accepted(s'.directory.players[p].awarded.Keys - s.directory.players[p].awarded.Keys)
            && response.achievements <= cfg.achievements.Keys
  {
    var p := s.directory.uids[q.uid];
    var o := Judge(cfg, s, q, p);
    AcceptAwards(cfg, s, q, p, p);
    JudgeGranted(cfg, s, q, p, p);
    JudgeEvaluated(cfg, s, q, p);
    NewOpenings(cfg, s, q, p);
  }

  /** Everybody's new awards are exactly the batch that is sent. */
  lemma BatchExact(cfg: Config, s: EngineState, q: Request, p: Uuid)
    requires Invariant(cfg, s) && Requestable(cfg, s, q) && IsAccepted(cfg, s, q) && p in s.directory.players
    ensures var s' := Handle(cfg, s, q).0;
            && |s'.batches| == |s.batches| + 1 && p in s'.directory.players
            && AwardsOf(s'.batches[|s.batches|].awards, p) ==
               s'.directory.players[p].awarded.Keys - s.directory.players[p].awarded.Keys
  {
    var player := s.directory.uids[q.uid];
    AcceptAwards(cfg, s, q, player, p);
    JudgeGranted(cfg, s, q, player, p);
  }

  // ----- Hot achievements ---------------------------------------------------------------

  /** A step opens no window for an achievement its player already held. */
  lemma StepOpensNone(cfg: Config, s: EngineState, i: Input, x: Opening, at: Instant)
    requires Bijective(s.directory) && Stored(s.directory, x.player, x.hot.id, at)
    ensures x in Next(cfg, s, i).openings ==> x in s.openings
  {
    if i.Serve? {
      if IsAccepted(cfg, s, i.request) {
        HandleAccepts(cfg, s, i.request);
        NewOpenings(cfg, s, i.request, s.directory.uids[i.request.uid]);
        OpeningsAfter(cfg, s, i.request, s.directory.uids[i.request.uid], x);
      } else {
        HandleRefuses(cfg, s, i.request);
      }
    }
  }

  /**
   * From the moment a player holds an achievement, by evaluation or by hot pick-up, and while the
   * application lets the player keep it, none of the player's bloops opens or extends a window for it.
   */
  lemma {:induction false} HeldOpensNoWindow(cfg: Config, states: seq<EngineState>, inputs: seq<Input>, i: nat, j: nat,
                                             x: Opening, at: Instant)
    requires IsRun(cfg, states, inputs) && i <= j < |states|
    requires Stored(states[i].directory, x.player, x.hot.id, at) && KeptOutside(inputs, i, j, x.player, x.hot.id, at)
    ensures x in states[j].openings ==> x in states[i].openings
    decreases j
  {
    if i < j {
      HeldOpensNoWindow(cfg, states, inputs, i, j - 1, x, at);
      AwardNeverChanges(cfg, states, inputs, i, j - 1, x.player, x.hot.id, at);
      OpensNoneAt(cfg, states, inputs, j - 1, x, at);
    }
  }

  lemma OpensNoneAt(cfg: Config, states: seq<EngineState>, inputs: seq<Input>, k: nat, x: Opening, at: Instant)
    requires IsRun(cfg, states, inputs) && k < |inputs| && Stored(states[k].directory, x.player, x.hot.id, at)
    ensures x in states[k + 1].openings ==> x in states[k].openings
  {
    assert StepsAt(cfg, states, inputs, k);
    StepOpensNone(cfg, states[k], inputs[k], x, at);
  }

  /** A window for an award sent in an earlier batch is not opened by a later step. */
  lemma SentOpensNoneAt(cfg: Config, states: seq<EngineState>, inputs: seq<Input>, k: nat, x: Opening)
    requires IsRun(cfg, states, inputs) && k < |inputs|
    requires Invariant(cfg, states[k]) && Sent(states[k].batches, x.player, x.hot.id)
    ensures x in states[k + 1].openings ==> x in states[k].openings
    ensures Sent(states[k + 1].batches, x.player, x.hot.id)
  {
    var s, s' := states[k], states[k + 1];
    if x.player in s.directory.players {
      SentIsHeld(s.batches, s.directory, x.player, x.hot.id);
      OpensNoneAt(cfg, states, inputs, k, x, s.directory.players[x.player].awarded[x.hot.id]);
    } else {
      OpensNoneAt(cfg, states, inputs, k, x, 0);
    }
    SendsAt(cfg, states, inputs, k, x.player, x.hot.id);
    if s'.batches != s.batches {
      SentGrows(s.batches, s'.batches[|s.batches|], x.player, x.hot.id);
      assert s'.batches == s.batches + [s'.batches[|s.batches|]];
    }
  }

  lemma {:induction false} SentOpensNoWindow(cfg: Config, states: seq<EngineState>, inputs: seq<Input>, i: nat, j: nat, x: Opening)
    requires IsRun(cfg, states, inputs) && Invariant(cfg, states[0]) && i <= j < |states|
    requires Sent(states[i].batches, x.player, x.hot.id)
    ensures x in states[j].openings ==> x in states[i].openings
    ensures Sent(states[j].batches, x.player, x.hot.id)
    decreases j
  {
    if i < j {
      SentOpensNoWindow(cfg, states, inputs, i, j - 1, x);
      InvariantInEveryRun(cfg, states, inputs, j - 1);
      SentOpensNoneAt(cfg, states, inputs, j - 1, x);
    }
  }

  /** The served player gains the achievement by pick-up and not by evaluation. */
  ghost predicate OnlyPickedUp(cfg: Config, s: EngineState, q: Request, player: Uuid, a: Uuid) {
    && player in s.directory.players
    && a in AwardsOf(Judge(cfg, s, q, player).granted, player) && a !in AwardsOf(Judge(cfg, s, q, player).evaluated, player)
  }

  lemma PickedUpOnly(cfg: Config, s: EngineState, q: Request, x: Opening)
    requires Invariant(cfg, s) && IsAccepted(cfg, s, q) && x.player == s.directory.uids[q.uid]
    requires OnlyPickedUp(cfg, s, q, x.player, x.hot.id)
    ensures var s' := Accept(cfg, s, q, x.player); x !in s'.openings && Sent(s'.batches, x.player, x.hot.id)
  {
    JudgeGranted(cfg, s, q, x.player, x.player);
    NewOpenings(cfg, s, q, x.player);
    OpeningsAfter(cfg, s, q, x.player, x);
    SentGrows(s.batches, Batch(q.recordedAt, Judge(cfg, s, q, x.player).granted), x.player, x.hot.id);
    if x in s.openings { SentIsHeld(s.batches, s.directory, x.player, x.hot.id); }
  }

  lemma PickedUpAt(cfg: Config, states: seq<EngineState>, inputs: seq<Input>, k: nat, x: Opening)
    requires IsRun(cfg, states, inputs) && k < |inputs| && Invariant(cfg, states[k])
    requires inputs[k].Serve? && IsAccepted(cfg, states[k], inputs[k].request)
    requires x.player == states[k].directory.uids[inputs[k].request.uid]
    requires OnlyPickedUp(cfg, states[k], inputs[k].request, x.player, x.hot.id)
    ensures x !in states[k + 1].openings && Sent(states[k + 1].batches, x.player, x.hot.id)
  {
    assert StepsAt(cfg, states, inputs, k);
    HandleAccepts(cfg, states[k], inputs[k].request);
    PickedUpOnly(cfg, states[k], inputs[k].request, x);
  }

  /** An achievement received only by pick-up never has a window opened by its receiver. */
  lemma PickUpOpensNothing(cfg: Config, states: seq<EngineState>, inputs: seq<Input>, k: nat, j: nat, x: Opening)
    requires IsRun(cfg, states, inputs) && Invariant(cfg, states[0]) && k < j < |states|
    requires inputs[k].Serve? && IsAccepted(cfg, states[k], inputs[k].request)
    requires x.player == states[k].directory.uids[inputs[k].request.uid]
    requires OnlyPickedUp(cfg, states[k], inputs[k].request, x.player, x.hot.id)
    ensures x !in states[j].openings
  {
    InvariantInEveryRun(cfg, states, inputs, k);
    PickedUpAt(cfg, states, inputs, k, x);
    SentOpensNoWindow(cfg, states, inputs, k + 1, j, x);
  }

  // ----- Throttling -----------------------------------------------------------------------

  lemma FilterPrefix(s: seq<Bloop>, n: nat, p: Bloop -> bool)
    requires n <= |s| && forall b <- s[..n] :: p(b)
    ensures Take(Filter(s, p), n) == s[..n]
  {
    var a, b := s[..n], s[n..];
    FilterConcat(a, b, p);
    FilterAll(a, p);
    assert s == a + b;
    assert Take(a + Filter(b, p), |a|) == a;
  }

  /** With enough retention, throttling decides on the complete history of the client. */
  lemma ThrottleExact(cfg: Config, s: EngineState, q: Request, player: Uuid)
    requires Invariant(cfg, s) && Requestable(cfg, s, q)
    requires cfg.throttle.Some? && cfg.throttle.value.threshold <= s.histories.maxAge
    ensures Rejects(cfg, s, q, player) <==>
            Throttles(cfg.throttle.value, Filter(s.history, AtClient(q.client)), player, q.throttleNow)
  {
    assert Retains(s.histories, s.history, s.clock, q.client);
    WindowsAgree(s.histories, s.history, s.clock, q.client, q.throttleNow, cfg.throttle.value.threshold);
  }

  /** If the newest `maxBloops` at the client are the player's own, the request passes only once one has aged. */
  lemma ThrottleSpacing(cfg: Config, s: EngineState, q: Request)
    requires Invariant(cfg, s) && Requestable(cfg, s, q) && IsAccepted(cfg, s, q)
    requires cfg.throttle.Some? && cfg.throttle.value.threshold <= s.histories.maxAge
    requires var n, earlier := cfg.throttle.value.maxBloops, Filter(s.history, AtClient(q.client));
             n <= |earlier| && forall i :: 0 <= i < n ==> earlier[i].player == s.directory.uids[q.uid]
    ensures var n, earlier := cfg.throttle.value.maxBloops, Filter(s.history, AtClient(q.client));
            exists i :: 0 <= i < n && earlier[i].at + cfg.throttle.value.threshold < q.recordedAt
  {
    var t, player := cfg.throttle.value, s.directory.uids[q.uid];
    var n, earlier := t.maxBloops, Filter(s.history, AtClient(q.client));
    ThrottleExact(cfg, s, q, player);
    if forall i :: 0 <= i < n ==> earlier[i].at >= q.throttleNow - t.threshold {
      assert forall b <- earlier[..n] :: b.at >= q.throttleNow - t.threshold;
      FilterPrefix(earlier, n, Since(q.throttleNow - t.threshold));
      assert false;
    }
    var i :| 0 <= i < n && earlier[i].at < q.throttleNow - t.threshold;
    assert earlier[i].at + t.threshold < q.recordedAt;
  }

  /** Accepted bloops are listed newest first and none lies after the clock. */
  ghost predicate Chronological(s: EngineState) {
    Sorted(s.history, NewestFirst()) && forall b <- s.history :: b.at <= s.clock
  }

  /** Stored bloops from before the start put the engine in order. */
  lemma StartChronological(cfg: Config, s: EngineState, maxAge: Duration, stored: seq<Bloop>)
    requires Start(cfg, s, maxAge, stored) && forall b <- stored :: b.at <= s.clock
    ensures Chronological(s)
  {
    SortSorted(stored, NewestFirst());
    SortPermutes(stored, NewestFirst());
    forall b | b in s.history
      ensures b.at <= s.clock
    {
      assert b in multiset(s.history);
    }
  }

  /** The state's record after a step: one more bloop, or none, and the clock not set back. */
  ghost predicate RecordsAtMostOne(s: EngineState, s': EngineState) {
    && s.clock <= s'.clock
    && (|| (s'.history == s.history && s'.processed == s.processed)
        || (&& s'.history != [] && s'.history[1..] == s.history && s.clock <= s'.history[0].at <= s'.clock
            && s'.processed == s.processed + [s'.history[0]]))
  }

  lemma StepRecords(cfg: Config, s: EngineState, i: Input)
    requires Bijective(s.directory) && Enabled(cfg, s, i)
    ensures RecordsAtMostOne(s, Next(cfg, s, i))
  {
    if i.Serve? {
      if IsAccepted(cfg, s, i.request) { HandleAccepts(cfg, s, i.request); } else { HandleRefuses(cfg, s, i.request); }
    }
  }

  lemma RecordsAt(cfg: Config, states: seq<EngineState>, inputs: seq<Input>, k: nat)
    requires IsRun(cfg, states, inputs) && k < |inputs|
    ensures RecordsAtMostOne(states[k], states[k + 1])
  {
    assert StepsAt(cfg, states, inputs, k);
    StepRecords(cfg, states[k], inputs[k]);
  }

  ghost function NewestOfAll(s: seq<Bloop>): seq<Bloop> {
    if s == [] then [] else [s[|s| - 1]] + NewestOfAll(s[..|s| - 1])
  }

  /** In every run one BloopProcessed event is sent per accepted bloop, in the order of acceptance. */
  lemma {:induction false} EventsMatchHistory(cfg: Config, states: seq<EngineState>, inputs: seq<Input>, k: nat)
    requires IsRun(cfg, states, inputs) && states[0].processed == [] && k < |states|
    ensures states[k].history == NewestOfAll(states[k].processed) + states[0].history
  {
    if k > 0 {
      EventsMatchHistory(cfg, states, inputs, k - 1);
      RecordsAt(cfg, states, inputs, k - 1);
      var before, after := states[k - 1], states[k];
      if after.history != before.history {
        assert after.processed[..|after.processed| - 1] == before.processed;
        assert after.history == [after.history[0]] + before.history;
      }
    }
  }

  lemma {:induction false} RunChronological(cfg: Config, states: seq<EngineState>, inputs: seq<Input>, k: nat)
    requires IsRun(cfg, states, inputs) && Chronological(states[0]) && k < |states|
    ensures Chronological(states[k])
  {
    if k > 0 {
      RunChronological(cfg, states, inputs, k - 1);
      RecordsAt(cfg, states, inputs, k - 1);
    }
  }

  lemma {:induction false} FilterSorted(s: seq<Bloop>, p: Bloop -> bool)
    requires Sorted(s, NewestFirst())
    ensures Sorted(Filter(s, p), NewestFirst())
  {
    if s != [] {
      FilterSorted(s[1..], p);
      FilterMembers(s[1..], p);
      forall x | x in Filter(s[1..], p)
        ensures NewestFirst()(s[0]) <= NewestFirst()(x)
      {
        var j :| 0 <= j < |s[1..]| && s[1..][j] == x;
        assert s[j + 1] == x;
      }
    }
  }

  /** The newest `n` bloops at the client exist and are the player's own. */
  ghost predicate OwnStreak(earlier: seq<Bloop>, n: nat, player: Uuid) {
    n <= |earlier| && forall i :: 0 <= i < n ==> earlier[i].player == player
  }

  lemma SpacingFromOldest(cfg: Config, s: EngineState, q: Request)
    requires Invariant(cfg, s) && Chronological(s) && Requestable(cfg, s, q) && IsAccepted(cfg, s, q)
    requires cfg.throttle.Some? && cfg.throttle.value.maxBloops >= 1 && cfg.throttle.value.threshold <= s.histories.maxAge
    requires OwnStreak(Filter(s.history, AtClient(q.client)), cfg.throttle.value.maxBloops, s.directory.uids[q.uid])
    ensures var n, earlier := cfg.throttle.value.maxBloops, Filter(s.history, AtClient(q.client));
            earlier[n - 1].at + cfg.throttle.value.threshold < q.recordedAt
  {
    ThrottleSpacing(cfg, s, q);
    var n, earlier := cfg.throttle.value.maxBloops, Filter(s.history, AtClient(q.client));
    FilterSorted(s.history, AtClient(q.client));
    var i :| 0 <= i < n && earlier[i].at + cfg.throttle.value.threshold < q.recordedAt;
    assert NewestFirst()(earlier[i]) <= NewestFirst()(earlier[n - 1]);
  }

  lemma EnabledAt(cfg: Config, states: seq<EngineState>, inputs: seq<Input>, k: nat)
    requires IsRun(cfg, states, inputs) && k < |inputs|
    ensures Enabled(cfg, states[k], inputs[k])
  {
    assert StepsAt(cfg, states, inputs, k);
  }

  /**
   * In every run, an accepted bloop whose `maxBloops` immediate predecessors at its client are
   * all by the same player comes strictly more than the threshold after the oldest of them.
   */
  lemma ThrottleSpacingInEveryRun(cfg: Config, states: seq<EngineState>, inputs: seq<Input>, k: nat)
    requires IsRun(cfg, states, inputs) && Invariant(cfg, states[0]) && Chronological(states[0]) && k < |inputs|
    requires inputs[k].Serve? && IsAccepted(cfg, states[k], inputs[k].request)
    requires cfg.throttle.Some? && cfg.throttle.value.maxBloops >= 1
    requires cfg.throttle.value.threshold <= states[k].histories.maxAge
    requires OwnStreak(Filter(states[k].history, AtClient(inputs[k].request.client)), cfg.throttle.value.maxBloops,
                       states[k].directory.uids[inputs[k].request.uid])
    ensures var n, earlier := cfg.throttle.value.maxBloops, Filter(states[k].history, AtClient(inputs[k].request.client));
            earlier[n - 1].at + cfg.throttle.value.threshold < inputs[k].request.recordedAt
  {
    InvariantInEveryRun(cfg, states, inputs, k);
    RunChronological(cfg, states, inputs, k);
    EnabledAt(cfg, states, inputs, k);
    SpacingFromOldest(cfg, states[k], inputs[k].request);
  }

  /** A limit of zero rejects every known player. */
  lemma ZeroLimitRejectsAll(cfg: Config, s: EngineState, q: Request, player: Uuid)
    requires cfg.throttle.Some? && cfg.throttle.value.maxBloops == 0
    ensures Rejects(cfg, s, q, player)
  {
  }
}
