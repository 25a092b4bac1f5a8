/** What a request is answered and what it leaves on record, said of the complete history. */
module EngineReplies {
  import opened Types
  import opened Sequences
  import opened StableSort
  import opened Bloops
  import opened Players
  import opened EngineModel
  import opened EngineRuns
  import opened EngineGuarantees

  // ----- Throttling ------------------------------------------------------------------------

  lemma TakenAreOwn(window: seq<Bloop>, n: nat, player: Uuid)
    ensures (forall b <- Take(window, n) :: b.player == player) && |Take(window, n)| == n <==> OwnStreak(window, n, player)
  {
    var recent := Take(window, n);
    if forall b <- recent :: b.player == player {
      assert forall i :: 0 <= i < |recent| ==> recent[i] in recent;
    }
  }

  /** The tag belongs to a player and is no trigger tag. */
  predicate PlayerTag(s: EngineState, uid: NfcUid) { uid !in s.triggers.specs && uid in s.directory.uids }

  lemma RepliesThrottled(cfg: Config, s: EngineState, q: Request)
    requires Bijective(s.directory)
    ensures Handle(cfg, s, q).1 == NfcUidThrottled <==> PlayerTag(s, q.uid) && Rejects(cfg, s, q, s.directory.uids[q.uid])
  {
    if IsAccepted(cfg, s, q) { HandleAccepts(cfg, s, q); } else { HandleRefuses(cfg, s, q); }
  }

  /** The bloops ever accepted at the request's client that lie within the threshold, newest first. */
  ghost function Recent(t: Throttle, s: EngineState, q: Request): seq<Bloop> {
    Filter(Filter(s.history, AtClient(q.client)), Since(q.throttleNow - t.threshold))
  }

  lemma RejectsExactly(cfg: Config, s: EngineState, q: Request, player: Uuid)
    requires HistoriesInvariant(s) && s.clock <= q.throttleNow
    requires cfg.throttle.Some? && cfg.throttle.value.threshold <= s.histories.maxAge
    ensures Rejects(cfg, s, q, player) <==> OwnStreak(Recent(cfg.throttle.value, s, q), cfg.throttle.value.maxBloops, player)
  {
    var t := cfg.throttle.value;
    assert Retains(s.histories, s.history, s.clock, q.client);
    WindowsAgree(s.histories, s.history, s.clock, q.client, q.throttleNow, t.threshold);
    TakenAreOwn(Recent(t, s, q), t.maxBloops, player);
  }

  /**
   * With enough retention, a request is refused for throttling if and only if a known player's own
   * bloops are the newest `maxBloops` that its client saw within the threshold.
   */
  lemma RefusedExactly(cfg: Config, s: EngineState, q: Request)
    requires Invariant(cfg, s) && Requestable(cfg, s, q)
    requires cfg.throttle.Some? ==> cfg.throttle.value.threshold <= s.histories.maxAge
    ensures Handle(cfg, s, q).1 == NfcUidThrottled <==>
            && PlayerTag(s, q.uid) && cfg.throttle.Some?
            && OwnStreak(Recent(cfg.throttle.value, s, q), cfg.throttle.value.maxBloops, s.directory.uids[q.uid])
  {
    RepliesThrottled(cfg, s, q);
    if PlayerTag(s, q.uid) && cfg.throttle.Some? {
      RejectsExactly(cfg, s, q, s.directory.uids[q.uid]);
    }
  }

  /** The newest `n` are the player's own and none of them is older than the threshold. */
  ghost predicate TooMany(earlier: seq<Bloop>, t: Throttle, player: Uuid, now: Instant) {
    && t.maxBloops <= |earlier|
    && forall i :: 0 <= i < t.maxBloops ==> earlier[i].player == player && earlier[i].at + t.threshold >= now
  }

  lemma TooManyExact(earlier: seq<Bloop>, t: Throttle, player: Uuid, now: Instant)
    requires Sorted(earlier, NewestFirst())
    ensures OwnStreak(Filter(earlier, Since(now - t.threshold)), t.maxBloops, player) <==> TooMany(earlier, t, player, now)
  {
    var m := WindowIsPrefix(earlier, now - t.threshold);
    if TooMany(earlier, t, player, now) && t.maxBloops > 0 {
      assert earlier[t.maxBloops - 1].at >= now - t.threshold;
    }
  }

  /** The request is a known player's and too many of the newest bloops ever accepted at its client are the player's own. */
  ghost predicate Overdoes(cfg: Config, s: EngineState, q: Request) {
    && PlayerTag(s, q.uid) && cfg.throttle.Some?
    && TooMany(Filter(s.history, AtClient(q.client)), cfg.throttle.value, s.directory.uids[q.uid], q.throttleNow)
  }

  lemma RefusedByOwnBloops(cfg: Config, s: EngineState, q: Request)
    requires Invariant(cfg, s) && Chronological(s) && Requestable(cfg, s, q)
    requires cfg.throttle.Some? ==> cfg.throttle.value.threshold <= s.histories.maxAge
    ensures Handle(cfg, s, q).1 == NfcUidThrottled <==> Overdoes(cfg, s, q)
  {
    RefusedExactly(cfg, s, q);
    if PlayerTag(s, q.uid) && cfg.throttle.Some? {
      RecentIsNewest(cfg.throttle.value, s, q, s.directory.uids[q.uid]);
    }
  }

  lemma RecentIsNewest(t: Throttle, s: EngineState, q: Request, player: Uuid)
    requires Chronological(s)
    ensures OwnStreak(Recent(t, s, q), t.maxBloops, player) <==>
            TooMany(Filter(s.history, AtClient(q.client)), t, player, q.throttleNow)
  {
    FilterSorted(s.history, AtClient(q.client));
    TooManyExact(Filter(s.history, AtClient(q.client)), t, player, q.throttleNow);
  }

  /**
   * In every run a player is refused only for its own bloops: exactly when each of the newest
   * `maxBloops` ever accepted at the client is the player's and at most the threshold old.
   */
  lemma RefusedInEveryRun(cfg: Config, states: seq<EngineState>, inputs: seq<Input>, k: nat)
    requires IsRun(cfg, states, inputs) && Invariant(cfg, states[0]) && Chronological(states[0])
    requires k < |inputs| && inputs[k].Serve?
    requires cfg.throttle.Some? ==> cfg.throttle.value.threshold <= states[k].histories.maxAge
    ensures Bijective(states[k].directory)
    ensures Handle(cfg, states[k], inputs[k].request).1 == NfcUidThrottled <==> Overdoes(cfg, states[k], inputs[k].request)
  {
    InvariantInEveryRun(cfg, states, inputs, k);
    RunChronological(cfg, states, inputs, k);
    EnabledAt(cfg, states, inputs, k);
    RefusedByOwnBloops(cfg, states[k], inputs[k].request);
  }

  // ----- What is on record afterwards ---------------------------------------------------------

  /** The request was a player's bloop and was not refused. */
  predicate Counts(s: EngineState, q: Request, reply: Response) { PlayerTag(s, q.uid) && reply.Accepted? }

  /** Exactly the bloops that count are recorded and announced, each as its player's at its client and time. */
  lemma RecordedExactly(cfg: Config, s: EngineState, q: Request)
    requires Invariant(cfg, s)
    ensures var (s', reply) := Handle(cfg, s, q);
            && s'.clock == q.clientNow
            && (Counts(s, q, reply) ==>
                var b := Bloop(s.directory.uids[q.uid], q.client, q.recordedAt);
                s'.history == [b] + s.history && s'.processed == s.processed + [b])
            && (!Counts(s, q, reply) ==> s'.history == s.history && s'.processed == s.processed && s'.batches == s.batches)
  {
    if IsAccepted(cfg, s, q) { HandleAccepts(cfg, s, q); } else { HandleRefuses(cfg, s, q); }
  }

  /** The served player's counter goes up by one; nobody's id or tag changes and no player comes or goes. */
  lemma CountedExactly(cfg: Config, s: EngineState, q: Request, p: Uuid)
    requires Invariant(cfg, s)
    ensures var (s', reply) := Handle(cfg, s, q);
            && s'.directory.uids == s.directory.uids && (p in s'.directory.players <==> p in s.directory.players)
            && (p in s.directory.players ==>
                var before, after := s.directory.players[p], s'.directory.players[p];
                && after.id == before.id && after.uid == before.uid
                && after.totalBloops == before.totalBloops + if Counts(s, q, reply) && p == s.directory.uids[q.uid] then 1 else 0)
  {
    if IsAccepted(cfg, s, q) {
      HandleAccepts(cfg, s, q);
      AcceptBijective(cfg, s, q, s.directory.uids[q.uid]);
      if p in s.directory.players { AcceptAwards(cfg, s, q, s.directory.uids[q.uid], p); }
    } else {
      HandleRefuses(cfg, s, q);
    }
  }
}
