/** The engine object: `handle_bloop` step by step over the components it owns. */
module Engine {
  import opened Types
  import opened Bloops
  import opened Players
  import opened Triggers
  import opened Awards
  import opened EngineModel
  import opened EngineRuns

  /** An evaluator at work: its trigger checks consume usages of the live registry. */
  method FollowPlan(plan: EvalPlan, triggers: TriggerRegistry, client: ClientId, at: Instant) returns (result: EvalResult)
    modifies triggers
    ensures (result, triggers.View()) == RunPlan(plan, old(triggers.View()), client, at)
  {
    var rest := plan;
    while rest.Ask?
      invariant RunPlan(rest, triggers.View(), client, at) == RunPlan(plan, old(triggers.View()), client, at)
      decreases rest
    {
      var active := triggers.CheckActiveTrigger(rest.trigger, client, at);
      rest := if active then rest.ifActive else rest.otherwise;
    }
    result := rest.result;
  }

  method EvaluateAchievements(q: Request, player: PlayerData, triggers: TriggerRegistry) returns (tracker: AwardedTracker)
    modifies triggers
    ensures fresh(tracker) && tracker.awardedAt == q.recordedAt
    ensures (tracker.awarded, triggers.View()) ==
            Evaluate(q, q.order, player.awarded.Keys, player.id, map[], old(triggers.View()))
  {
    var held := player.awarded.Keys;
    tracker := new AwardedTracker(q.recordedAt);
    for i := 0 to |q.order|
      invariant fresh(tracker)
      invariant Evaluate(q, q.order[i..], held, player.id, tracker.awarded, triggers.View()) ==
                Evaluate(q, q.order, held, player.id, map[], old(triggers.View()))
    {
      var achievement := q.order[i];
      assert q.order[i..][1..] == q.order[i + 1..];
      if achievement !in held {
        var result := FollowPlan(PlanFor(q, achievement), triggers, q.client, q.recordedAt);
        tracker.Record(achievement, result, player.id);
      }
    }
  }

  ghost function AwardedTo(d: Directory, p: Uuid, achievements: set<Uuid>, at: Instant): Directory {
    if p in d.players then d.(players := d.players[p := WithAwards(d.players[p], achievements, at)]) else d
  }

  /** One player's share of a batch, through the registry's `mutate_by_id`. */
  method AwardPlayer(registry: PlayerRegistry, p: Uuid, achievements: set<Uuid>, at: Instant)
    requires registry.Consistent()
    modifies registry`byUid, registry.byId.Values
    ensures registry.byId == old(registry.byId) && registry.byUid == old(registry.byUid) && registry.Consistent()
    ensures registry.View() == AwardedTo(old(registry.View()), p, achievements, at)
  {
    registry.ConsistentIsBijective();
    MutationKeepsUids(registry.View(), p, achievements, at);
    registry.MutateById(p, data => WithAwards(data, achievements, at));
  }

  lemma MutationKeepsUids(d: Directory, p: Uuid, achievements: set<Uuid>, at: Instant)
    requires Bijective(d)
    ensures p in d.players ==>
              var op := MutatePlayer(p, WithAwards(d.players[p], achievements, at));
              Admissible(d, op) && Apply(d, op) == AwardedTo(d, p, achievements, at)
  {
  }

  /** Gives each player in the batch its awards, in whatever order the map is visited. */
  method ApplyAwarded(registry: PlayerRegistry, awards: AwardMap, at: Instant)
    requires registry.Consistent()
    modifies registry`byUid, registry.byId.Values
    ensures registry.byId == old(registry.byId) && registry.byUid == old(registry.byUid) && registry.Consistent()
    ensures registry.View() == old(registry.View()).(players := Granted(old(registry.View()).players, awards, at))
  {
    ghost var d := registry.View();
    var pending := awards.Keys;
    while pending != {}
      invariant pending <= awards.Keys
      invariant registry.byId == old(registry.byId) && registry.byUid == old(registry.byUid) && registry.Consistent()
      invariant GrantedExcept(d, registry.View(), awards, at, pending)
    {
      var p :| p in pending;
      ApplyStep(d, registry.View(), awards, at, pending, p);
      AwardPlayer(registry, p, awards[p], at);
      pending := pending - {p};
    }
    GrantedComplete(d, registry.View(), awards, at);
  }

  /** Exactly the players outside `pending` have received their awards. */
  ghost predicate GrantedExcept(d: Directory, d': Directory, awards: AwardMap, at: Instant, pending: set<Uuid>) {
    && d'.uids == d.uids && d'.players.Keys == d.players.Keys
    && forall p :: p in d.players ==>
         d'.players[p] == if p in awards && p !in pending then WithAwards(d.players[p], awards[p], at) else d.players[p]
  }

  lemma ApplyStep(d: Directory, before: Directory, awards: AwardMap, at: Instant, pending: set<Uuid>, p: Uuid)
    requires GrantedExcept(d, before, awards, at, pending) && p in pending && p in awards
    ensures GrantedExcept(d, AwardedTo(before, p, awards[p], at), awards, at, pending - {p})
  {
  }

  lemma NoAwards(p: PlayerData, at: Instant)
    ensures WithAwards(p, {}, at) == p
  {
  }

  lemma GrantedComplete(d: Directory, d': Directory, awards: AwardMap, at: Instant)
    requires GrantedExcept(d, d', awards, at, {})
    ensures d' == d.(players := Granted(d.players, awards, at))
  {
    forall p | p in d.players
      ensures d'.players[p] == WithAwards(d.players[p], AwardsOf(awards, p), at)
    {
      NoAwards(d.players[p], at);
    }
  }

  function Elements(hot: seq<Hot>): set<Hot> { set h | h in hot }

  lemma ElementsAppend(hot: seq<Hot>, h: Hot)
    ensures Elements(hot + [h]) == Elements(hot) + {h}
  {
  }

  /** The counter goes up through the shared reference, without passing through the registry. */
  method IncrementBloops(registry: PlayerRegistry, player: Player)
    requires registry.Consistent() && player in registry.byId.Values
    modifies player
    ensures player.data == Incremented(old(player.data))
    ensures registry.Consistent()
    ensures var id, d := player.data.id, old(registry.View());
            id in d.players && d.players[id] == old(player.data) &&
            registry.View() == d.(players := d.players[id := player.data])
  {
    ghost var id, d := player.data.id, registry.View();
    registry.ConsistentIsBijective();
    player.data := Incremented(player.data);
    registry.MutateShown(id);
    registry.MutateConsistent(id);
    assert (d.uids - {player.data.uid})[player.data.uid := id] == d.uids;
  }

  class BloopEngine {
    const cfg: Config
    const provider: BloopProvider
    const registry: PlayerRegistry
    const triggers: TriggerRegistry
    var hot: seq<Hot>
    /** The events sent, by kind. */
    var awardEvents: seq<Batch>
    var bloopEvents: seq<Bloop>
    ghost var clock: Instant
    ghost var history: seq<Bloop>
    ghost var openings: set<Opening>

    ghost predicate Valid()
      reads this, registry, registry.Objects()
    {
      && registry.Consistent()
      && this !in registry.Objects() && provider !in registry.Objects() && triggers !in registry.Objects()
      && forall h <- hot :: h.id in cfg.achievements
    }

    ghost function View(): EngineState
      reads this, provider, triggers, registry, registry.Objects()
    {
      EngineState(provider.View(), registry.View(), triggers.View(), Elements(hot), clock, history, openings, awardEvents, bloopEvents)
    }

    constructor (cfg: Config, maxAge: Duration, stored: seq<Bloop>, registry: PlayerRegistry, triggers: TriggerRegistry, ghost now: Instant)
      requires registry.Consistent()
      ensures Valid() && this.cfg == cfg && this.registry == registry && this.triggers == triggers && fresh(provider)
      ensures Start(cfg, View(), maxAge, stored) && View().clock == now
      ensures View().directory == registry.View() && View().triggers == triggers.View()
    {
      this.cfg := cfg;
      this.registry := registry;
      this.triggers := triggers;
      provider := new BloopProvider.WithBloops(maxAge, stored);
      hot, awardEvents, bloopEvents := [], [], [];
      clock, history, openings := now, StableSort.Sort(stored, NewestFirst()), {};
      new;
      registry.ConsistentIsBijective();
    }

    /** Opens a window for each of the player's evaluated awards that has a hot duration. */
    method ActivateHot(b: Bloop, tracker: AwardedTracker)
      requires forall h <- hot :: h.id in cfg.achievements
      modifies this`hot
      ensures forall h <- hot :: h.id in cfg.achievements
      ensures Elements(hot) == Elements(old(hot)) + Opened(cfg, AwardsOf(tracker.awarded, b.player), b)
    {
      if b.player !in tracker.awarded {
        return;
      }
      var pending := tracker.awarded[b.player];
      while pending != {}
        invariant pending <= tracker.awarded[b.player]
        invariant forall h <- hot :: h.id in cfg.achievements
        invariant Elements(hot) ==
                  Elements(old(hot)) + Opened(cfg, tracker.awarded[b.player] - pending, b)
      {
        var achievement :| achievement in pending;
        pending := pending - {achievement};
        if achievement in cfg.achievements && cfg.achievements[achievement].hotDuration.Some? {
          var window := Hot(achievement, b.client, b.at + cfg.achievements[achievement].hotDuration.value);
          ElementsAppend(hot, window);
          hot := hot + [window];
        }
      }
    }

    /** Drops expired windows and gives the player everything hot at its client. */
    method InjectHot(b: Bloop, tracker: AwardedTracker)
      requires forall h <- hot :: h.id in cfg.achievements
      modifies this`hot, tracker
      ensures forall h <- hot :: h.id in cfg.achievements
      ensures Elements(hot) == StillHot(Elements(old(hot)), b)
      ensures tracker.awarded ==
              old(tracker.awarded)[b.player := AwardsOf(old(tracker.awarded), b.player) + PickedUp(Elements(old(hot)), b)]
    {
      var awarded := AwardsOf(tracker.awarded, b.player);
      var kept: seq<Hot> := [];
      for i := 0 to |hot|
        invariant hot == old(hot) && tracker.awarded == old(tracker.awarded)
        invariant Elements(kept) == StillHot(Elements(hot[..i]), b)
        invariant awarded == AwardsOf(tracker.awarded, b.player) + PickedUp(Elements(hot[..i]), b)
        invariant forall h <- kept :: h in hot
      {
        var h := hot[i];
        assert hot[..i + 1] == hot[..i] + [h];
        ElementsAppend(hot[..i], h);
        ElementsAppend(kept, h);
        if h.until >= b.at {
          if h.client == b.client {
            awarded := awarded + {h.id};
          }
          kept := kept + [h];
        }
      }
      assert hot[..|hot|] == hot;
      hot := kept;
      tracker.awarded := tracker.awarded[b.player := awarded];
    }

    /** Evaluation, then activation, then injection of hot achievements. */
    method CollectAwards(q: Request, player: PlayerData) returns (tracker: AwardedTracker)
      requires forall h <- hot :: h.id in cfg.achievements
      modifies this`hot, triggers
      ensures forall h <- hot :: h.id in cfg.achievements
      ensures fresh(tracker) && tracker.awardedAt == q.recordedAt
      ensures var c := Collect(cfg, q, player, Elements(old(hot)), old(triggers.View()));
              && tracker.awarded == c.all && triggers.View() == c.triggers
              && Elements(hot) == StillHot(Elements(old(hot)) + c.windows, Bloop(player.id, q.client, q.recordedAt))
    {
      var b := Bloop(player.id, q.client, q.recordedAt);
      tracker := EvaluateAchievements(q, player, triggers);
      ActivateHot(b, tracker);
      InjectHot(b, tracker);
    }

    /** Collecting awards leaves the players alone; what they already hold is then taken out. */
    method CollectNew(q: Request, player: PlayerData) returns (tracker: AwardedTracker)
      requires Valid()
      modifies this`hot, triggers
      ensures Valid() && registry.View() == old(registry.View())
      ensures fresh(tracker) && tracker.awardedAt == q.recordedAt
      ensures var c := Collect(cfg, q, player, Elements(old(hot)), old(triggers.View()));
              && tracker.awarded == Deduplicated(c.all, old(registry.View()).players) && triggers.View() == c.triggers
              && Elements(hot) == StillHot(Elements(old(hot)) + c.windows, Bloop(player.id, q.client, q.recordedAt))
    {
      tracker := CollectAwards(q, player);
      registry.Untouched();
      tracker.RemoveDuplicates(registry);
      registry.Untouched();
    }

    /** From the bloop counter to the awards that remain after removing duplicates. */
    method JudgeBloop(q: Request, player: Player) returns (tracker: AwardedTracker, ghost o: Outcome)
      requires Valid() && player in registry.byId.Values
      modifies this`hot, triggers, player
      ensures Valid() && player.data.id == old(player.data.id)
      ensures fresh(tracker) && tracker.awardedAt == q.recordedAt
      ensures old(player.data.id) in old(View()).directory.players
      ensures o == Judge(cfg, old(View()), q, old(player.data.id))
      ensures tracker.awarded == o.granted && triggers.View() == o.triggers
      ensures registry.View() == old(View()).directory.(players := o.players)
      ensures Elements(hot) == StillHot(old(View()).hot + o.windows, o.bloop)
    {
      ghost var s, p := View(), player.data.id;
      IncrementBloops(registry, player);
      o := Judge(cfg, s, q, p);
      tracker := CollectNew(q, player.data);
    }

    /** Judges the bloop, hands out the awards and records the bloop. */
    method AcceptBloop(q: Request, player: Player) returns (achievements: set<Uuid>, ghost o: Outcome)
      requires Valid() && player in registry.byId.Values
      modifies this, provider, triggers, registry`byUid, registry.byId.Values
      ensures Valid()
      ensures old(player.data.id) in old(View()).directory.players
      ensures o == Judge(cfg, old(View()), q, old(player.data.id))
      ensures View() == Commit(old(View()), q, o) && achievements == AwardsOf(o.granted, old(player.data.id))
    {
      var tracker;
      tracker, o := JudgeBloop(q, player);
      achievements := AwardsOf(tracker.awarded, player.data.id);
      var b := Bloop(player.data.id, q.client, tracker.awardedAt);
      ApplyAndRecord(q, b, tracker.awarded, o.windows);
    }

    method ApplyAndRecord(q: Request, b: Bloop, awards: AwardMap, ghost windows: set<Hot>)
      requires Valid()
      modifies this, provider, registry`byUid, registry.byId.Values
      ensures Valid()
      ensures View() == EngineState(
                old(provider.View()).Add(b, q.globalNow, q.clientNow),
                old(registry.View()).(players := Granted(old(registry.View()).players, awards, b.at)),
                old(triggers.View()),
                Elements(old(hot)),
                q.clientNow,
                [b] + old(history),
                old(openings) + (set h | h in windows :: Opening(b.player, h)),
                old(awardEvents) + [Batch(b.at, awards)],
                old(bloopEvents) + [b])
    {
      ApplyAwarded(registry, awards, b.at);
      RecordBloop(q, b, awards, windows);
    }

    /** Sends the events and adds the bloop to the histories. */
    method RecordBloop(q: Request, b: Bloop, awards: AwardMap, ghost windows: set<Hot>)
      requires Valid()
      modifies this`awardEvents, this`bloopEvents, this`clock, this`history, this`openings, provider
      ensures Valid()
      ensures View() == old(View()).(
                histories := old(View()).histories.Add(b, q.globalNow, q.clientNow),
                clock := q.clientNow,
                history := [b] + old(history),
                openings := old(openings) + (set h | h in windows :: Opening(b.player, h)),
                batches := old(awardEvents) + [Batch(b.at, awards)],
                processed := old(bloopEvents) + [b])
    {
      awardEvents := awardEvents + [Batch(b.at, awards)];
      provider.Add(b, q.globalNow, q.clientNow);
      bloopEvents := bloopEvents + [b];
      clock, history := q.clientNow, [b] + history;
      openings := openings + set h | h in windows :: Opening(b.player, h);
      registry.Untouched();
    }

    /** The reply lists known achievements, so each one's audio can be looked up. */
    lemma RepliesKnown(q: Request, p: Uuid)
      requires Valid() && p in View().directory.players && forall a <- q.order :: a in cfg.achievements
      ensures AwardsOf(Judge(cfg, View(), q, p).granted, p) <= cfg.achievements.Keys
    {
      JudgeGranted(cfg, View(), q, p, p);
      JudgeEvaluated(cfg, View(), q, p);
    }

    /** The early exits: a trigger tag, an unknown tag, a throttled player. */
    method Screen(q: Request) returns (reply: Option<Response>)
      requires Valid()
      modifies triggers
      ensures Valid()
      ensures View() == old(View()).(triggers := old(View()).triggers.Activate(q.uid, q.client, q.triggerNow).0)
      ensures reply.None? <==> IsAccepted(cfg, old(View()), q)
      ensures reply.None? ==> View() == old(View()) && q.uid in registry.byUid
      ensures reply.Some? ==>
                reply.value == if q.uid in old(View()).triggers.specs then Accepted({})
                               else if q.uid !in old(View()).directory.uids then UnknownNfcUid else NfcUidThrottled
    {
      ghost var s := View();
      registry.ConsistentIsBijective();
      var activated := triggers.TryActivateTrigger(q.uid, q.client, q.triggerNow);
      registry.Untouched();
      assert View() == s.(triggers := triggers.View());
      if activated {
        return Some(Accepted({}));
      }
      if q.uid !in registry.byUid {
        return Some(UnknownNfcUid);
      }
      var player := registry.byUid[q.uid];
      assert s.directory.uids[q.uid] == player.data.id;
      if cfg.throttle.Some? && Throttles(cfg.throttle.value, provider.View().ForClient(q.client), player.data.id, q.throttleNow) {
        return Some(NfcUidThrottled);
      }
      reply := None;
    }

    /** A bloop that passed the screening. */
    method ServePlayer(q: Request) returns (achievements: set<Uuid>)
      requires Valid() && (forall a <- q.order :: a in cfg.achievements)
      requires q.uid in registry.byUid && IsAccepted(cfg, View(), q)
      modifies this, provider, triggers, registry`byUid, registry.byId.Values
      ensures Valid() && achievements <= cfg.achievements.Keys
      ensures (View(), Accepted(achievements)) == Handle(cfg, old(View()), q)
    {
      var player := registry.byUid[q.uid];
      ghost var s := View();
      registry.ConsistentIsBijective();
      HandleAccepts(cfg, s, q);
      assert s.directory.uids[q.uid] == player.data.id;
      RepliesKnown(q, player.data.id);
      ghost var o;
      achievements, o := AcceptBloop(q, player);
    }

    ghost method Wait(now: Instant)
      requires Valid()
      modifies this`clock
      ensures Valid() && View() == old(View()).(clock := now)
    {
      clock := now;
      registry.Untouched();
    }

    /** Looks every achievement up; the lookup is defined for each. */
    function AudioRecords(achievements: set<Uuid>): map<Uuid, Option<nat>>
      requires achievements <= cfg.achievements.Keys
    {
      map a | a in achievements :: cfg.achievements[a].audioHash
    }

    /** `handle_bloop` up to the achievements it replies with. */
    method HandleBloop(q: Request) returns (response: Response)
      requires Valid() && forall a <- q.order :: a in cfg.achievements
      modifies this, provider, triggers, registry`byUid, registry.byId.Values
      ensures Valid()
      ensures (View(), response) == Handle(cfg, old(View()), q)
      ensures response.Accepted? ==> response.achievements <= cfg.achievements.Keys
    {
      ghost var s := View();
      registry.ConsistentIsBijective();
      var reply := Screen(q);
      if reply.Some? {
        HandleRefuses(cfg, s, q);
        Wait(q.clientNow);
        response := reply.value;
      } else {
        var achievements := ServePlayer(q);
        response := Accepted(achievements);
      }
    }

    /** The reply as sent: each achievement with the audio hash looked up for it. */
    method Reply(q: Request) returns (response: Response, records: map<Uuid, Option<nat>>)
      requires Valid() && forall a <- q.order :: a in cfg.achievements
      modifies this, provider, triggers, registry`byUid, registry.byId.Values
      ensures Valid() && (View(), response) == Handle(cfg, old(View()), q)
      ensures records.Keys == if response.Accepted? then response.achievements else {}
      ensures forall a :: a in records ==> a in cfg.achievements && records[a] == cfg.achievements[a].audioHash
    {
      response := HandleBloop(q);
      records := if response.Accepted? then AudioRecords(response.achievements) else map[];
    }
  }
}
