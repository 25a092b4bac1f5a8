/** Guarantees that hold over every run of the engine. */
module EngineRuns {
  import opened Types
  import opened Bloops
  import opened Players
  import opened Triggers
  import opened Awards
  import opened EngineModel

  // ----- What evaluation can award -------------------------------------------------

  /** Only evaluated achievements, never ones the player holds, reach the player. */
  lemma {:induction false} EvaluateAwards(q: Request, order: seq<Uuid>, held: set<Uuid>, player: Uuid, m: AwardMap, triggers: Registry, p: Uuid)
    ensures forall a <- AwardsOf(Evaluate(q, order, held, player, m, triggers).0, p) ::
              a in AwardsOf(m, p) || (a in order && a !in held)
    decreases |order|
  {
    if order != [] {
      if order[0] in held {
        EvaluateAwards(q, order[1..], held, player, m, triggers, p);
      } else {
        var (result, after) := RunPlan(PlanFor(q, order[0]), triggers, q.client, q.recordedAt);
        AddAwardsMembers(m, order[0], Recipients(result, player), p);
        EvaluateAwards(q, order[1..], held, player, AddAwards(m, order[0], Recipients(result, player)), after, p);
      }
    }
  }

  lemma JudgeEvaluated(cfg: Config, s: EngineState, q: Request, player: Uuid)
    requires player in s.directory.players
    ensures forall a <- AwardsOf(Judge(cfg, s, q, player).evaluated, player) ::
              a in q.order && a !in s.directory.players[player].awarded
  {
    EvaluateAwards(q, q.order, s.directory.players[player].awarded.Keys, player, map[], s.triggers, player);
  }

  /** What a player gains from an accepted bloop. */
  lemma JudgeGranted(cfg: Config, s: EngineState, q: Request, player: Uuid, p: Uuid)
    requires player in s.directory.players
    ensures var o := Judge(cfg, s, q, player);
            AwardsOf(o.granted, p) ==
            if p !in s.directory.players then {}
            else AwardsOf(o.evaluated, p) + (if p == player then o.pickedUp else {}) - s.directory.players[p].awarded.Keys
  {
  }

  /** Awards only grow: exactly by the batch, stamped with the bloop's time. */
  lemma AcceptAwards(cfg: Config, s: EngineState, q: Request, player: Uuid, p: Uuid)
    requires player in s.directory.players && p in s.directory.players
    ensures var o, s' := Judge(cfg, s, q, player), Accept(cfg, s, q, player);
            && p in s'.directory.players
            && s'.directory.players[p].awarded.Keys == s.directory.players[p].awarded.Keys + AwardsOf(o.granted, p)
            && (forall a <- s.directory.players[p].awarded :: s'.directory.players[p].awarded[a] == s.directory.players[p].awarded[a])
            && (forall a <- AwardsOf(o.granted, p) :: s'.directory.players[p].awarded[a] == o.bloop.at)
            && s'.directory.players[p].id == s.directory.players[p].id
            && s'.directory.players[p].uid == s.directory.players[p].uid
  {
    JudgeGranted(cfg, s, q, player, p);
  }

  lemma AcceptBijective(cfg: Config, s: EngineState, q: Request, player: Uuid)
    requires player in s.directory.players && Bijective(s.directory)
    ensures Bijective(Accept(cfg, s, q, player).directory)
    ensures Accept(cfg, s, q, player).directory.uids == s.directory.uids
    ensures Accept(cfg, s, q, player).directory.players.Keys == s.directory.players.Keys
  {
  }

  /** Evaluators that decide without asking for triggers are judged alike in every visiting order. */
  lemma {:induction false} EvaluateExact(q: Request, order: seq<Uuid>, held: set<Uuid>, player: Uuid, m: AwardMap, triggers: Registry, p: Uuid)
    requires forall a <- order :: PlanFor(q, a).Conclude?
    ensures Evaluate(q, order, held, player, m, triggers).1 == triggers
    ensures AwardsOf(Evaluate(q, order, held, player, m, triggers).0, p) ==
            AwardsOf(m, p) + set a | a in order && a !in held && p in Recipients(PlanFor(q, a).result, player)
    decreases |order|
  {
    if order != [] {
      var a := order[0];
      if a in held {
        EvaluateExact(q, order[1..], held, player, m, triggers, p);
      } else {
        var recipients := Recipients(PlanFor(q, a).result, player);
        AddAwardsMembers(m, a, recipients, p);
        EvaluateExact(q, order[1..], held, player, AddAwards(m, a, recipients), triggers, p);
      }
    }
  }

  lemma {:induction false} AfterConcat(r: Registry, a: seq<Event>, b: seq<Event>)
    ensures After(r, a + b) == After(After(r, a), b)
    decreases |a|
  {
    if a == [] {
      assert a + b == b;
    } else {
      assert (a + b)[1..] == a[1..] + b;
      AfterConcat(Step(r, a[0]).0, a[1..], b);
    }
  }

  /** All evaluators together touch the triggers by checks at the bloop's client and time only. */
  lemma {:induction false} EvaluateOnlyChecks(q: Request, order: seq<Uuid>, held: set<Uuid>, player: Uuid, m: AwardMap, triggers: Registry)
    returns (checks: seq<Event>)
    ensures ChecksAt(checks, q.client, q.recordedAt)
    ensures Evaluate(q, order, held, player, m, triggers).1 == After(triggers, checks)
    decreases |order|
  {
    if order == [] {
      checks := [];
    } else if order[0] in held {
      checks := EvaluateOnlyChecks(q, order[1..], held, player, m, triggers);
    } else {
      var (result, after) := RunPlan(PlanFor(q, order[0]), triggers, q.client, q.recordedAt);
      var first := PlanOnlyChecks(PlanFor(q, order[0]), triggers, q.client, q.recordedAt);
      var rest := EvaluateOnlyChecks(q, order[1..], held, player, AddAwards(m, order[0], Recipients(result, player)), after);
      AfterConcat(triggers, first, rest);
      checks := first + rest;
    }
  }

  /** An evaluator that asks for no triggers decides its achievement, whatever the other evaluators do. */
  lemma {:induction false} EvaluateDecides(q: Request, order: seq<Uuid>, held: set<Uuid>, player: Uuid, m: AwardMap, triggers: Registry,
                                           p: Uuid, a: Uuid)
    requires PlanFor(q, a).Conclude?
    ensures a in AwardsOf(Evaluate(q, order, held, player, m, triggers).0, p) <==>
            a in AwardsOf(m, p) || (a in order && a !in held && p in Recipients(PlanFor(q, a).result, player))
    decreases |order|
  {
    if order != [] {
      if order[0] in held {
        EvaluateDecides(q, order[1..], held, player, m, triggers, p, a);
      } else {
        var (result, after) := RunPlan(PlanFor(q, order[0]), triggers, q.client, q.recordedAt);
        AddAwardsMembers(m, order[0], Recipients(result, player), p);
        EvaluateDecides(q, order[1..], held, player, AddAwards(m, order[0], Recipients(result, player)), after, p, a);
      }
    }
  }

  /** The same for what remains after hot pick-up and removal of duplicates. */
  lemma GrantDecided(cfg: Config, s: EngineState, q: Request, player: Uuid, p: Uuid, a: Uuid)
    requires player in s.directory.players && PlanFor(q, a).Conclude? && a in q.order
    ensures var o := Judge(cfg, s, q, player);
            a in AwardsOf(o.granted, p) <==>
            && p in s.directory.players && a !in s.directory.players[p].awarded
            && (|| (a !in s.directory.players[player].awarded && p in Recipients(PlanFor(q, a).result, player))
                || (p == player && a in o.pickedUp))
  {
    JudgeGranted(cfg, s, q, player, p);
    EvaluateDecides(q, q.order, s.directory.players[player].awarded.Keys, player, map[], s.triggers, p, a);
  }

  /**
   * What everybody gains from an accepted bloop, whatever order the achievements are visited in:
   * the achievements the blooping player lacked and whose evaluator named the recipient, plus what
   * the blooping player picks up hot, less what the recipient already holds.
   */
  lemma GrantedExact(cfg: Config, s: EngineState, q: Request, player: Uuid, p: Uuid)
    requires player in s.directory.players && p in s.directory.players
    requires (set a | a in q.order) == cfg.achievements.Keys && forall a <- q.order :: PlanFor(q, a).Conclude?
    ensures var o := Judge(cfg, s, q, player);
            && o.triggers == s.triggers
            && AwardsOf(o.granted, p) ==
               (set a | a in cfg.achievements && a !in s.directory.players[player].awarded
                        && p in Recipients(PlanFor(q, a).result, player))
               + (if p == player then o.pickedUp else {})
               - s.directory.players[p].awarded.Keys
  {
    var held := s.directory.players[player].awarded.Keys;
    JudgeGranted(cfg, s, q, player, p);
    EvaluateExact(q, q.order, held, player, map[], s.triggers, p);
    assert forall a :: a in q.order <==> a in (set a | a in q.order);
  }

  // ----- The invariant ---------------------------------------------------------------

  /** No player and achievement occur together in two batches. */
  ghost predicate BatchesDisjoint(x: Batch, y: Batch) {
    forall p, a :: p in x.awards && a in x.awards[p] ==> !(p in y.awards && a in y.awards[p])
  }

  ghost predicate AwardedOnce(s: EngineState) {
    forall i, j :: 0 <= i < j < |s.batches| ==> BatchesDisjoint(s.batches[i], s.batches[j])
  }

  ghost predicate BatchesKnown(cfg: Config, batches: seq<Batch>) {
    forall i :: 0 <= i < |batches| ==> BatchKnown(cfg, batches[i])
  }

  ghost predicate BatchKnown(cfg: Config, batch: Batch) {
    forall p, a :: p in batch.awards && a in batch.awards[p] ==> a in cfg.achievements
  }

  /** The award was sent to the player in some batch. */
  ghost predicate Sent(batches: seq<Batch>, p: Uuid, a: Uuid) {
    exists i :: 0 <= i < |batches| && a in AwardsOf(batches[i].awards, p)
  }

  /** The pruned list holds every window still open, and every window comes from an award that was sent. */
  ghost predicate HotInvariant(cfg: Config, s: EngineState) {
    && (forall x <- s.openings :: x.hot in s.hot || x.hot.until < s.clock)
    && (forall h <- s.hot :: h.id in cfg.achievements && exists x :: x in s.openings && x.hot == h)
    && (forall x <- s.openings :: Sent(s.batches, x.player, x.hot.id))
    && (forall x, y :: x in s.openings && y in s.openings && x.player == y.player && x.hot.id == y.hot.id ==> x == y)
  }

  ghost predicate HistoriesInvariant(s: EngineState) {
    forall c :: Retains(s.histories, s.history, s.clock, c)
  }

  ghost predicate Invariant(cfg: Config, s: EngineState) {
    && Bijective(s.directory)
    && Remembers(s.batches, s.directory) && AwardedOnce(s) && BatchesKnown(cfg, s.batches)
    && HotInvariant(cfg, s)
    && HistoriesInvariant(s)
  }

  lemma StartInvariant(cfg: Config, s: EngineState, maxAge: Duration, stored: seq<Bloop>)
    requires Start(cfg, s, maxAge, stored)
    ensures Invariant(cfg, s)
  {
    forall c
      ensures Retains(s.histories, s.history, s.clock, c)
    {
      InitialRetains(s.histories, maxAge, stored, s.clock, c);
    }
  }

  // ----- Every step keeps it -----------------------------------------------------------

  lemma SentIsHeld(batches: seq<Batch>, d: Directory, p: Uuid, a: Uuid)
    requires Remembers(batches, d) && Sent(batches, p, a) && p in d.players
    ensures a in d.players[p].awarded
  {
    var i :| 0 <= i < |batches| && a in AwardsOf(batches[i].awards, p);
    assert BatchHeld(d, batches[i]);
  }

  lemma AcceptKeepsBatch(cfg: Config, s: EngineState, q: Request, player: Uuid, batch: Batch)
    requires player in s.directory.players && BatchHeld(s.directory, batch)
    ensures BatchHeld(Accept(cfg, s, q, player).directory, batch)
  {
  }

  /** The new batch is held afterwards, was not held before, and lists known achievements. */
  lemma NewBatch(cfg: Config, s: EngineState, q: Request, player: Uuid, p: Uuid, a: Uuid)
    requires player in s.directory.players && HotInvariant(cfg, s) && Requestable(cfg, s, q)
    requires a in AwardsOf(Judge(cfg, s, q, player).granted, p)
    ensures p in s.directory.players && a !in s.directory.players[p].awarded
    ensures a in Accept(cfg, s, q, player).directory.players[p].awarded
    ensures a in cfg.achievements
  {
    JudgeGranted(cfg, s, q, player, p);
    AcceptAwards(cfg, s, q, player, p);
    EvaluateAwards(q, q.order, s.directory.players[player].awarded.Keys, player, map[], s.triggers, p);
  }

  lemma NewBatchDisjoint(cfg: Config, s: EngineState, q: Request, player: Uuid, batch: Batch)
    requires player in s.directory.players && HotInvariant(cfg, s) && Requestable(cfg, s, q) && BatchHeld(s.directory, batch)
    ensures BatchesDisjoint(batch, Batch(q.recordedAt, Judge(cfg, s, q, player).granted))
  {
    var o := Judge(cfg, s, q, player);
    forall p, a | p in o.granted && a in o.granted[p]
      ensures p in s.directory.players && a !in s.directory.players[p].awarded
    {
      NewBatch(cfg, s, q, player, p, a);
    }
  }

  lemma NewBatchGood(cfg: Config, s: EngineState, q: Request, player: Uuid)
    requires player in s.directory.players && HotInvariant(cfg, s) && Requestable(cfg, s, q)
    ensures var batch := Batch(q.recordedAt, Judge(cfg, s, q, player).granted);
            BatchHeld(Accept(cfg, s, q, player).directory, batch) && BatchKnown(cfg, batch)
  {
    var o := Judge(cfg, s, q, player);
    forall p, a | p in o.granted && a in o.granted[p]
      ensures a in Accept(cfg, s, q, player).directory.players[p].awarded && a in cfg.achievements
    {
      NewBatch(cfg, s, q, player, p, a);
    }
  }

  lemma AppendDisjoint(batches: seq<Batch>, batch: Batch)
    requires forall i :: 0 <= i < |batches| ==> BatchesDisjoint(batches[i], batch)
    requires forall i, j :: 0 <= i < j < |batches| ==> BatchesDisjoint(batches[i], batches[j])
    ensures var all := batches + [batch]; forall i, j :: 0 <= i < j < |all| ==> BatchesDisjoint(all[i], all[j])
  {
  }

  lemma AcceptKeepsOnce(cfg: Config, s: EngineState, q: Request, player: Uuid)
    requires Invariant(cfg, s) && player in s.directory.players && Requestable(cfg, s, q)
    ensures AwardedOnce(Accept(cfg, s, q, player))
  {
    var batch := Batch(q.recordedAt, Judge(cfg, s, q, player).granted);
    forall i | 0 <= i < |s.batches|
      ensures BatchesDisjoint(s.batches[i], batch)
    {
      NewBatchDisjoint(cfg, s, q, player, s.batches[i]);
    }
    AppendDisjoint(s.batches, batch);
  }

  lemma AcceptKeepsAwards(cfg: Config, s: EngineState, q: Request, player: Uuid)
    requires Invariant(cfg, s) && player in s.directory.players && Requestable(cfg, s, q)
    ensures var s' := Accept(cfg, s, q, player); Remembers(s'.batches, s'.directory) && BatchesKnown(cfg, s'.batches)
  {
    var s' := Accept(cfg, s, q, player);
    NewBatchGood(cfg, s, q, player);
    forall i | 0 <= i < |s'.batches|
      ensures BatchHeld(s'.directory, s'.batches[i]) && BatchKnown(cfg, s'.batches[i])
    {
      if i < |s.batches| { AcceptKeepsBatch(cfg, s, q, player, s.batches[i]); }
    }
  }

  /** New windows come only from fresh evaluated awards of the blooping player. */
  lemma NewOpenings(cfg: Config, s: EngineState, q: Request, player: Uuid)
    requires player in s.directory.players
    ensures var o := Judge(cfg, s, q, player);
            forall h <- o.windows ::
              && h.id in AwardsOf(o.evaluated, player) && h.id !in s.directory.players[player].awarded
              && h.id in AwardsOf(o.granted, player)
              && h.id in cfg.achievements && cfg.achievements[h.id].hotDuration.Some?
              && h == Hot(h.id, q.client, q.recordedAt + cfg.achievements[h.id].hotDuration.value)
  {
    JudgeEvaluated(cfg, s, q, player);
    JudgeGranted(cfg, s, q, player, player);
  }

  lemma SentGrows(batches: seq<Batch>, batch: Batch, p: Uuid, a: Uuid)
    requires Sent(batches, p, a) || a in AwardsOf(batch.awards, p)
    ensures Sent(batches + [batch], p, a)
  {
    var all := batches + [batch];
    if Sent(batches, p, a) {
      var i :| 0 <= i < |batches| && a in AwardsOf(batches[i].awards, p);
      assert a in AwardsOf(all[i].awards, p);
    } else {
      assert a in AwardsOf(all[|batches|].awards, p);
    }
  }

  /** Every window is still listed or over, and its award has been sent. */
  lemma AcceptKeepsOpening(cfg: Config, s: EngineState, q: Request, player: Uuid, x: Opening)
    requires player in s.directory.players && HotInvariant(cfg, s) && Requestable(cfg, s, q)
    requires x in Accept(cfg, s, q, player).openings
    ensures var s' := Accept(cfg, s, q, player);
            (x.hot in s'.hot || x.hot.until < s'.clock) && Sent(s'.batches, x.player, x.hot.id)
  {
    NewOpenings(cfg, s, q, player);
    SentGrows(s.batches, Batch(q.recordedAt, Judge(cfg, s, q, player).granted), x.player, x.hot.id);
  }

  lemma AcceptKeepsListed(cfg: Config, s: EngineState, q: Request, player: Uuid, h: Hot)
    requires player in s.directory.players && HotInvariant(cfg, s) && h in Accept(cfg, s, q, player).hot
    ensures h.id in cfg.achievements && exists x :: x in Accept(cfg, s, q, player).openings && x.hot == h
  {
    var s' := Accept(cfg, s, q, player);
    if h in s.hot {
      var x :| x in s.openings && x.hot == h;
      assert x in s'.openings;
    } else {
      NewOpenings(cfg, s, q, player);
      assert Opening(player, h) in s'.openings;
    }
  }

  /** A new window is for an achievement whose window its player never opened before. */
  lemma NewOpeningUnique(cfg: Config, s: EngineState, q: Request, player: Uuid, x: Opening, h: Hot)
    requires player in s.directory.players && HotInvariant(cfg, s) && Remembers(s.batches, s.directory)
    requires x in s.openings && x.player == player && h in Judge(cfg, s, q, player).windows
    ensures x.hot.id != h.id
  {
    NewOpenings(cfg, s, q, player);
    SentIsHeld(s.batches, s.directory, player, x.hot.id);
  }

  lemma OpeningsAfter(cfg: Config, s: EngineState, q: Request, player: Uuid, x: Opening)
    requires player in s.directory.players
    ensures x in Accept(cfg, s, q, player).openings <==>
            x in s.openings || (x.player == player && x.hot in Judge(cfg, s, q, player).windows)
  {
  }

  /** A player opens each achievement's window at most once. */
  lemma AcceptKeepsUnique(cfg: Config, s: EngineState, q: Request, player: Uuid, x: Opening, y: Opening)
    requires player in s.directory.players && HotInvariant(cfg, s) && Remembers(s.batches, s.directory)
    requires x in Accept(cfg, s, q, player).openings && y in Accept(cfg, s, q, player).openings
    requires x.player == y.player && x.hot.id == y.hot.id
    ensures x == y
  {
    OpeningsAfter(cfg, s, q, player, x);
    OpeningsAfter(cfg, s, q, player, y);
    if x !in s.openings && y !in s.openings {
      NewOpenings(cfg, s, q, player);
    } else if x !in s.openings {
      NewOpeningUnique(cfg, s, q, player, y, x.hot);
    } else if y !in s.openings {
      NewOpeningUnique(cfg, s, q, player, x, y.hot);
    }
  }

  lemma AcceptKeepsHot(cfg: Config, s: EngineState, q: Request, player: Uuid)
    requires player in s.directory.players && HotInvariant(cfg, s) && Remembers(s.batches, s.directory)
    requires Requestable(cfg, s, q)
    ensures HotInvariant(cfg, Accept(cfg, s, q, player))
  {
    var s' := Accept(cfg, s, q, player);
    forall x | x in s'.openings
      ensures x.hot in s'.hot || x.hot.until < s'.clock
      ensures Sent(s'.batches, x.player, x.hot.id)
    {
      AcceptKeepsOpening(cfg, s, q, player, x);
    }
    forall h | h in s'.hot
      ensures h.id in cfg.achievements && exists x :: x in s'.openings && x.hot == h
    {
      AcceptKeepsListed(cfg, s, q, player, h);
    }
    forall x, y | x in s'.openings && y in s'.openings && x.player == y.player && x.hot.id == y.hot.id
      ensures x == y
    {
      AcceptKeepsUnique(cfg, s, q, player, x, y);
    }
  }

  lemma AcceptKeepsHistories(cfg: Config, s: EngineState, q: Request, player: Uuid)
    requires player in s.directory.players && HistoriesInvariant(s) && Requestable(cfg, s, q)
    ensures HistoriesInvariant(Accept(cfg, s, q, player))
  {
    var b := Bloop(player, q.client, q.recordedAt);
    forall c
      ensures Retains(s.histories.Add(b, q.globalNow, q.clientNow), [b] + s.history, q.clientNow, c)
    {
      AddRetains(s.histories, s.history, s.clock, b, q.globalNow, q.clientNow, c);
    }
  }

  /** Time may pass and triggers may change without touching anything else. */
  lemma WaitKeeps(cfg: Config, s: EngineState, now: Instant, triggers: Registry)
    requires Invariant(cfg, s) && s.clock <= now
    ensures Invariant(cfg, s.(clock := now, triggers := triggers))
  {
    forall c
      ensures Retains(s.histories, s.history, now, c)
    {
      LaterRetains(s.histories, s.history, s.clock, now, c);
    }
  }

  /** Even a registry from which players have gone, or into which they have come back. */
  lemma EnvironmentKeeps(cfg: Config, s: EngineState, d: Directory)
    requires Invariant(cfg, s) && Bijective(d) && Remembers(s.batches, d)
    ensures Invariant(cfg, s.(directory := d))
  {
  }

  lemma AcceptKeeps(cfg: Config, s: EngineState, q: Request, player: Uuid)
    requires Invariant(cfg, s) && Requestable(cfg, s, q) && player in s.directory.players
    ensures Invariant(cfg, Accept(cfg, s, q, player))
  {
    AcceptBijective(cfg, s, q, player);
    AcceptKeepsOnce(cfg, s, q, player);
    AcceptKeepsAwards(cfg, s, q, player);
    AcceptKeepsHot(cfg, s, q, player);
    AcceptKeepsHistories(cfg, s, q, player);
  }

  lemma ServeKeeps(cfg: Config, s: EngineState, q: Request)
    requires Invariant(cfg, s) && Requestable(cfg, s, q)
    ensures Invariant(cfg, Handle(cfg, s, q).0)
  {
    if IsAccepted(cfg, s, q) {
      HandleAccepts(cfg, s, q);
      AcceptKeeps(cfg, s, q, s.directory.uids[q.uid]);
    } else {
      HandleRefuses(cfg, s, q);
      WaitKeeps(cfg, s, q.clientNow, s.triggers.Activate(q.uid, q.client, q.triggerNow).0);
    }
  }

  lemma StepKeeps(cfg: Config, s: EngineState, i: Input)
    requires Invariant(cfg, s) && Enabled(cfg, s, i)
    ensures Invariant(cfg, Next(cfg, s, i))
  {
    match i
    case Environment(d) => EnvironmentKeeps(cfg, s, d);
    case Serve(q) => ServeKeeps(cfg, s, q);
  }

  lemma KeepsAt(cfg: Config, states: seq<EngineState>, inputs: seq<Input>, k: nat)
    requires IsRun(cfg, states, inputs) && k < |inputs| && Invariant(cfg, states[k])
    ensures Invariant(cfg, states[k + 1])
  {
    assert StepsAt(cfg, states, inputs, k);
    StepKeeps(cfg, states[k], inputs[k]);
  }

  lemma {:induction false} InvariantInEveryRun(cfg: Config, states: seq<EngineState>, inputs: seq<Input>, k: nat)
    requires IsRun(cfg, states, inputs) && Invariant(cfg, states[0]) && k < |states|
    ensures Invariant(cfg, states[k])
  {
    if k > 0 {
      InvariantInEveryRun(cfg, states, inputs, k - 1);
      KeepsAt(cfg, states, inputs, k - 1);
    }
  }
}
