/** The history evaluators at work in the engine: what is granted in terms of everything that ever happened. */
module EngineEvaluators {
  import opened Types
  import opened Sequences
  import opened Bloops
  import opened Awards
  import opened Evaluators
  import SpellingBee
  import opened EngineModel
  import opened EngineRuns
  import opened EngineGuarantees
  import opened EngineHot

  function Current(q: Request, player: Uuid): Bloop { Bloop(player, q.client, q.recordedAt) }

  /** The player lacks `a`, and it is earned by one who lacks it too or is still hot at the player's client. */
  ghost predicate Gains(s: EngineState, q: Request, player: Uuid, p: Uuid, a: Uuid, earned: bool)
    requires player in s.directory.players
  {
    && p in s.directory.players && a !in s.directory.players[p].awarded
    && ((a !in s.directory.players[player].awarded && earned) || (p == player && HotHere(s, q, a)))
  }

  lemma GainsDecided(cfg: Config, s: EngineState, q: Request, p: Uuid, a: Uuid)
    requires Invariant(cfg, s) && Requestable(cfg, s, q) && IsAccepted(cfg, s, q) && a in q.order && PlanFor(q, a).Conclude?
    ensures var player := s.directory.uids[q.uid];
            a in AwardsOf(Judge(cfg, s, q, player).granted, p) <==>
            Gains(s, q, player, p, a, p in Recipients(PlanFor(q, a).result, player))
  {
    var player := s.directory.uids[q.uid];
    GrantDecided(cfg, s, q, player, p, a);
    PickUpExactly(cfg, s, q, a);
    if Earns(cfg, s, q, player, a) { EarnedDecided(cfg, s, q, player, a); }
  }

  lemma EarnedDecided(cfg: Config, s: EngineState, q: Request, player: Uuid, a: Uuid)
    requires player in s.directory.players && PlanFor(q, a).Conclude? && Earns(cfg, s, q, player, a)
    ensures a !in s.directory.players[player].awarded && player in Recipients(PlanFor(q, a).result, player)
  {
    EvaluateDecides(q, q.order, s.directory.players[player].awarded.Keys, player, map[], s.triggers, player, a);
  }

  /**
   * In every run, a streak achievement whose window lies within the retention is granted exactly
   * when the complete history of the client holds the streak, or by hot pick-up.
   */
  lemma StreakInEveryRun(cfg: Config, states: seq<EngineState>, inputs: seq<Input>, k: nat, p: Uuid, a: Uuid,
                         minRequired: nat, window: Duration, mode: AwardMode, predicate_: Uuid -> bool)
    requires IsRun(cfg, states, inputs) && Invariant(cfg, states[0]) && k < |inputs|
    requires inputs[k].Serve? && IsAccepted(cfg, states[k], inputs[k].request) && window <= states[k].histories.maxAge
    requires var s, q := states[k], inputs[k].request;
             var b := Current(q, s.directory.uids[q.uid]);
             a in q.order && PlanFor(q, a) == Conclude(StreakResult(b, s.histories.ForClient(q.client), minRequired, window, mode, predicate_))
    ensures var s, q := states[k], inputs[k].request;
            var player := s.directory.uids[q.uid];
            var newest := NewestInWindow(Filter(s.history, AtClient(q.client)), Current(q, player), window, minRequired);
            a in AwardsOf(Judge(cfg, s, q, player).granted, p) <==>
            Gains(s, q, player, p, a,
                  && IsStreak(newest, player, minRequired, predicate_)
                  && (p == player || (mode.All? && exists x :: x in newest && x.player == p)))
  {
    var s, q := states[k], inputs[k].request;
    var b := Current(q, s.directory.uids[q.uid]);
    InvariantInEveryRun(cfg, states, inputs, k);
    EnabledAt(cfg, states, inputs, k);
    assert Retains(s.histories, s.history, s.clock, q.client);
    EvaluatorsSeeFullHistory(s.histories, s.history, s.clock, b, window, minRequired);
    StreakRecipients(b, s.histories.ForClient(q.client), minRequired, window, mode, predicate_, p);
    GainsDecided(cfg, s, q, p, a);
  }

  lemma SpellingBeeExact(cfg: Config, s: EngineState, q: Request, a: Uuid,
                         e: SpellingBee.Evaluator, word: string, characters: map<char, ClientId>)
    requires Invariant(cfg, s) && Requestable(cfg, s, q) && IsAccepted(cfg, s, q) && e.maxTime <= s.histories.maxAge
    requires word != "" && SpellingBee.SpelledBy(e.clientIds, word, characters)
    requires a in q.order && PlanFor(q, a) == BeePlan(e, Current(q, s.directory.uids[q.uid]), s.histories.global)
    ensures var player := s.directory.uids[q.uid];
            var own := SpellingBee.OwnRecent(e, Current(q, player), s.history);
            a in AwardsOf(Judge(cfg, s, q, player).granted, player) <==>
            Gains(s, q, player, player, a, SpellingBee.Spells(own, Current(q, player), word, characters))
  {
    var b := Current(q, s.directory.uids[q.uid]);
    GainsDecided(cfg, s, q, b.player, a);
    BeeSeesFullHistory(s.histories, s.history, s.clock, b, e);
    SpellingBee.SpellsWord(e, word, characters, b, s.histories.global);
  }

  function BeePlan(e: SpellingBee.Evaluator, b: Bloop, globalBloops: seq<Bloop>): EvalPlan
    requires e.clientIds != []
  {
    Conclude(if SpellingBee.Evaluate(e, b, globalBloops) then AwardSelf else NoAward)
  }

  lemma BeeSeesFullHistory(h: Histories, history: seq<Bloop>, clock: Instant, b: Bloop, e: SpellingBee.Evaluator)
    requires Retains(h, history, clock, b.client) && clock <= b.at && e.maxTime <= h.maxAge
    ensures SpellingBee.OwnRecent(e, b, h.global) == SpellingBee.OwnRecent(e, b, history)
  {
    EvaluatorsSeeFullHistory(h, history, clock, b, e.maxTime, 0);
  }

  /**
   * In every run, a spelling bee whose time lies within the retention is granted exactly when the
   * player's newest bloops of the complete history and the current one spell the word, or by hot pick-up.
   */
  lemma SpellingBeeInEveryRun(cfg: Config, states: seq<EngineState>, inputs: seq<Input>, k: nat, a: Uuid,
                              e: SpellingBee.Evaluator, word: string, characters: map<char, ClientId>)
    requires IsRun(cfg, states, inputs) && Invariant(cfg, states[0]) && k < |inputs|
    requires inputs[k].Serve? && IsAccepted(cfg, states[k], inputs[k].request) && e.maxTime <= states[k].histories.maxAge
    requires word != "" && SpellingBee.SpelledBy(e.clientIds, word, characters)
    requires var s, q := states[k], inputs[k].request;
             a in q.order && PlanFor(q, a) == BeePlan(e, Current(q, s.directory.uids[q.uid]), s.histories.global)
    ensures var s, q := states[k], inputs[k].request;
            var player := s.directory.uids[q.uid];
            var own := SpellingBee.OwnRecent(e, Current(q, player), s.history);
            a in AwardsOf(Judge(cfg, s, q, player).granted, player) <==>
            Gains(s, q, player, player, a, SpellingBee.Spells(own, Current(q, player), word, characters))
  {
    InvariantInEveryRun(cfg, states, inputs, k);
    EnabledAt(cfg, states, inputs, k);
    SpellingBeeExact(cfg, states[k], inputs[k].request, a, e, word, characters);
  }
}
