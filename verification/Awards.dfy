/**
 * Evaluation results and the tracker that collects one evaluation cycle's awards.
 *
 * An evaluator may inspect its context in any way and ask the trigger registry questions, each
 * depending on earlier answers. What it does for one bloop is an arbitrary finite decision tree.
 */
module Awards {
  import opened Types
  import opened Players
  import opened Triggers

  datatype EvalResult = AwardSelf | AwardMultiple(players: seq<Uuid>) | NoAward

  datatype EvalPlan = Conclude(result: EvalResult)
                    | Ask(trigger: Trigger, ifActive: EvalPlan, otherwise: EvalPlan)

  /** Follows an evaluator's decisions; the checks consume triggers as they go. */
  function RunPlan(plan: EvalPlan, triggers: Registry, client: ClientId, at: Instant): (EvalResult, Registry) {
    match plan
    case Conclude(result) => (result, triggers)
    case Ask(trigger, ifActive, otherwise) =>
      var (after, active) := triggers.CheckActive(trigger, client, at);
      RunPlan(if active then ifActive else otherwise, after, client, at)
  }

  /** An evaluator that asks for one trigger follows its answer. */
  lemma AskFollowsAnswer(trigger: Trigger, yes: EvalResult, no: EvalResult, triggers: Registry, client: ClientId, at: Instant)
    ensures RunPlan(Ask(trigger, Conclude(yes), Conclude(no)), triggers, client, at).0 ==
            if Answers(triggers, Check(trigger, client, at)) then yes else no
  {
    GrantedExactly(triggers, Check(trigger, client, at));
  }

  /** Every check is made at this client for this time. */
  ghost predicate ChecksAt(checks: seq<Event>, client: ClientId, at: Instant) {
    forall e <- checks :: e.Check? && e.client == client && e.reference == at
  }

  /** Whatever an evaluator decides, it touches the triggers by checks at the bloop's client and time only. */
  lemma {:induction false} PlanOnlyChecks(plan: EvalPlan, triggers: Registry, client: ClientId, at: Instant) returns (checks: seq<Event>)
    ensures ChecksAt(checks, client, at) && RunPlan(plan, triggers, client, at).1 == After(triggers, checks)
  {
    match plan
    case Conclude(_) =>
      checks := [];
    case Ask(trigger, ifActive, otherwise) =>
      var (after, active) := triggers.CheckActive(trigger, client, at);
      var rest := PlanOnlyChecks(if active then ifActive else otherwise, after, client, at);
      checks := [Check(trigger, client, at)] + rest;
      assert checks[1..] == rest;
  }

  /** Achievement ids by player id. */
  type AwardMap = map<Uuid, set<Uuid>>

  function AwardsOf(m: AwardMap, player: Uuid): set<Uuid> {
    if player in m then m[player] else {}
  }

  function AddAward(m: AwardMap, achievement: Uuid, player: Uuid): AwardMap {
    m[player := AwardsOf(m, player) + {achievement}]
  }

  function AddAwards(m: AwardMap, achievement: Uuid, players: seq<Uuid>): AwardMap
    decreases |players|
  {
    if players == [] then m else AddAwards(AddAward(m, achievement, players[0]), achievement, players[1..])
  }

  function Recipients(result: EvalResult, self: Uuid): seq<Uuid> {
    match result
    case AwardSelf => [self]
    case AwardMultiple(players) => players
    case NoAward => []
  }

  lemma {:induction false} AddAwardsMembers(m: AwardMap, achievement: Uuid, players: seq<Uuid>, p: Uuid)
    ensures AwardsOf(AddAwards(m, achievement, players), p) ==
            AwardsOf(m, p) + if p in players then {achievement} else {}
    decreases |players|
  {
    if players != [] {
      AddAwardsMembers(AddAward(m, achievement, players[0]), achievement, players[1..], p);
      assert p in players <==> p == players[0] || p in players[1..];
    }
  }

  /** Awards not yet held, for players that exist; players left with nothing disappear. */
  function Deduplicated(m: AwardMap, players: map<Uuid, PlayerData>): AwardMap {
    map p | p in m && p in players && m[p] - players[p].awarded.Keys != {} :: m[p] - players[p].awarded.Keys
  }

  lemma DeduplicatedMembers(m: AwardMap, players: map<Uuid, PlayerData>, p: Uuid)
    ensures AwardsOf(Deduplicated(m, players), p) ==
            if p in players then AwardsOf(m, p) - players[p].awarded.Keys else {}
  {
  }

  class AwardedTracker {
    const awardedAt: Instant
    var awarded: AwardMap

    constructor (awardedAt: Instant)
      ensures this.awardedAt == awardedAt && awarded == map[]
    {
      this.awardedAt := awardedAt;
      awarded := map[];
    }

    method Add(achievement: Uuid, player: Uuid)
      modifies this
      ensures awarded == AddAward(old(awarded), achievement, player)
    {
      if player !in awarded {
        awarded := awarded[player := {}];
      }
      awarded := awarded[player := awarded[player] + {achievement}];
      assert awarded == AddAward(old(awarded), achievement, player);
    }

    /** `Achievement::evaluate`: run the evaluator and record what it awards. */
    method Record(achievement: Uuid, result: EvalResult, self: Uuid)
      modifies this
      ensures awarded == AddAwards(old(awarded), achievement, Recipients(result, self))
    {
      match result {
        case AwardSelf =>
          Add(achievement, self);
          assert Recipients(result, self)[1..] == [];
        case AwardMultiple(players) =>
          for i := 0 to |players|
            invariant AddAwards(awarded, achievement, players[i..]) == AddAwards(old(awarded), achievement, players)
          {
            Add(achievement, players[i]);
            assert players[i..][1..] == players[i + 1..];
          }
        case NoAward =>
      }
    }

    method RemoveDuplicates(registry: PlayerRegistry)
      modifies this
      ensures awarded == Deduplicated(old(awarded), old(registry.View().players))
    {
      var kept: AwardMap := map[];
      var pending := awarded.Keys;
      ghost var target := Deduplicated(awarded, registry.View().players);
      while pending != {}
        invariant pending <= awarded.Keys && awarded == old(awarded)
        invariant kept.Keys == target.Keys - pending
        invariant forall p :: p in kept ==> kept[p] == target[p]
      {
        var p :| p in pending;
        pending := pending - {p};
        if p in registry.byId {
          var held := registry.byId[p].data.awarded;
          var remaining := awarded[p] - held.Keys;
          if remaining != {} {
            kept := kept[p := remaining];
          }
        }
      }
      awarded := kept;
    }
  }
}
