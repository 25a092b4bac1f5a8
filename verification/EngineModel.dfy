/**
 * The engine as a state machine: what one bloop request does to the histories, the players,
 * the triggers and the hot achievements. The state also records what has happened so far, so
 * that guarantees over whole runs are invariants of it.
 */
module EngineModel {
  import opened Types
  import opened Sequences
  import opened Bloops
  import opened Players
  import opened Triggers
  import opened Awards

  datatype Throttle = Throttle(maxBloops: nat, threshold: Duration)

  datatype Achievement = Achievement(hotDuration: Option<Duration>, audioHash: Option<nat>)

  datatype Config = Config(achievements: map<Uuid, Achievement>, throttle: Option<Throttle>)

  /** An achievement that anyone blooping at `client` until `until` picks up. */
  datatype Hot = Hot(id: Uuid, client: ClientId, until: Instant)

  /** A hot window together with the player whose award opened it. */
  datatype Opening = Opening(player: Uuid, hot: Hot)

  datatype Batch = Batch(awardedAt: Instant, awards: AwardMap)

  datatype EngineState = EngineState(
    histories: Histories,
    directory: Directory,
    triggers: Registry,
    hot: set<Hot>,
    // what has happened so far
    clock: Instant,            // latest clock reading
    history: seq<Bloop>,       // every bloop ever accepted, newest first, never pruned
    openings: set<Opening>,    // every hot window ever opened
    batches: seq<Batch>,       // every award batch sent
    processed: seq<Bloop>      // every BloopProcessed event sent
  )

  /**
   * A bloop request with the environment's choices: the clock readings made while serving it
   * (unused ones may repeat the last used), the order in which the achievement map is visited,
   * and what each evaluator does.
   */
  datatype Request = Request(
    uid: NfcUid, client: ClientId,
    triggerNow: Instant, throttleNow: Instant, recordedAt: Instant, globalNow: Instant, clientNow: Instant,
    order: seq<Uuid>, plans: map<Uuid, EvalPlan>)

  datatype Response = Accepted(achievements: set<Uuid>) | UnknownNfcUid | NfcUidThrottled

  // ----- The parts of serving a bloop -------------------------------------------

  predicate Throttles(t: Throttle, clientHistory: seq<Bloop>, player: Uuid, now: Instant) {
    var recent := Take(Filter(clientHistory, Since(now - t.threshold)), t.maxBloops);
    (forall b <- recent :: b.player == player) && |recent| == t.maxBloops
  }

  function PlanFor(q: Request, achievement: Uuid): EvalPlan {
    if achievement in q.plans then q.plans[achievement] else Conclude(NoAward)
  }

  /** Evaluates the achievements in `order`, skipping those the player already holds. */
  function Evaluate(q: Request, order: seq<Uuid>, held: set<Uuid>, player: Uuid, m: AwardMap, triggers: Registry): (AwardMap, Registry)
    decreases |order|
  {
    if order == [] then (m, triggers)
    else if order[0] in held then Evaluate(q, order[1..], held, player, m, triggers)
    else
      var (result, after) := RunPlan(PlanFor(q, order[0]), triggers, q.client, q.recordedAt);
      Evaluate(q, order[1..], held, player, AddAwards(m, order[0], Recipients(result, player)), after)
  }

  /** The hot windows opened by the current player's evaluated awards. */
  function Opened(cfg: Config, evaluated: set<Uuid>, b: Bloop): set<Hot> {
    set a | a in evaluated && a in cfg.achievements && cfg.achievements[a].hotDuration.Some? ::
      Hot(a, b.client, b.at + cfg.achievements[a].hotDuration.value)
  }

  function StillHot(hot: set<Hot>, b: Bloop): set<Hot> { set h | h in hot && h.until >= b.at }

  function PickedUp(hot: set<Hot>, b: Bloop): set<Uuid> {
    set h | h in hot && h.client == b.client && h.until >= b.at :: h.id
  }

  function Incremented(p: PlayerData): PlayerData { p.(totalBloops := p.totalBloops + 1) }

  function WithAwards(p: PlayerData, achievements: set<Uuid>, at: Instant): PlayerData {
    p.(awarded := p.awarded + map a | a in achievements :: at)
  }

  function Granted(players: map<Uuid, PlayerData>, awards: AwardMap, at: Instant): map<Uuid, PlayerData> {
    map p | p in players :: WithAwards(players[p], AwardsOf(awards, p), at)
  }

  // ----- One request ---------------------------------------------------------------

  /** Everything an accepted bloop determines. */
  datatype Outcome = Outcome(
    bloop: Bloop,
    players: map<Uuid, PlayerData>,  // after the bloop counter went up
    evaluated: AwardMap,             // awards the evaluators decided on
    triggers: Registry,              // after the evaluators' checks
    windows: set<Hot>,               // windows opened by the current player's evaluated awards
    pickedUp: set<Uuid>,             // hot achievements injected for the current player
    granted: AwardMap)               // what remains after removing duplicates

  /** What evaluation and hot achievements yield for the current player, before duplicates go. */
  datatype Collected = Collected(evaluated: AwardMap, triggers: Registry, windows: set<Hot>, pickedUp: set<Uuid>, all: AwardMap)

  function Collect(cfg: Config, q: Request, player: PlayerData, hot: set<Hot>, triggers: Registry): Collected {
    var b := Bloop(player.id, q.client, q.recordedAt);
    var (evaluated, after) := Evaluate(q, q.order, player.awarded.Keys, player.id, map[], triggers);
    var windows := Opened(cfg, AwardsOf(evaluated, player.id), b);
    var pickedUp := PickedUp(hot + windows, b);
    Collected(evaluated, after, windows, pickedUp, evaluated[player.id := AwardsOf(evaluated, player.id) + pickedUp])
  }

  function Judge(cfg: Config, s: EngineState, q: Request, player: Uuid): Outcome
    requires player in s.directory.players
  {
    var data := Incremented(s.directory.players[player]).(id := player);
    var players := s.directory.players[player := Incremented(s.directory.players[player])];
    var c := Collect(cfg, q, data, s.hot, s.triggers);
    Outcome(Bloop(player, q.client, q.recordedAt), players, c.evaluated, c.triggers, c.windows, c.pickedUp,
            Deduplicated(c.all, players))
  }

  /** The state after an accepted bloop was judged: awards handed out, bloop recorded. */
  function Commit(s: EngineState, q: Request, o: Outcome): EngineState {
    EngineState(
      s.histories.Add(o.bloop, q.globalNow, q.clientNow),
      s.directory.(players := Granted(o.players, o.granted, o.bloop.at)),
      o.triggers,
      StillHot(s.hot + o.windows, o.bloop),
      q.clientNow,
      [o.bloop] + s.history,
      s.openings + set h | h in o.windows :: Opening(o.bloop.player, h),
      s.batches + [Batch(o.bloop.at, o.granted)],
      s.processed + [o.bloop])
  }

  function Accept(cfg: Config, s: EngineState, q: Request, player: Uuid): EngineState
    requires player in s.directory.players
  {
    Commit(s, q, Judge(cfg, s, q, player))
  }

  predicate Rejects(cfg: Config, s: EngineState, q: Request, player: Uuid) {
    cfg.throttle.Some? && Throttles(cfg.throttle.value, s.histories.ForClient(q.client), player, q.throttleNow)
  }

  /** The player the request is about, when it is neither a trigger tag nor unknown. */
  function Served(s: EngineState, q: Request): Option<Uuid> {
    if q.uid in s.triggers.specs || q.uid !in s.directory.uids then None else Some(s.directory.uids[q.uid])
  }

  predicate IsAccepted(cfg: Config, s: EngineState, q: Request) {
    Served(s, q).Some? && Served(s, q).value in s.directory.players && !Rejects(cfg, s, q, Served(s, q).value)
  }

  function Handle(cfg: Config, s: EngineState, q: Request): (EngineState, Response)
    requires Bijective(s.directory)
  {
    var waited := s.(clock := q.clientNow);
    var (triggers, activated) := s.triggers.Activate(q.uid, q.client, q.triggerNow);
    if activated then (waited.(triggers := triggers), Accepted({}))
    else if q.uid !in s.directory.uids then (waited, UnknownNfcUid)
    else
      var player := s.directory.uids[q.uid];
      if Rejects(cfg, s, q, player) then (waited, NfcUidThrottled)
      else
        (Accept(cfg, s, q, player), Accepted(AwardsOf(Judge(cfg, s, q, player).granted, player)))
  }

  lemma HandleAccepts(cfg: Config, s: EngineState, q: Request)
    requires Bijective(s.directory) && IsAccepted(cfg, s, q)
    ensures var player := s.directory.uids[q.uid];
            var o := Judge(cfg, s, q, player);
            Handle(cfg, s, q) == (Commit(s, q, o), Accepted(AwardsOf(o.granted, player)))
  {
  }

  lemma HandleRefuses(cfg: Config, s: EngineState, q: Request)
    requires Bijective(s.directory) && !IsAccepted(cfg, s, q)
    ensures Handle(cfg, s, q) ==
            (s.(clock := q.clientNow, triggers := s.triggers.Activate(q.uid, q.client, q.triggerNow).0),
             if q.uid in s.triggers.specs then Accepted({})
             else if q.uid !in s.directory.uids then UnknownNfcUid else NfcUidThrottled)
  {
  }

  // ----- Runs ------------------------------------------------------------------------

  /** A request, or a change the application makes to the shared player registry in between. */
  datatype Input = Serve(request: Request) | Environment(directory: Directory)

  /** Every player still present holds each award that was ever sent for it. */
  ghost predicate Remembers(batches: seq<Batch>, d: Directory) {
    forall i :: 0 <= i < |batches| ==> BatchHeld(d, batches[i])
  }

  ghost predicate BatchHeld(d: Directory, batch: Batch) {
    forall p, a :: p in batch.awards && a in batch.awards[p] && p in d.players ==> a in d.players[p].awarded
  }

  /** Clock readings never go back, and evaluation visits known achievements. */
  ghost predicate Requestable(cfg: Config, s: EngineState, q: Request) {
    && s.clock <= q.triggerNow <= q.throttleNow <= q.recordedAt <= q.globalNow <= q.clientNow
    && forall a <- q.order :: a in cfg.achievements
  }

  /**
   * Between requests the application may add, remove and change players as it likes, as long as
   * the registry stays consistent and no present player loses an award that was sent.
   */
  ghost predicate Enabled(cfg: Config, s: EngineState, i: Input) {
    match i
    case Serve(q) => Requestable(cfg, s, q)
    case Environment(d) => Bijective(d) && Remembers(s.batches, d)
  }

  function Next(cfg: Config, s: EngineState, i: Input): EngineState
    requires Bijective(s.directory)
  {
    match i
    case Serve(q) => Handle(cfg, s, q).0
    case Environment(d) => s.(directory := d)
  }

  /** The `k`-th input is permitted and leads from the `k`-th state to the next. */
  ghost predicate StepsAt(cfg: Config, states: seq<EngineState>, inputs: seq<Input>, k: nat)
    requires k < |inputs| && |states| == |inputs| + 1
  {
    && Bijective(states[k].directory) && Enabled(cfg, states[k], inputs[k])
    && states[k + 1] == Next(cfg, states[k], inputs[k])
  }

  /** The states after each input of a run, in order. */
  ghost predicate IsRun(cfg: Config, states: seq<EngineState>, inputs: seq<Input>) {
    |states| == |inputs| + 1 && forall k :: 0 <= k < |inputs| ==> StepsAt(cfg, states, inputs, k)
  }

  /** The engine as built: stored bloops, a consistent registry, nothing awarded or hot yet. */
  ghost predicate Start(cfg: Config, s: EngineState, maxAge: Duration, stored: seq<Bloop>) {
    && Initial(s.histories, maxAge, stored)
    && s.history == StableSort.Sort(stored, NewestFirst())
    && Bijective(s.directory)
    && s.hot == {} && s.openings == {} && s.batches == [] && s.processed == []
  }
}
