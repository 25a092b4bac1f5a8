/** Hot achievements over runs: who can pick up what, where and until when. */
module EngineHot {
  import opened Types
  import opened Bloops
  import opened Players
  import opened Awards
  import opened EngineModel
  import opened EngineRuns
  import opened EngineGuarantees

  /** For how long the achievement stays hot, if at all. */
  function HotFor(cfg: Config, a: Uuid): Option<Duration> {
    if a in cfg.achievements then cfg.achievements[a].hotDuration else None
  }

  /** The request is accepted and an evaluator awards `a` to the player `p` that blooped. */
  ghost predicate Earns(cfg: Config, s: EngineState, q: Request, p: Uuid, a: Uuid) {
    IsAccepted(cfg, s, q) && p == s.directory.uids[q.uid] && a in AwardsOf(Judge(cfg, s, q, p).evaluated, p)
  }

  /** The window that this request opens: for an earned achievement with a hot duration, at its client, from its time on. */
  ghost predicate Opens(cfg: Config, s: EngineState, q: Request, x: Opening) {
    && Earns(cfg, s, q, x.player, x.hot.id) && HotFor(cfg, x.hot.id).Some?
    && x.hot.client == q.client && x.hot.until == q.recordedAt + HotFor(cfg, x.hot.id).value
  }

  lemma WindowsExactly(cfg: Config, s: EngineState, q: Request, x: Opening)
    requires IsAccepted(cfg, s, q) && x.player == s.directory.uids[q.uid]
    ensures x.hot in Judge(cfg, s, q, x.player).windows <==> Opens(cfg, s, q, x)
  {
  }

  /** A request opens exactly the windows of what its player earns, and closes none on record. */
  lemma OpenedExactly(cfg: Config, s: EngineState, q: Request, x: Opening)
    requires Bijective(s.directory)
    ensures x in Handle(cfg, s, q).0.openings <==> x in s.openings || Opens(cfg, s, q, x)
  {
    if IsAccepted(cfg, s, q) {
      var player := s.directory.uids[q.uid];
      HandleAccepts(cfg, s, q);
      OpeningsAfter(cfg, s, q, player, x);
      if x.player == player { WindowsExactly(cfg, s, q, x); }
    } else {
      HandleRefuses(cfg, s, q);
    }
  }

  /** Some window for `a`, ever opened at this client, has not ended yet. */
  ghost predicate HotHere(s: EngineState, q: Request, a: Uuid) {
    exists x :: x in s.openings && x.hot.id == a && x.hot.client == q.client && x.hot.until >= q.recordedAt
  }

  /**
   * The blooping player picks up exactly what is still hot at its own client, from any window ever
   * opened there, and what it has just earned itself with a hot duration.
   */
  lemma PickUpExactly(cfg: Config, s: EngineState, q: Request, a: Uuid)
    requires Invariant(cfg, s) && Requestable(cfg, s, q) && IsAccepted(cfg, s, q)
    ensures var player := s.directory.uids[q.uid];
            a in Judge(cfg, s, q, player).pickedUp <==>
            HotHere(s, q, a) || (Earns(cfg, s, q, player, a) && HotFor(cfg, a).Some?)
  {
    var player := s.directory.uids[q.uid];
    var o := Judge(cfg, s, q, player);
    if a in o.pickedUp {
      var h :| h in s.hot + o.windows && h.client == q.client && h.until >= q.recordedAt && h.id == a;
      if h in o.windows {
        WindowsExactly(cfg, s, q, Opening(player, h));
      } else {
        var x :| x in s.openings && x.hot == h;
      }
    }
    if HotHere(s, q, a) {
      var x :| x in s.openings && x.hot.id == a && x.hot.client == q.client && x.hot.until >= q.recordedAt;
      assert x.hot in s.hot;
    }
    if Earns(cfg, s, q, player, a) && HotFor(cfg, a).Some? {
      var h := Hot(a, q.client, q.recordedAt + HotFor(cfg, a).value);
      WindowsExactly(cfg, s, q, Opening(player, h));
      assert h in o.windows;
    }
  }

  // ----- Over runs ---------------------------------------------------------------------------

  ghost predicate OpenedAt(cfg: Config, states: seq<EngineState>, inputs: seq<Input>, j: nat, x: Opening)
    requires j < |inputs| <= |states|
  {
    inputs[j].Serve? && Opens(cfg, states[j], inputs[j].request, x)
  }

  lemma OpeningsStep(cfg: Config, states: seq<EngineState>, inputs: seq<Input>, k: nat, x: Opening)
    requires IsRun(cfg, states, inputs) && k < |inputs|
    ensures x in states[k + 1].openings <==> x in states[k].openings || OpenedAt(cfg, states, inputs, k, x)
  {
    assert StepsAt(cfg, states, inputs, k);
    if inputs[k].Serve? { OpenedExactly(cfg, states[k], inputs[k].request, x); }
  }

  /** The windows on record are exactly those opened by the requests so far. */
  lemma {:induction false} OpeningsInEveryRun(cfg: Config, states: seq<EngineState>, inputs: seq<Input>, k: nat, x: Opening)
    requires IsRun(cfg, states, inputs) && states[0].openings == {} && k < |states|
    ensures x in states[k].openings <==> exists j :: 0 <= j < k && OpenedAt(cfg, states, inputs, j, x)
  {
    if k > 0 {
      OpeningsInEveryRun(cfg, states, inputs, k - 1, x);
      OpeningsStep(cfg, states, inputs, k - 1, x);
    }
  }

  /** At step `j` a player earned `a` at the client of step `k`, at most its hot duration before. */
  ghost predicate EarnedRecently(cfg: Config, states: seq<EngineState>, inputs: seq<Input>, j: nat, k: nat, p: Uuid, a: Uuid)
    requires j < |inputs| <= |states| && k < |inputs| && inputs[k].Serve?
  {
    && inputs[j].Serve? && Earns(cfg, states[j], inputs[j].request, p, a)
    && inputs[j].request.client == inputs[k].request.client
    && HotFor(cfg, a).Some? && inputs[k].request.recordedAt <= inputs[j].request.recordedAt + HotFor(cfg, a).value
  }

  /**
   * In every run a bloop picks up an achievement if and only if somebody earned it at the same
   * client, by this or an earlier request, at most its hot duration ago.
   */
  lemma PickUpInEveryRun(cfg: Config, states: seq<EngineState>, inputs: seq<Input>, k: nat, a: Uuid)
    requires IsRun(cfg, states, inputs) && Invariant(cfg, states[0]) && states[0].openings == {}
    requires k < |inputs| && inputs[k].Serve? && IsAccepted(cfg, states[k], inputs[k].request)
    ensures var player := states[k].directory.uids[inputs[k].request.uid];
            a in Judge(cfg, states[k], inputs[k].request, player).pickedUp <==>
            exists j, p :: 0 <= j <= k && EarnedRecently(cfg, states, inputs, j, k, p, a)
  {
    InvariantInEveryRun(cfg, states, inputs, k);
    EnabledAt(cfg, states, inputs, k);
    PickUpExactly(cfg, states[k], inputs[k].request, a);
    HotHereInRun(cfg, states, inputs, k, a);
    var player := states[k].directory.uids[inputs[k].request.uid];
    if Earns(cfg, states[k], inputs[k].request, player, a) && HotFor(cfg, a).Some? {
      assert EarnedRecently(cfg, states, inputs, k, k, player, a);
    }
  }

  lemma HotHereInRun(cfg: Config, states: seq<EngineState>, inputs: seq<Input>, k: nat, a: Uuid)
    requires IsRun(cfg, states, inputs) && states[0].openings == {} && k < |inputs| && inputs[k].Serve?
    ensures HotHere(states[k], inputs[k].request, a) <==>
            exists j, p :: 0 <= j < k && EarnedRecently(cfg, states, inputs, j, k, p, a)
  {
    var q := inputs[k].request;
    if HotHere(states[k], q, a) {
      var x :| x in states[k].openings && x.hot.id == a && x.hot.client == q.client && x.hot.until >= q.recordedAt;
      OpeningsInEveryRun(cfg, states, inputs, k, x);
      var j :| 0 <= j < k && OpenedAt(cfg, states, inputs, j, x);
      assert EarnedRecently(cfg, states, inputs, j, k, x.player, a);
    }
    if j, p :| 0 <= j < k && EarnedRecently(cfg, states, inputs, j, k, p, a) {
      var x := Opening(p, Hot(a, q.client, inputs[j].request.recordedAt + HotFor(cfg, a).value));
      assert OpenedAt(cfg, states, inputs, j, x);
      OpeningsInEveryRun(cfg, states, inputs, k, x);
    }
  }
}
