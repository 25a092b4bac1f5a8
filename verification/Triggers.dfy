/**
 * Triggers activated by NFC tags: usage budgets, expiry, and the precedence of a client's
 * local trigger over the global one.
 */
module Triggers {
  import opened Types

  type Trigger = nat

  datatype Occurrence = Once | Times(times: nat) | Lasting(duration: Duration)

  datatype TriggerSpec = TriggerSpec(isGlobal: bool, occurrence: Occurrence, trigger: Trigger)

  /** What a check answers, whether the trigger stays registered, and its usage count afterwards. */
  datatype CheckResult = CheckResult(active: bool, retain: bool, after: ActiveTrigger)

  datatype ActiveTrigger = ActiveTrigger(spec: TriggerSpec, triggeredAt: Instant, usages: nat) {
    function Check(trigger: Trigger, reference: Instant): CheckResult {
      if trigger != spec.trigger then CheckResult(false, true, this)
      else match spec.occurrence
        case Once => CheckResult(true, false, this)
        case Times(times) => CheckResult(usages < times, usages + 1 < times, this.(usages := usages + 1))
        case Lasting(duration) =>
          var stillActive := triggeredAt + duration >= reference;
          CheckResult(stillActive, stillActive, this)
    }
  }

  datatype Registry = Registry(specs: map<NfcUid, TriggerSpec>, local: map<ClientId, ActiveTrigger>, global: Option<ActiveTrigger>) {

    function Activate(uid: NfcUid, client: ClientId, now: Instant): (Registry, bool) {
      if uid !in specs then (this, false)
      else
        var active := ActiveTrigger(specs[uid], now, 0);
        if specs[uid].isGlobal then (this.(global := Some(active)), true)
        else (this.(local := local[client := active]), true)
    }

    function CheckActive(trigger: Trigger, client: ClientId, reference: Instant): (Registry, bool) {
      if client in local then
        var result := local[client].Check(trigger, reference);
        (this.(local := if result.retain then local[client := result.after] else local - {client}), result.active)
      else match global
        case None => (this, false)
        case Some(active) =>
          var result := active.Check(trigger, reference);
          (this.(global := if result.retain then Some(result.after) else None), result.active)
    }
  }

  /** The registry as the engine holds it. */
  class TriggerRegistry {
    const specs: map<NfcUid, TriggerSpec>
    var activeLocal: map<ClientId, ActiveTrigger>
    var activeGlobal: Option<ActiveTrigger>

    function View(): Registry
      reads this
    {
      Registry(specs, activeLocal, activeGlobal)
    }

    constructor (specs: map<NfcUid, TriggerSpec>)
      ensures View() == Registry(specs, map[], None)
    {
      this.specs := specs;
      activeLocal := map[];
      activeGlobal := None;
    }

    method CheckActiveTrigger(trigger: Trigger, client: ClientId, reference: Instant) returns (active: bool)
      modifies this
      ensures (View(), active) == old(View()).CheckActive(trigger, client, reference)
    {
      if client in activeLocal {
        var result := activeLocal[client].Check(trigger, reference);
        activeLocal := activeLocal[client := result.after];
        if !result.retain {
          activeLocal := activeLocal - {client};
          assert activeLocal == old(activeLocal) - {client};
        }
        return result.active;
      }
      var taken := activeGlobal;
      activeGlobal := None;
      match taken {
        case None =>
          active := false;
        case Some(global) =>
          var result := global.Check(trigger, reference);
          if result.retain {
            activeGlobal := Some(result.after);
          }
          active := result.active;
      }
    }

    method TryActivateTrigger(uid: NfcUid, client: ClientId, now: Instant) returns (activated: bool)
      modifies this
      ensures (View(), activated) == old(View()).Activate(uid, client, now)
    {
      if uid !in specs {
        return false;
      }
      var spec := specs[uid];
      var active := ActiveTrigger(spec, now, 0);
      if spec.isGlobal {
        activeGlobal := Some(active);
      } else {
        activeLocal := activeLocal[client := active];
      }
      activated := true;
    }
  }

  // ----- Runs ------------------------------------------------------------------

  datatype Event = Activation(uid: NfcUid, client: ClientId, now: Instant)
                 | Check(trigger: Trigger, client: ClientId, reference: Instant)

  /** The places a trigger can be registered in. */
  datatype Slot = Local(client: ClientId) | Global

  function Step(r: Registry, e: Event): (Registry, bool) {
    match e
    case Activation(uid, client, now) => r.Activate(uid, client, now)
    case Check(trigger, client, reference) => r.CheckActive(trigger, client, reference)
  }

  function Held(r: Registry, slot: Slot): Option<ActiveTrigger> {
    match slot
    case Local(c) => if c in r.local then Some(r.local[c]) else None
    case Global => r.global
  }

  /** The check is directed at this slot: a local trigger shields the global one. */
  predicate Reaches(r: Registry, e: Event, slot: Slot) {
    e.Check? && match slot
      case Local(c) => e.client == c
      case Global => e.client !in r.local
  }

  /** The event registers a new trigger in this slot. */
  predicate Replaces(r: Registry, e: Event, slot: Slot) {
    e.Activation? && e.uid in r.specs &&
    slot == if r.specs[e.uid].isGlobal then Global else Local(e.client)
  }

  ghost predicate NeverReplaced(r: Registry, events: seq<Event>, slot: Slot)
    decreases |events|
  {
    events == [] || (!Replaces(r, events[0], slot) && NeverReplaced(Step(r, events[0]).0, events[1..], slot))
  }

  /** One matching check that reached the slot: when, and whether the held trigger granted it. */
  datatype Verdict = Verdict(at: Instant, granted: bool)

  ghost function Verdicts(r: Registry, events: seq<Event>, slot: Slot, trigger: Trigger): seq<Verdict>
    decreases |events|
  {
    if events == [] then []
    else
      var e := events[0];
      var rest := Verdicts(Step(r, e).0, events[1..], slot, trigger);
      if Reaches(r, e, slot) && e.trigger == trigger
      then [Verdict(e.reference, Held(r, slot).Some? && Step(r, e).1)] + rest
      else rest
  }

  /** An event that neither reaches nor replaces a slot leaves its trigger alone. */
  lemma SlotFrame(r: Registry, e: Event, slot: Slot)
    requires !Reaches(r, e, slot) && !Replaces(r, e, slot)
    ensures Held(Step(r, e).0, slot) == Held(r, slot)
  {
  }

  /** A check that reaches an occupied slot is answered by the trigger held there. */
  lemma SlotCheck(r: Registry, e: Event, slot: Slot)
    requires Reaches(r, e, slot) && Held(r, slot).Some?
    ensures var result := Held(r, slot).value.Check(e.trigger, e.reference);
            && Step(r, e).1 == result.active
            && Held(Step(r, e).0, slot) == if result.retain then Some(result.after) else None
  {
  }

  /** The slot a client's checks are directed at. */
  function SlotFor(r: Registry, client: ClientId): Slot { if client in r.local then Local(client) else Global }

  /** The trigger still has something to give at this reference time. */
  predicate Unspent(a: ActiveTrigger, reference: Instant) {
    match a.spec.occurrence
    case Once => true
    case Times(times) => a.usages < times
    case Lasting(duration) => reference <= a.triggeredAt + duration
  }

  /** The slot holds the trigger that is asked for, and that trigger is not spent. */
  predicate Answers(r: Registry, e: Event)
    requires e.Check?
  {
    var held := Held(r, SlotFor(r, e.client));
    held.Some? && held.value.spec.trigger == e.trigger && Unspent(held.value, e.reference)
  }

  /** A check is granted exactly when the slot it reaches holds the very trigger, not yet spent. */
  lemma GrantedExactly(r: Registry, e: Event)
    requires e.Check?
    ensures Step(r, e).1 <==> Answers(r, e)
    ensures forall slot :: Reaches(r, e, slot) && Held(r, slot).Some? ==> slot == SlotFor(r, e.client)
  {
  }

  /** Asking for a trigger that the reached slot does not hold changes nothing. */
  lemma MismatchChangesNothing(r: Registry, e: Event)
    requires e.Check?
    requires var held := Held(r, SlotFor(r, e.client)); held.Some? ==> held.value.spec.trigger != e.trigger
    ensures Step(r, e) == (r, false)
  {
    if e.client in r.local { assert r.local[e.client := r.local[e.client]] == r.local; }
  }

  /** What a matching check leaves in its slot: one use less of a budget, a running duration, or nothing. */
  lemma MatchCharges(r: Registry, e: Event)
    requires e.Check? && Held(r, SlotFor(r, e.client)).Some?
    requires Held(r, SlotFor(r, e.client)).value.spec.trigger == e.trigger
    ensures var slot := SlotFor(r, e.client);
            var a, left := Held(r, slot).value, Held(Step(r, e).0, slot);
            match a.spec.occurrence
            case Once => left == None
            case Times(times) => left == if a.usages + 1 < times then Some(a.(usages := a.usages + 1)) else None
            case Lasting(duration) => left == if e.reference <= a.triggeredAt + duration then Some(a) else None
  {
  }

  /** A known tag puts its unused trigger, stamped with the clock, into its slot; the answer says whether it is known. */
  lemma ActivationSets(r: Registry, e: Event)
    requires e.Activation?
    ensures Step(r, e).1 <==> e.uid in r.specs
    ensures e.uid !in r.specs ==> Step(r, e).0 == r
    ensures e.uid in r.specs ==>
              Held(Step(r, e).0, if r.specs[e.uid].isGlobal then Global else Local(e.client)) ==
              Some(ActiveTrigger(r.specs[e.uid], e.now, 0))
    ensures Step(r, e).0.specs == r.specs
  {
  }

  lemma SlotStaysEmpty(r: Registry, e: Event, slot: Slot)
    requires Held(r, slot).None? && !Replaces(r, e, slot)
    ensures Held(Step(r, e).0, slot).None?
  {
  }

  lemma {:induction false} EmptySlotGrantsNothing(r: Registry, events: seq<Event>, slot: Slot, trigger: Trigger)
    requires Held(r, slot).None? && NeverReplaced(r, events, slot)
    ensures forall v <- Verdicts(r, events, slot, trigger) :: !v.granted
    decreases |events|
  {
    if events != [] {
      SlotStaysEmpty(r, events[0], slot);
      EmptySlotGrantsNothing(Step(r, events[0]).0, events[1..], slot, trigger);
    }
  }

  /** The first `n` verdicts are grants and the others are not. */
  ghost predicate GrantsFirst(verdicts: seq<Verdict>, n: int) {
    verdicts == [] || ((verdicts[0].granted <==> n > 0) && GrantsFirst(verdicts[1..], n - 1))
  }

  lemma {:induction false} GrantsFirstAt(verdicts: seq<Verdict>, n: int, i: nat)
    requires GrantsFirst(verdicts, n) && i < |verdicts|
    ensures verdicts[i].granted <==> i < n
  {
    if i > 0 { GrantsFirstAt(verdicts[1..], n - 1, i - 1); }
  }

  lemma {:induction false} NoGrants(verdicts: seq<Verdict>, n: int)
    requires n <= 0 && forall v <- verdicts :: !v.granted
    ensures GrantsFirst(verdicts, n)
  {
    if verdicts != [] { NoGrants(verdicts[1..], n - 1); }
  }

  /**
   * Until it is replaced, a `Times(n)` trigger grants exactly the first n - usages matching
   * checks that reach it, whatever else happens in between.
   */
  lemma {:induction false} TimesBudget(r: Registry, events: seq<Event>, slot: Slot, a: ActiveTrigger)
    requires Held(r, slot) == Some(a) && a.spec.occurrence.Times? && NeverReplaced(r, events, slot)
    ensures GrantsFirst(Verdicts(r, events, slot, a.spec.trigger), a.spec.occurrence.times - a.usages)
    decreases |events|
  {
    if events != [] {
      var e, r' := events[0], Step(r, events[0]).0;
      if Reaches(r, e, slot) {
        SlotCheck(r, e, slot);
        var result := a.Check(e.trigger, e.reference);
        var rest := Verdicts(r', events[1..], slot, a.spec.trigger);
        if result.retain {
          TimesBudget(r', events[1..], slot, result.after);
        } else {
          EmptySlotGrantsNothing(r', events[1..], slot, a.spec.trigger);
          NoGrants(rest, a.spec.occurrence.times - a.usages - 1);
        }
        if e.trigger == a.spec.trigger {
          assert Verdicts(r, events, slot, a.spec.trigger)[1..] == rest;
        }
      } else {
        SlotFrame(r, e, slot);
        TimesBudget(r', events[1..], slot, a);
      }
    }
  }

  /** Reference times of the matching checks at a slot never go back. */
  ghost predicate TimesAscend(verdicts: seq<Verdict>) {
    forall i, j :: 0 <= i < j < |verdicts| ==> verdicts[i].at <= verdicts[j].at
  }

  /** Until it is replaced, a duration trigger grants exactly the checks within its duration. */
  lemma {:induction false} DurationExpires(r: Registry, events: seq<Event>, slot: Slot, a: ActiveTrigger)
    requires Held(r, slot) == Some(a) && a.spec.occurrence.Lasting? && NeverReplaced(r, events, slot)
    requires TimesAscend(Verdicts(r, events, slot, a.spec.trigger))
    ensures forall v <- Verdicts(r, events, slot, a.spec.trigger) ::
              v.granted <==> v.at <= a.triggeredAt + a.spec.occurrence.duration
    decreases |events|
  {
    if events != [] {
      var e, r' := events[0], Step(r, events[0]).0;
      var verdicts, rest := Verdicts(r, events, slot, a.spec.trigger), Verdicts(r', events[1..], slot, a.spec.trigger);
      if Reaches(r, e, slot) {
        SlotCheck(r, e, slot);
        assert e.trigger == a.spec.trigger ==> rest == verdicts[1..];
        if a.Check(e.trigger, e.reference).retain {
          DurationExpires(r', events[1..], slot, a);
        } else {
          EmptySlotGrantsNothing(r', events[1..], slot, a.spec.trigger);
          assert forall v <- rest :: verdicts[0].at <= v.at;
        }
      } else {
        SlotFrame(r, e, slot);
        DurationExpires(r', events[1..], slot, a);
      }
    }
  }

  /** Over a whole tenure: a fresh `Times(n)` activation grants exactly its first n matching checks. */
  lemma FreshActivationBudget(r: Registry, uid: NfcUid, client: ClientId, now: Instant, events: seq<Event>)
    requires uid in r.specs && r.specs[uid].occurrence.Times?
    requires var slot := if r.specs[uid].isGlobal then Global else Local(client);
             NeverReplaced(Step(r, Activation(uid, client, now)).0, events, slot)
    ensures var slot := if r.specs[uid].isGlobal then Global else Local(client);
            var verdicts := Verdicts(Step(r, Activation(uid, client, now)).0, events, slot, r.specs[uid].trigger);
            forall i :: 0 <= i < |verdicts| ==> (verdicts[i].granted <==> i < r.specs[uid].occurrence.times)
  {
    var slot := if r.specs[uid].isGlobal then Global else Local(client);
    var r', times := Step(r, Activation(uid, client, now)).0, r.specs[uid].occurrence.times;
    TimesBudget(r', events, slot, ActiveTrigger(r.specs[uid], now, 0));
    var verdicts := Verdicts(r', events, slot, r.specs[uid].trigger);
    forall i | 0 <= i < |verdicts|
      ensures verdicts[i].granted <==> i < times
    {
      GrantsFirstAt(verdicts, times, i);
    }
  }

  ghost function After(r: Registry, events: seq<Event>): Registry
    decreases |events|
  {
    if events == [] then r else After(Step(r, events[0]).0, events[1..])
  }

  /** Every check in the run comes from a client that holds a local trigger at that moment. */
  ghost predicate ChecksShielded(r: Registry, events: seq<Event>)
    decreases |events|
  {
    events == [] ||
    ((events[0].Check? ==> events[0].client in r.local) && ChecksShielded(Step(r, events[0]).0, events[1..]))
  }

  /** Clients holding a local trigger never consume the global one, matching or not. */
  lemma {:induction false} LocalShieldsGlobal(r: Registry, events: seq<Event>)
    requires ChecksShielded(r, events) && NeverReplaced(r, events, Global)
    ensures After(r, events).global == r.global
    decreases |events|
  {
    if events != [] {
      SlotFrame(r, events[0], Global);
      LocalShieldsGlobal(Step(r, events[0]).0, events[1..]);
    }
  }

  // ----- Every grant goes back to an activation ----------------------------------------

  lemma {:induction false} AfterSnoc(r: Registry, events: seq<Event>, e: Event)
    ensures After(r, events + [e]) == Step(After(r, events), e).0
    decreases |events|
  {
    if events == [] {
      assert (events + [e])[1..] == [];
    } else {
      assert (events + [e])[1..] == events[1..] + [e];
      AfterSnoc(Step(r, events[0]).0, events[1..], e);
    }
  }

  /** The registry before the `k`-th event. */
  ghost function Before(r: Registry, events: seq<Event>, k: nat): Registry
    requires k <= |events|
  {
    After(r, events[..k])
  }

  lemma BeforeNext(r: Registry, events: seq<Event>, k: nat)
    requires k < |events|
    ensures Before(r, events, k + 1) == Step(Before(r, events, k), events[k]).0
  {
    assert events[..k + 1] == events[..k] + [events[k]];
    AfterSnoc(r, events[..k], events[k]);
  }

  lemma {:induction false} SpecsStay(r: Registry, events: seq<Event>, k: nat)
    requires k <= |events|
    ensures Before(r, events, k).specs == r.specs
  {
    if k > 0 {
      SpecsStay(r, events, k - 1);
      BeforeNext(r, events, k - 1);
    }
  }

  /** Event `j` put the trigger into the slot, and no later event before `k` put another one there. */
  ghost predicate InForceSince(r: Registry, events: seq<Event>, j: nat, k: nat, slot: Slot)
    requires j < k <= |events|
  {
    Replaces(r, events[j], slot) && forall i :: j < i < k ==> !Replaces(r, events[i], slot)
  }

  /** What is held in a slot comes from the latest activation for that slot, with its clock reading. */
  lemma {:induction false} HeldSince(r: Registry, events: seq<Event>, k: nat, slot: Slot) returns (j: nat)
    requires r.local == map[] && r.global == None
    requires k <= |events| && Held(Before(r, events, k), slot).Some?
    ensures j < k && InForceSince(r, events, j, k, slot)
    ensures var a := Held(Before(r, events, k), slot).value;
            a.spec == r.specs[events[j].uid] && a.triggeredAt == events[j].now
  {
    assert k > 0;
    var before, e := Before(r, events, k - 1), events[k - 1];
    BeforeNext(r, events, k - 1);
    SpecsStay(r, events, k - 1);
    if Replaces(r, e, slot) {
      ActivationSets(before, e);
      j := k - 1;
    } else {
      KeptOrigin(before, e, slot);
      j := HeldSince(r, events, k - 1, slot);
    }
  }

  /** Anything but an activation for the slot leaves it empty or with a trigger of the same origin. */
  lemma KeptOrigin(r: Registry, e: Event, slot: Slot)
    requires !Replaces(r, e, slot) && Held(Step(r, e).0, slot).Some?
    ensures Held(r, slot).Some?
    ensures var a, b := Held(r, slot).value, Held(Step(r, e).0, slot).value;
            b.spec == a.spec && b.triggeredAt == a.triggeredAt
  {
  }

  /**
   * In every run from an empty registry, a granted check goes back to an activation of that very
   * trigger in the slot it reached, not replaced since; for a duration trigger the check comes no
   * later than the duration after that activation.
   */
  lemma GrantGoesBack(r: Registry, events: seq<Event>, k: nat) returns (j: nat)
    requires r.local == map[] && r.global == None
    requires k < |events| && events[k].Check? && Step(Before(r, events, k), events[k]).1
    ensures j < k && InForceSince(r, events, j, k, SlotFor(Before(r, events, k), events[k].client))
    ensures var spec := r.specs[events[j].uid];
            && spec.trigger == events[k].trigger
            && (spec.occurrence.Lasting? ==> events[k].reference <= events[j].now + spec.occurrence.duration)
  {
    GrantedExactly(Before(r, events, k), events[k]);
    j := HeldSince(r, events, k, SlotFor(Before(r, events, k), events[k].client));
  }

  // ----- Once is Times(1) ---------------------------------------------------------

  function OnceAsTimes(spec: TriggerSpec): TriggerSpec {
    if spec.occurrence.Once? then spec.(occurrence := Times(1)) else spec
  }

  function ActiveOnceAsTimes(a: ActiveTrigger): ActiveTrigger { a.(spec := OnceAsTimes(a.spec)) }

  /** `t` is `r` with every `Once` written as `Times(1)`; a stored `Once` trigger is unused. */
  ghost predicate Rewritten(r: Registry, t: Registry) {
    && t.specs.Keys == r.specs.Keys && (forall u :: u in r.specs ==> t.specs[u] == OnceAsTimes(r.specs[u]))
    && t.local.Keys == r.local.Keys
    && (forall c :: c in r.local ==> RewrittenActive(r.local[c], t.local[c]))
    && (r.global.None? <==> t.global.None?)
    && (r.global.Some? ==> RewrittenActive(r.global.value, t.global.value))
  }

  ghost predicate RewrittenActive(a: ActiveTrigger, b: ActiveTrigger) {
    b == ActiveOnceAsTimes(a) && (a.spec.occurrence.Once? ==> a.usages == 0)
  }

  lemma RewrittenActivation(r: Registry, t: Registry, e: Event)
    requires Rewritten(r, t) && e.Activation?
    ensures Rewritten(Step(r, e).0, Step(t, e).0) && Step(r, e).1 == Step(t, e).1
  {
  }

  lemma RewrittenCheck(a: ActiveTrigger, b: ActiveTrigger, trigger: Trigger, reference: Instant)
    requires RewrittenActive(a, b)
    ensures var x, y := a.Check(trigger, reference), b.Check(trigger, reference);
            x.active == y.active && x.retain == y.retain && (x.retain ==> RewrittenActive(x.after, y.after))
  {
  }

  lemma RewrittenStep(r: Registry, t: Registry, e: Event)
    requires Rewritten(r, t)
    ensures Rewritten(Step(r, e).0, Step(t, e).0) && Step(r, e).1 == Step(t, e).1
  {
    if e.Activation? {
      RewrittenActivation(r, t, e);
    } else if e.client in r.local {
      RewrittenCheck(r.local[e.client], t.local[e.client], e.trigger, e.reference);
    } else if r.global.Some? {
      RewrittenCheck(r.global.value, t.global.value, e.trigger, e.reference);
    }
  }

  ghost function Replies(r: Registry, events: seq<Event>): seq<bool>
    decreases |events|
  {
    if events == [] then [] else [Step(r, events[0]).1] + Replies(Step(r, events[0]).0, events[1..])
  }

  /** No sequence of activations and checks tells `Once` from `Times(1)`. */
  lemma {:induction false} OnceIndistinguishable(r: Registry, t: Registry, events: seq<Event>)
    requires Rewritten(r, t)
    ensures Replies(r, events) == Replies(t, events)
    decreases |events|
  {
    if events != [] {
      RewrittenStep(r, t, events[0]);
      OnceIndistinguishable(Step(r, events[0]).0, Step(t, events[0]).0, events[1..]);
    }
  }
}
