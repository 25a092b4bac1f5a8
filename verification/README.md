# Verification of the bloop server framework

A bloop server runs a game of NFC tags. Players hold tags against client terminals; each accepted
tap is a *bloop*. The engine decides which achievements a bloop earns, keeps hot achievements that
other players can pick up at the same client, limits how fast a player may bloop, and broadcasts
what happened to a persistence sink, a statistics tracker and a health monitor. Clients reach the
engine over authenticated request/response sessions.

This project models that logic in Dafny and proves what it promises over all inputs, all runs and
all interleavings.

| files | part of the server |
|---|---|
| `RegistrationNumber.dfy` | primality, Fibonacci and digit-sum predicates |
| `Sequences.dfy` | filtering, prefixes and the stable sort that the histories and the manifest use |
| `Bloops.dfy`, `BloopSink.dfy` | lazily pruned histories; the retrying batch sink |
| `Statistics.dfy`, `StatsTracker.dfy` | the ring of minute counters against the full log; counters in place, snapshots |
| `Triggers.dfy`, `Players.dfy`, `Awards.dfy` | trigger registry, player registry, award tracker |
| `EngineModel.dfy`, `EngineRuns.dfy`, `EngineGuarantees.dfy`, `EngineReplies.dfy`, `EngineHot.dfy`, `Engine.dfy` | `handle_bloop` as a state machine, its invariant, its guarantees over runs, what it replies and records, hot pick-up, and the object that realises it |
| `Manifest.dfy` | the audio manifest hash input |
| `HealthModel.dfy`, `HealthReach.dfy`, `HealthMonitor.dfy` | client health over runs; which states connections can lead to; the monitor object and its interleaved clients |
| `Evaluators.dfy`, `EngineEvaluators.dfy` | streak, distinct-value and spelling-bee evaluators; what they grant in runs of the engine |
| `Network.dfy`, `NetworkRuns.dfy`, `NetworkProtocol.dfy` | connection tasks as a step relation; what every interleaving keeps; the protocol on the stream, judged by traces alone |

## How the model is built

State that the server updates in place is a class whose methods are proved to realise a pure step
function; the guarantees over whole runs are proved about those step functions, against partners
that never prune, never wrap and never exit early: the complete history, the complete log, every
hot window ever opened.

Assumptions, each visible in a precondition or a step relation:

- Every clock reading is an argument. Where a result needs it, readings never go back
  (`Bloops.ClockRuns`, `EngineModel.Enabled`, `HealthModel.Enabled`, `Statistics.Ordered`).
- Evaluators are arbitrary finite decision trees over trigger checks that end in an evaluation
  result (`Awards.EvalPlan`); maps are visited in any order.
- The engine handles one request at a time. Between requests the application may add, remove and
  change players in any way that leaves the registry consistent and takes no sent award from a
  present player (`EngineModel.Enabled`, `EngineModel.Remembers`).
- Integers are unbounded. Word size matters in the number predicates, where every operation is
  checked against an arbitrary maximum, and in the saturating minute counters.

Where the code does not do what one might expect, the exact condition is proved:

- In checked arithmetic the Fibonacci test is exact precisely while 5n² + 4 is representable and
  overflows otherwise. Under wrap-around it is exact while 5n² + 4 stays below the modulus; beyond,
  it accepts the root of any square modulus, such as 2³² on 64 bits, Fibonacci number or not.
- `is_prime` overflows exactly on primes with no representable candidate square above them.
- Per-client and global history agree on a window in every run if and only if the window is no
  longer than the retention: the global one prunes on every bloop, a quiet client's own does not.
- No award can be sent twice after the application changed the registry if and only if every
  present player still holds what was sent for it. Removing a player is harmless; adding it anew
  without its awards lets each of them be earned and sent again.
- A throttle limit of zero rejects every known player instead of switching throttling off.
- For a log in any order the ring counts a minute's entries since its slot was last used for
  another day. It is exact on a minute if and only if no entry of the minute was followed by such a
  reuse, or 255 have come since; it never overcounts.
- A client promoted to healthy stays so exactly when its log holds fewer recent losses than the
  limit; if the Connect is not the newest event, it can flap within one instant even though the
  recovery grace exceeds the loss window.
- A client can become unstable in some run if and only if the loss limit is below the size of the
  event log, or equal to it with an offline grace above zero.
- The player registry stays consistent exactly when an added or mutated player keeps its id and
  takes nobody else's uid. The comment on `add` says that an existing player with the same id or
  uid is overwritten; the code overwrites one entry and leaves the other lookup's stale.
- The time a spelling-bee word allows grows with its length in bytes, which is its length in
  letters exactly when all of them are ASCII.

## Model

| member | source | states |
|---|---|---|
| RegistrationNumber.IsPrime | src/evaluator/registration_number.rs:22-42 | trial division over 6k±1 answers true exactly on numbers of at least 2 without a divisor strictly between 1 and themselves; it overflows exactly on primes above 3 for which no candidate square above the number is representable; it terminates |
| RegistrationNumber.DividesIffRemainderZero | src/evaluator/registration_number.rs:27-38 | the remainder test decides divisibility defined by repeated subtraction |
| RegistrationNumber.PerfectSquareExact | src/evaluator/registration_number.rs:51-54 | the square test holds exactly when some natural number has that square |
| RegistrationNumber.FibonacciTestExact | src/evaluator/registration_number.rs:62-64 | for every number with 5n² + 4 representable the test is true exactly on members of the Fibonacci sequence and never underflows; for every other number it overflows |
| RegistrationNumber.SquareNeighbours | src/evaluator/registration_number.rs:62-64 | n is a Fibonacci number exactly when 5n² + 4 or 5n² − 4 is a square |
| RegistrationNumber.LucasIdentity | src/evaluator/registration_number.rs:62-64 | L(k)² − 5F(k)² = ±4, the direction from the sequence to the squares |
| RegistrationNumber.Descent | src/evaluator/registration_number.rs:62-64 | every solution of x² − 5y² = ±4 is a Lucas–Fibonacci pair, by descent |
| RegistrationNumber.WrappingTestExact | src/evaluator/registration_number.rs:62-64 | with wrap-around the test is true exactly on Fibonacci numbers for every n with 5n² + 4 below the modulus |
| RegistrationNumber.WrappingAcceptsRoot | src/evaluator/registration_number.rs:62-64 | for every modulus that is a square the wrapped test accepts its root |
| RegistrationNumber.WrappingTestFails | src/evaluator/registration_number.rs:62-64 | so on 64 bits it accepts 2³², which is no Fibonacci number |
| RegistrationNumber.DigitSum | src/evaluator/registration_number.rs:117-127 | the loop returns the sum of the peeled decimal digits |
| RegistrationNumber.DigitSumOfAnyRepresentation | src/evaluator/registration_number.rs:117-127 | that sum is the sum of every decimal representation of the number, leading zeros included |
| RegistrationNumber.DigitSumModNine | src/evaluator/registration_number.rs:117-127 | the digit sum and the number agree modulo nine |
| StableSort.SortFilter | src/bloop.rs:117-124 | the stable sort commutes with every filter |
| StableSort.StableSortUnique | src/bloop.rs:117-124 | any sequence ordered by key that keeps equal keys in order is the stable sort's result |
| Bloops.AddToCollection | src/bloop.rs:127-139 | popping stale bloops off the back and pushing the new one to the front |
| Bloops.DropStaleIsFilter | src/bloop.rs:127-139 | on a history ordered newest first, popping from the back equals filtering by age |
| Bloops.GroupByClient | src/bloop.rs:181-189 | the loop gives each client exactly its own stored bloops, in order |
| Bloops.SortGroups | src/bloop.rs:191-194 | one sorted collection per client, whatever the visiting order |
| Bloops.BloopProvider.WithBloops | src/bloop.rs:177-202 | the provider starts with the sorted global history and every client's sorted own history |
| Bloops.BloopProvider.Add | src/bloop.rs:205-214 | the bloop enters the global and the client's collection, each pruned by its own clock reading; other clients are untouched |
| Bloops.InitialForClient | src/bloop.rs:177-202 | at the start a client's view is the global view restricted to that client |
| Bloops.AddRetains | src/bloop.rs:205-214 | `add` keeps both views covering the complete history back to the retention |
| Bloops.WindowsAgree | src/bloop.rs:88-90 | for windows within the retention the client's view, the restricted global view and the complete history give one sequence |
| Bloops.ViewsAgreeInEveryRun | src/bloop.rs:117-227 | that agreement, from any stored bloops and through every run of `add` under a nondecreasing clock |
| Bloops.ViewsAgreeExactly | src/bloop.rs:117-227 | for every retention and window: client view and restricted global view agree in every run if and only if the window is no longer than the retention |
| Bloops.ViewsDisagreeBeyondRetention | src/bloop.rs:127-139 | for every window above the retention a run after which the client's view shows a bloop that the global view has pruned |
| BloopSink.ProcessedBloopSink.Flush | src/bloop.rs:296-309 | an accepted batch leaves the buffer, a refused one returns to it unchanged |
| BloopSink.ProcessedBloopSink.HandleRecv | src/bloop.rs:311-333 | what each received event does to buffer and batches, and that only a closed stream ends the loop |
| BloopSink.ProcessedBloopSink.ProcessEvents | src/bloop.rs:274-293 | the loop realises the run of the sink up to the closing of the stream |
| BloopSink.NothingLost | src/bloop.rs:274-333 | under any pattern of failures, persisted batches followed by the buffer are exactly the received bloops, in order, each once |
| BloopSink.FullOnlyAfterFailureInEveryRun | src/bloop.rs:296-333 | with a batch size of at least one, a full buffer means that the latest persist attempt failed |
| BloopSink.PersistsAllSoFar | src/bloop.rs:274-333 | in every run an accepted tick, lag notice or batch-filling bloop leaves everything received so far persisted and nothing waiting |
| BloopSink.FinalFlushPersistsAll | src/bloop.rs:345-350 | after a successful final flush exactly the received bloops are persisted |
| Statistics.MinuteIndexExact | src/statistics.rs:225-227 | hour·60 + minute and the date are remainder and quotient of the absolute minute by 1440 |
| Statistics.ContributionExact | src/statistics.rs:171-206 | for every log in any order a minute counts min(255, its entries since its slot was last used for another day) |
| Statistics.TailComplete | src/statistics.rs:171-181 | those are all its entries if and only if none of them was followed by a reuse of the slot |
| Statistics.RingExact | src/statistics.rs:171-206 | a minute is counted exactly if and only if none of its entries was overwritten, or 255 have come since |
| Statistics.NeverOvercounts | src/statistics.rs:171-206 | whatever the order of the log, no minute counts more than min(255, its entries) |
| Statistics.ExactWhenOrdered | src/statistics.rs:171-206 | for an ordered log every minute of the last day counts exactly min(255, its entries), across midnight and ring reuse |
| Statistics.WindowExact | src/statistics.rs:192-206 | for an ordered log up to `now` and at most 1440 minutes the window total is the true total of capped minutes |
| Statistics.WindowExactly | src/statistics.rs:192-206 | for a log in any order the window total is the true one if and only if each of its minutes is intact |
| Statistics.WindowNeverOvercounts | src/statistics.rs:192-206 | for a log in any order the window total never exceeds the true one |
| Statistics.SummaryOrdered | src/statistics.rs:286-310 | last hour ≤ last 24 hours ≤ total, for any log |
| StatsTracker.ClientStats.constructor | src/statistics.rs:161-169 | fresh counters are those of the empty log |
| StatsTracker.ClientStats.RecordBloop | src/statistics.rs:171-190 | after recording, every minute slot, hour and day counter and the total are those of the extended log |
| StatsTracker.ClientStats.CountLastMinutes | src/statistics.rs:192-206 | the loop never exceeds the true capped total of the window and equals it for an ordered log not after `now` |
| StatsTracker.TablesExact | src/statistics.rs:183-190 | hour and day tables are determined by the log: every count and exactly the dates that occur |
| StatsTracker.SummaryBalanced | src/statistics.rs:183-190 | for one client: total = sum over hours = sum over days, and last hour ≤ last 24 hours ≤ total, for any time zone |
| StatsTracker.SummaryExactly | src/statistics.rs:296-307 | for an ordered log up to `now` without saturated minutes: the number of bloops in all, in the last 60 minutes and in the last 24 hours |
| StatsTracker.SumBalanced | src/statistics.rs:309-319 | the global summary balances in the same way if every client's does |
| StatsTracker.RecordFor | src/statistics.rs:267-271 | the entry goes to its client's counters, created on its first bloop; all other counters keep showing their logs |
| StatsTracker.DispatchExact | src/statistics.rs:267-271 | every client's log is exactly its part of the event stream, in order |
| StatsTracker.GlobalExact | src/statistics.rs:267-328 | for every stream of events from empty statistics the global total is the number of events and balances with its hours, days and windows |
| StatsTracker.Summarise | src/statistics.rs:296-307 | one client's summary is the one its log determines |
| StatsTracker.SumStep | src/statistics.rs:309-319 | adding one client's summary extends the pointwise sum over clients |
| StatsTracker.SumClients | src/statistics.rs:296-322 | in any iteration order the loop yields every client's exact summary and their pointwise sum |
| StatsTracker.ComputeSnapshot | src/statistics.rs:286-328 | per-client summaries are exact for their logs and the global one is their pointwise sum |
| StatsTracker.SnapshotCache.TakeSnapshot | src/statistics.rs:273-284 | the served snapshot is under a minute old, exact for the logs it was taken of, and recomputed exactly when the cached one is older |
| Triggers.TriggerRegistry.CheckActiveTrigger | src/trigger.rs:137-166 | the client's local trigger answers if there is one, otherwise the global one; the answering trigger stays or goes as its check says |
| Triggers.TriggerRegistry.TryActivateTrigger | src/trigger.rs:173-188 | a known tag replaces the global or the client's local trigger with an unused one; an unknown tag changes nothing |
| Triggers.SlotFrame | src/trigger.rs:137-188 | an event that neither reaches nor replaces a slot leaves its trigger alone |
| Triggers.GrantedExactly | src/trigger.rs:87-166 | a check is granted if and only if the slot it reaches holds the very trigger asked for, not yet spent at the reference time |
| Triggers.MismatchChangesNothing | src/trigger.rs:88-91 | asking for a trigger that the reached slot does not hold answers false and leaves the whole registry as it was |
| Triggers.MatchCharges | src/trigger.rs:93-104 | what a matching check leaves in its slot: nothing, one use less of a budget, or a duration still running |
| Triggers.ActivationSets | src/trigger.rs:173-188 | a known tag puts its unused trigger, stamped with the clock, into its slot; an unknown one changes nothing and is told so |
| Triggers.HeldSince | src/trigger.rs:137-188 | in every run from an empty registry a held trigger comes from the latest activation for its slot, with that activation's clock reading |
| Triggers.GrantGoesBack | src/trigger.rs:87-188 | in every run a granted check goes back to an activation of that very trigger in the slot it reached, not replaced since and, for a duration, no longer ago than that |
| Triggers.TimesBudget | src/trigger.rs:87-105 | until replaced, a `Times(n)` trigger grants exactly the first n − usages matching checks that reach it, whatever happens in between |
| Triggers.FreshActivationBudget | src/trigger.rs:87-188 | one activation of `Times(n)` grants exactly its first n matching checks and no other |
| Triggers.DurationExpires | src/trigger.rs:87-105 | under nondecreasing reference times a duration trigger grants exactly the checks within its duration, so true then only false |
| Triggers.LocalShieldsGlobal | src/trigger.rs:137-166 | checks by clients that hold a local trigger never consume the global one |
| Triggers.OnceIndistinguishable | src/trigger.rs:87-105 | no run of activations and checks tells `Once` from `Times(1)` |
| Players.PlayerRegistry.constructor | src/player.rs:62-76 | distinct players give a consistent registry in which each is found with its own data |
| Players.PlayerRegistry.Add | src/player.rs:143-150 | the player is found under id and uid; the registry stays consistent exactly when neither belongs to somebody else |
| Players.PlayerRegistry.Remove | src/player.rs:156-163 | exactly the player's two entries disappear and the registry stays consistent |
| Players.PlayerRegistry.MutateById | src/player.rs:119-136 | the uid entry moves with the player, nobody else changes, and the registry stays consistent exactly when the id is kept and no other uid is taken |
| Players.PlayerRegistry.ConsistentIsBijective | src/player.rs:49-52 | same object under id and current uid, nothing stale: the two lookups are in bijection |
| Players.AlwaysBijective | src/player.rs:62-163 | over every sequence of admissible operations the lookups stay in bijection |
| Players.LookupsExactly | src/player.rs:81-163 | what both lookups give after each admissible operation, for its own player and for everybody else |
| Awards.AwardedTracker.Add | src/achievement.rs:253-258 | the achievement joins that player's set, all other sets stay |
| Awards.AwardedTracker.Record | src/achievement.rs:187-199 | every recipient of the evaluation result gets the achievement |
| Awards.AddAwardsMembers | src/achievement.rs:187-199 | a player gains the achievement exactly when listed, however often, and nothing else |
| Awards.AskFollowsAnswer | src/achievement.rs:359-368 | an evaluator that asks for a trigger decides one way if that very trigger is in force and unspent at the client, and the other way if not |
| Awards.AwardedTracker.RemoveDuplicates | src/achievement.rs:268-281 | exactly the awards not yet held by existing players remain; players left with none disappear |
| Awards.DeduplicatedMembers | src/achievement.rs:268-281 | each player's remaining awards are the collected ones minus those held, none for unknown players |
| EngineModel.HandleRefuses | src/engine.rs:112-152 | trigger tag, unknown tag and throttled player: the reply, and that nothing but triggers and clock changes |
| EngineRuns.EvaluateAwards | src/engine.rs:196-216 | only visited achievements that the blooping player lacked are awarded |
| EngineRuns.EvaluateExact | src/engine.rs:196-216 | for evaluators that ask no triggers the awards do not depend on the visiting order: exactly the lacked achievements whose evaluator names the recipient |
| EngineRuns.EvaluateDecides | src/engine.rs:196-216 | an evaluator that asks no triggers decides its own achievement, whatever the other evaluators do and in any order |
| EngineRuns.GrantDecided | src/engine.rs:158-163 | such an achievement reaches a player exactly if lacked and named by its evaluator, or picked up hot by the blooping player |
| EngineRuns.EvaluateOnlyChecks | src/achievement.rs:359-368 | all evaluators together touch the triggers only by checks at the bloop's client for the bloop's time |
| EngineRuns.GrantedExact | src/engine.rs:158-163 | what each player gains, stated without any order: named by an evaluator or picked up hot, and not yet held |
| EngineRuns.JudgeGranted | src/engine.rs:158-163 | gains are evaluated awards, plus hot pick-ups for the blooping player, minus what is held |
| EngineRuns.AcceptAwards | src/engine.rs:262-275 | each player's stored awards grow by exactly the batch, stamped with the bloop's time; earlier ones keep their time |
| EngineRuns.NewOpenings | src/engine.rs:238-260 | windows open only for fresh evaluated awards of the blooping player, at its client, for the achievement's hot duration |
| EngineRuns.StartInvariant | src/engine.rs:470-512 | the engine as built satisfies the invariant |
| EngineRuns.StepKeeps | src/engine.rs:89-194 | every request and every permitted registry change, removals included, keeps the invariant |
| EngineRuns.InvariantInEveryRun | src/engine.rs:89-194 | the invariant holds in every state of every run |
| EngineGuarantees.AwardedOnceInEveryRun | src/engine.rs:155-193 | in every run, with players added, removed and brought back, a (player, achievement) pair is in at most one batch, and a present player holds it |
| EngineGuarantees.AwardTimeInEveryRun | src/engine.rs:262-275 | in every run a sent award is stored with its batch's time for as long as the application keeps it |
| EngineGuarantees.RememberingExact | src/engine.rs:162-168 | after a registry change no request can send an award twice if and only if every present player still holds what was sent for it (tags not being trigger tags, throttle limit not zero) |
| EngineGuarantees.ForgottenAwardRepeats | src/engine.rs:162-168 | for every state in which a present player lost a sent award there is a request that sends it again |
| EngineGuarantees.RemovalRemembers | src/player.rs:156-163 | removing a player is a permitted registry change |
| EngineGuarantees.ReaddedPlayerEarnsAgain | src/player.rs:143-163 | from any engine as built: earn, remove, add anew, bloop again, and the award is in two batches |
| EngineGuarantees.AwardNeverChanges | src/engine.rs:262-275 | the engine itself never changes a stored award or its timestamp: they last exactly as long as the application's own changes keep them |
| EngineGuarantees.ResponseExact | src/engine.rs:165-193 | the reply lists exactly the current player's new awards, all of them known achievements |
| EngineGuarantees.BatchExact | src/engine.rs:262-275 | the batch sent lists for every player exactly the awards gained |
| EngineHot.PickUpExactly | src/engine.rs:218-236 | the blooping player picks up exactly what any window ever opened at its own client still covers, and what it has just earned itself with a hot duration |
| EngineHot.OpenedExactly | src/engine.rs:238-260 | a request opens exactly one window per achievement its player earns with a hot duration, at its client, for that duration |
| EngineHot.OpeningsInEveryRun | src/engine.rs:238-260 | in every run the windows on record are exactly those |
| EngineHot.PickUpInEveryRun | src/engine.rs:218-260 | in every run a bloop picks up an achievement if and only if somebody earned it at the same client at most its hot duration ago |
| EngineGuarantees.HeldOpensNoWindow | src/engine.rs:238-260 | while a player holds an achievement, none of its bloops opens or extends a window for it |
| EngineGuarantees.SentOpensNoWindow | src/engine.rs:238-260 | once an award was sent to a player, no later step of the run opens a window for it by that player |
| EngineGuarantees.PickUpOpensNothing | src/engine.rs:158-160 | an achievement received only by pick-up never has a window opened by its receiver |
| EngineReplies.RefusedExactly | src/engine.rs:134-152 | with enough retention a request is answered NfcUidThrottled if and only if its tag is a player's, and that player's own bloops are the newest `max_bloops` that the client ever saw within the threshold |
| EngineReplies.RefusedInEveryRun | src/engine.rs:134-152 | in every run a player is refused only for its own bloops: exactly when each of the newest `max_bloops` ever accepted at the client is the player's and at most the threshold old |
| EngineReplies.RecordedExactly | src/engine.rs:156-175 | exactly the bloops of players that were not refused are recorded and announced, each as its player's, at its client and time; other requests send nothing |
| EngineReplies.CountedExactly | src/engine.rs:155-155 | the served player's counter goes up by one and nobody else's; ids and tags stay |
| EngineGuarantees.ThrottleSpacingInEveryRun | src/engine.rs:134-156 | in every run an accepted bloop whose `max_bloops` predecessors at its client are the player's own is strictly more than the threshold later than the oldest of them |
| EngineGuarantees.RunChronological | src/bloop.rs:205-214 | accepted bloops stay listed newest first, none after the clock |
| EngineGuarantees.EventsMatchHistory | src/engine.rs:173-175 | in every run one BloopProcessed event is sent per accepted bloop, in the order of acceptance |
| EngineGuarantees.StartChronological | src/bloop.rs:177-202 | stored bloops from before the start put the engine in that order |
| EngineGuarantees.ZeroLimitRejectsAll | src/engine.rs:145-148 | a limit of zero throttles every known player |
| Engine.FollowPlan | src/achievement.rs:359-368 | an evaluator's trigger checks consume the live registry as the decision tree says |
| Engine.EvaluateAchievements | src/engine.rs:196-216 | the loop collects the specified awards and leaves the specified triggers |
| Engine.BloopEngine.ActivateHot | src/engine.rs:238-260 | exactly the windows of the player's evaluated awards with a hot duration are added |
| Engine.BloopEngine.InjectHot | src/engine.rs:218-236 | expired windows go, all others stay, and the player gets exactly what is hot at its client |
| Engine.ApplyAwarded | src/engine.rs:262-275 | every player in the batch receives its awards in any order; all else in the registry stays |
| Engine.BloopEngine.constructor | src/engine.rs:470-512 | the engine as built is a start state of the state machine |
| Engine.BloopEngine.Screen | src/engine.rs:112-152 | the early exits answer exactly the requests that the state machine refuses, and change only triggers |
| Engine.BloopEngine.CollectNew | src/engine.rs:158-163 | evaluation, hot activation, injection and de-duplication yield the specified new awards and leave the players alone |
| Engine.BloopEngine.AcceptBloop | src/engine.rs:155-175 | counting, evaluation, hot activation and injection, de-duplication, apply, record and both events have the specified joint effect |
| Engine.BloopEngine.HandleBloop | src/engine.rs:106-194 | the object realises the state machine's step: state, events sent and reply, and replies with known achievements only |
| Engine.BloopEngine.Reply | src/engine.rs:177-193 | each replied achievement carries the audio hash found under its id; the lookup cannot fail |
| Manifest.HashInput | src/engine.rs:515-541 | the buffer is a hash input of the id-to-digest map that the achievements resolve to |
| Manifest.EntriesOf | src/engine.rs:530-532 | iterating the map in any order lists each entry once |
| Manifest.BytesRoundTrip | src/engine.rs:534-538 | the 16 bytes of an id determine the id |
| Manifest.EncodeInjective | src/engine.rs:534-538 | the concatenation of fixed-width records can be taken apart again |
| Manifest.HashInputUnique | src/engine.rs:530-541 | the hash input does not depend on map iteration order |
| Manifest.HashInputExactly | src/engine.rs:530-538 | the input is one 32-byte record per achievement with audio, id bytes then digest, in strictly ascending order of the ids, none missing |
| Manifest.HashInputIdentifies | src/engine.rs:515-541 | with 16-byte ids and digests two hash inputs are equal exactly when the maps are |
| Manifest.PermutationInvariant | src/engine.rs:515-528 | if one list has distinct ids, every permutation of it resolves to the same map, hence to the same input |
| HealthModel.BuildExactly | src/health_monitor/mod.rs:333-343 | a monitor is built exactly for logs of at least two events and a loss limit of at least one; the first violation is reported |
| HealthModel.ReachableInvariant | src/health_monitor/mod.rs:507-579 | in every reachable state each log is the newest events, newest first, nonempty unless offline |
| HealthReach.UnstableExactly | src/health_monitor/mod.rs:333-343 | some run, realistic or not, makes a client unstable if and only if the loss limit is below the log size, or equal to it with an offline grace above zero |
| HealthReach.UnstableReachable | src/health_monitor/mod.rs:430-487 | for each such configuration a run of connections, each opened once and ended at most once, that ends unstable |
| HealthModel.EarlyExitExact | src/health_monitor/mod.rs:463-473 | on a newest-first log the early-exit count equals the count over the whole log |
| HealthModel.CheckExactly | src/health_monitor/mod.rs:436-485 | the health after a check by iff: offline when the decisive event is a loss older than the grace, healthy again when it is an old enough Connect, unstable at the loss limit; the time stamp moves exactly on a change |
| HealthModel.UpdateExactly | src/health_monitor/mod.rs:452-493 | an update is loud exactly for a worsening and silent exactly for a recovery |
| HealthModel.EventExactly | src/health_monitor/mod.rs:507-579 | a connect brings a client back from offline, a disconnect takes it offline, a loss alone changes no health; the event heads the log |
| HealthModel.PromotionStable | src/health_monitor/mod.rs:430-487 | a promoted client stays healthy through all checks until its next event exactly when its log holds fewer recent losses than the limit |
| HealthModel.PromotionStableByConfiguration | src/health_monitor/mod.rs:430-487 | it does so if the recovery grace exceeds the loss window and the Connect is the newest event |
| HealthReach.FlapsWhenConnectIsNotNewest | src/health_monitor/mod.rs:441-460 | events of real connections lead to a state in which a client is promoted and demoted at the same instant |
| HealthMonitor.CountRecentLosses | src/health_monitor/mod.rs:463-473 | the loop with its break counts all losses in the window of a newest-first log |
| HealthMonitor.CheckClient | src/health_monitor/mod.rs:436-485 | one client's branch of the check, by precedence: offline, recovery, instability |
| HealthMonitor.Monitor.constructor | src/health_monitor/mod.rs:85-92 | every known client starts offline with an empty log |
| HealthMonitor.Monitor.CheckClients | src/health_monitor/mod.rs:430-494 | every client is judged by its own log; one report, loud if anyone's health got worse, silent if it only got better, none if it stayed |
| HealthMonitor.Monitor.SendReminder | src/health_monitor/mod.rs:496-505 | a loud reminder exactly when some client is not healthy |
| HealthMonitor.Monitor.HandleEventRecv | src/health_monitor/mod.rs:507-590 | the event's client alone changes, as specified; a silent report exactly on disconnect or return from offline; only a closed stream ends the loop |
| HealthMonitor.EveryClientSound | src/health_monitor/mod.rs:401-428 | however the events of many clients and the checks interleave, every client satisfies the single-client invariant |
| HealthMonitor.ChecksInEveryRun | src/health_monitor/mod.rs:430-494 | in every run of interleaved clients each check judges each client by its own log as stated for one |
| HealthMonitor.LostClientsGoOffline | src/health_monitor/mod.rs:452-458 | in every run no client whose decisive event is a loss older than the grace outlives a check as healthy or unstable |
| Evaluators.NewestInWindowExactly | src/evaluator/streak.rs:143-148 | the bloops an evaluator looks at are the first of the history, up to `min_required` and exactly as far as the window reaches |
| Evaluators.EvaluateStreak | src/evaluator/streak.rs:140-168 | awards exactly when the newest `min_required` in-window client bloops exist, are by different players other than the current one, and all satisfy the predicate |
| Evaluators.StreakExactly | src/evaluator/streak.rs:140-168 | said of the history itself, listed newest first: each of its first `min_required` bloops is in the window, satisfies the predicate and is by a player not seen before |
| Evaluators.EvaluateDistinct | src/evaluator/distinct_values.rs:160-203 | awards exactly when a shortest prefix shows enough values with different players and no abort, and then names exactly its players |
| Evaluators.CompletesOnce | src/evaluator/distinct_values.rs:160-203 | there is at most one such prefix |
| Evaluators.SeenExactly | src/evaluator/distinct_values.rs:182-188 | a value counts as seen exactly when some bloop's player yields it, alone or among several |
| Evaluators.SingleValueAwards | src/evaluator/distinct_values.rs:160-203 | with one value per player: exactly when the newest `min_required` bloops exist with different players and different values |
| Evaluators.AwardListDistinct | src/evaluator/streak.rs:140-168 | awarded lists start with the current player, name nobody twice and have one id more than the bloops used |
| Evaluators.EvaluatorsSeeFullHistory | src/achievement.rs:315-341 | windows within the retention are evaluated as on the complete history |
| Evaluators.StreakRecipients | src/evaluator/streak.rs:140-168 | a streak's achievement goes to the current player, and in award-all mode to exactly the players of the streak |
| EngineEvaluators.StreakInEveryRun | src/evaluator/streak.rs:140-168 | in every run with the window within the retention a streak achievement is granted exactly when the complete, never-pruned history holds the streak, or by hot pick-up |
| EngineEvaluators.SpellingBeeInEveryRun | src/evaluator/spelling_bee.rs:119-135 | in every run with the time within the retention the word is granted exactly when the complete history and the current bloop spell it, or by hot pick-up |
| SpellingBee.New | src/evaluator/spelling_bee.rs:80-111 | each error exactly in its case, naming the unregistered letter nearest the end; otherwise the letters' clients in reverse |
| SpellingBee.LettersAreBytes | src/evaluator/spelling_bee.rs:91-97 | the length that bounds the word and multiplies its time counts letters exactly when all of them are ASCII |
| SpellingBee.Utf8LengthLeast | src/evaluator/spelling_bee.rs:91-97 | each letter counts the least number of UTF-8 bytes that has room for its code point |
| SpellingBee.OwnRecentExactly | src/evaluator/spelling_bee.rs:127-130 | the bloops compared with the word are exactly the player's own within the time allowed, in the order of the history |
| SpellingBee.SpellsWord | src/evaluator/spelling_bee.rs:119-135 | true exactly when the player's newest bloops in the time allowed, read oldest to newest and followed by the current one, spell the word |
| NetworkRuns.AdvanceTurn | src/network.rs:547-690 | each step of a connection task keeps whose turn it is on the stream, and requests only once authenticated |
| NetworkRuns.AdvanceEvents | src/network.rs:211-281 | each step sends the event its phase allows and no other |
| NetworkRuns.AdvanceSettles | src/network.rs:598-624 | a task has at most one request open, and writes only the answer it was given |
| NetworkRuns.PendingWaits | src/network.rs:620-622 | every pending request belongs to a connection waiting for exactly that answer |
| NetworkRuns.StepKeeps | src/network.rs:183-281 | accepting, any task's step and any answer keep the invariant of every connection |
| NetworkRuns.InvariantInEveryRun | src/network.rs:183-281 | so it holds after every interleaving |
| NetworkRuns.IdsUnique | src/network.rs:183-195 | after every interleaving the next connection id is one that no connection has and no event mentions |
| NetworkRuns.EventsOrderly | src/network.rs:237-281 | a connection's events are a prefix of Connect followed by exactly one of Disconnect and ConnectionLoss |
| NetworkProtocol.ConformsInEveryRun | src/network.rs:547-690 | after every interleaving each trace conforms to the protocol: a read only first or after a good frame, a request only after its message, and every frame the one its message, request or failed read calls for |
| NetworkProtocol.AcceptedOnlyVerified | src/network.rs:648-690 | AuthenticationAccepted is written only as the answer to an authentication with verified credentials, after a handshake whose range holds version 3 |
| NetworkProtocol.RequestsOnlyVerified | src/network.rs:561-690 | requests are made only in a session whose client's credentials were verified |
| NetworkProtocol.EventsInEveryRun | src/network.rs:237-281 | a finished connection sent nothing unless accepted; else Connect for the verified client, then Disconnect if it quit or fell silent on its turn and ConnectionLoss if not |
| NetworkProtocol.ConnectNamesVerified | src/network.rs:246-250 | the first event of any connection names the client whose credentials were verified |
| NetworkProtocol.EveryReadIsAnswered | src/network.rs:561-690 | whatever is read is answered or forwarded as the protocol says if the stream allows it |
| NetworkProtocol.EveryBadFrameIsAnswered | src/network.rs:304-326 | so is a frame that is too large, malformed or of an unknown kind, each by its own error |
| NetworkProtocol.AnsweredRequestIsReplied | src/network.rs:606-624 | the answer to any pending request reaches its own connection, which writes it and reads again |
| NetworkProtocol.DroppedRequestEnds | src/network.rs:606-622 | a request dropped without an answer ends its session as a loss, with nothing more written |
| NetworkProtocol.GoodFrameThenRead | src/network.rs:561-690 | after any good frame the task comes to read again, announcing the client first if it was just accepted |
| NetworkRuns.NoRequestBeforeAuthentication | src/network.rs:561-690 | every engine or custom request is preceded by a written AuthenticationAccepted |
| NetworkRuns.OneFrameBetweenReads | src/network.rs:561-627 | exactly one frame is written between two consecutive successful reads |
| NetworkRuns.RepliesMatchRequests | src/network.rs:598-624 | the k-th reply a connection writes is the answer given to its own k-th request |

## Left out

- TLS, sockets, PEM loading, HTTP serving and Argon2: foreign calls; credential checks, decoding and transport failures are choices of the environment in `Network.Choice`.
- Frame and message byte encoding: it lives in the protocol crate, which is not part of this repository; messages are abstract.
- Reading audio files, MD5 and the two audio requests (`handle_retrieve_audio`, `handle_preload_check`): digests are given values.
- `TimeEvaluator`: it rests on the time-zone library's resolution of ambiguous local times.
- `MinBloopsEvaluator`, `TriggerEvaluator`, the predicate and projection evaluators, builders with missing fields, `Debug` output and evaluator boxing: thin wrappers.
- `#[cached]` memoisation of the number predicates: library behaviour around pure functions.
- Health report text, Telegram sending, and the initial report and timers of the monitor's loop.
- Shutdown in the middle of an awaited persist: a flush in the sink runs to completion.
- Bloops lost to a lagging broadcast receiver: the sink's and the monitor's inputs are what the channel delivers.
- Bloops.AddToCollection: a collection is a value held by its owner, not an object of its own, since no two owners ever share one; the loop and its result are modelled, aliasing is not.
- StatsTracker.ComputeSnapshot: the client table is a parameter with a ghost log for each client; counters seeded from a database, which no log explains, are not modelled.
- StatsTracker.ClientStats.RecordBloop: the time zone enters as the local hour and date of each entry, and the 32- and 64-bit totals are unbounded because they never exceed the length of the log.
- Triggers.TimesBudget: the usage counter is unbounded; it grows by one per matching check and stops at n.
- Engine.EvaluateAchievements: evaluators act only through their result and trigger checks; a custom evaluator that awards through its context directly is not modelled.
- Engine.BloopEngine.HandleBloop: the registry lock, released between de-duplication and applying the awards, is taken to be held throughout; the application's changes happen between requests.
- Network.Advance: a frame counts as written when its write succeeded; partially transmitted frames are not distinguished from unwritten ones.
