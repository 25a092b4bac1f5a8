/** The history evaluators: streaks, distinct values and spelling bees. */
module Evaluators {
  import opened Types
  import opened Sequences
  import opened StableSort
  import opened Bloops
  import opened Awards

  datatype AwardMode = Current | All

  /** The newest `n` bloops of a history that lie within the window before bloop `b`. */
  function NewestInWindow(history: seq<Bloop>, b: Bloop, window: Duration, n: nat): seq<Bloop> {
    Take(Filter(history, Since(b.at - window)), n)
  }

  /**
   * On a history listed newest first these are its first bloops, up to `n` and as far as the window
   * reaches: the next one, if fewer than `n` were taken, is too old.
   */
  lemma NewestInWindowExactly(history: seq<Bloop>, b: Bloop, window: Duration, n: nat)
    requires Sorted(history, NewestFirst())
    ensures var newest := NewestInWindow(history, b, window, n);
            && |newest| <= n && |newest| <= |history| && newest == history[..|newest|]
            && (forall i :: 0 <= i < |newest| ==> newest[i].at + window >= b.at)
            && (|newest| < n && |newest| < |history| ==> history[|newest|].at + window < b.at)
  {
    var m := WindowIsPrefix(history, b.at - window);
  }

  ghost function PlayersOf(s: seq<Bloop>): seq<Uuid> { seq(|s|, i requires 0 <= i < |s| => s[i].player) }

  /** The current player and the given bloops' players, all different. */
  ghost predicate AllDifferent(self: Uuid, s: seq<Bloop>) {
    && (forall i :: 0 <= i < |s| ==> s[i].player != self)
    && forall i, j :: 0 <= i < j < |s| ==> s[i].player != s[j].player
  }

  ghost function Award(mode: AwardMode, self: Uuid, s: seq<Bloop>): EvalResult {
    if mode.Current? then AwardSelf else AwardMultiple([self] + PlayersOf(s))
  }

  /** An awarded list starts with the current player and names nobody twice. */
  lemma AwardListDistinct(self: Uuid, s: seq<Bloop>)
    requires AllDifferent(self, s)
    ensures var ids := [self] + PlayersOf(s);
            ids[0] == self && |ids| == |s| + 1 && NoDuplicates(ids)
  {
  }

  // ----- Streaks ---------------------------------------------------------------------------

  ghost predicate IsStreak(newest: seq<Bloop>, self: Uuid, minRequired: nat, predicate_: Uuid -> bool) {
    |newest| == minRequired && AllDifferent(self, newest) && forall b <- newest :: predicate_(b.player)
  }

  ghost function StreakResult(b: Bloop, clientBloops: seq<Bloop>, minRequired: nat, maxWindow: Duration, mode: AwardMode,
                              predicate_: Uuid -> bool): EvalResult {
    var newest := NewestInWindow(clientBloops, b, maxWindow, minRequired);
    if IsStreak(newest, b.player, minRequired, predicate_) then Award(mode, b.player, newest) else NoAward
  }

  method EvaluateStreak(b: Bloop, clientBloops: seq<Bloop>, minRequired: nat, maxWindow: Duration, mode: AwardMode,
                        predicate_: Uuid -> bool) returns (r: EvalResult)
    ensures r == StreakResult(b, clientBloops, minRequired, maxWindow, mode, predicate_)
  {
    var playerIds := [b.player];
    var bloops := NewestInWindow(clientBloops, b, maxWindow, minRequired);
    for i := 0 to |bloops|
      invariant playerIds == [b.player] + PlayersOf(bloops[..i])
      invariant AllDifferent(b.player, bloops[..i])
      invariant forall x <- bloops[..i] :: predicate_(x.player)
    {
      ExtendDifferent(b.player, bloops, i);
      if bloops[i].player in playerIds || !predicate_(bloops[i].player) {
        assert !AllDifferent(b.player, bloops) || !predicate_(bloops[i].player);
        return NoAward;
      }
      playerIds := playerIds + [bloops[i].player];
    }
    assert bloops[..|bloops|] == bloops;
    if |playerIds| <= minRequired {
      return NoAward;
    }
    r := match mode case Current => AwardSelf case All => AwardMultiple(playerIds);
  }

  /** The player may be part of the streak: within the window, satisfying the predicate, and not seen before. */
  ghost predicate Continues(history: seq<Bloop>, i: nat, b: Bloop, maxWindow: Duration, predicate_: Uuid -> bool)
    requires i < |history|
  {
    && history[i].at + maxWindow >= b.at && predicate_(history[i].player) && history[i].player != b.player
    && forall j :: 0 <= j < i ==> history[j].player != history[i].player
  }

  /** On a history listed newest first, there is an award exactly when its first `minRequired` bloops all continue the streak. */
  lemma StreakExactly(b: Bloop, history: seq<Bloop>, minRequired: nat, maxWindow: Duration, mode: AwardMode, predicate_: Uuid -> bool)
    requires Sorted(history, NewestFirst())
    ensures !StreakResult(b, history, minRequired, maxWindow, mode, predicate_).NoAward? <==>
            minRequired <= |history| && forall i :: 0 <= i < minRequired ==> Continues(history, i, b, maxWindow, predicate_)
  {
    var newest := NewestInWindow(history, b, maxWindow, minRequired);
    NewestInWindowExactly(history, b, maxWindow, minRequired);
    assert |newest| < minRequired && |newest| < |history| ==> !Continues(history, |newest|, b, maxWindow, predicate_);
    if IsStreak(newest, b.player, minRequired, predicate_) {
      forall i | 0 <= i < minRequired
        ensures Continues(history, i, b, maxWindow, predicate_)
      {
        assert newest[i] == history[i] && newest[i] in newest;
      }
    }
    if minRequired <= |history| && forall i :: 0 <= i < minRequired ==> Continues(history, i, b, maxWindow, predicate_) {
      assert forall i :: 0 <= i < minRequired ==> newest[i] == history[i] && Continues(history, i, b, maxWindow, predicate_);
    }
  }

  lemma ExtendDifferent(self: Uuid, s: seq<Bloop>, i: nat)
    requires i < |s| && AllDifferent(self, s[..i])
    ensures PlayersOf(s[..i + 1]) == PlayersOf(s[..i]) + [s[i].player]
    ensures AllDifferent(self, s[..i + 1]) <==> s[i].player !in [self] + PlayersOf(s[..i])
    ensures !AllDifferent(self, s[..i + 1]) ==> !AllDifferent(self, s)
    ensures s[..i + 1] == s[..i] + [s[i]]
  {
    var ids := [self] + PlayersOf(s[..i]);
    if s[i].player in ids {
      var k :| 0 <= k < |ids| && ids[k] == s[i].player;
      if k > 0 {
        assert s[..i][k - 1].player == s[i].player && s[..i + 1][k - 1].player == s[..i + 1][i].player;
        assert s[k - 1].player == s[i].player;
      } else {
        assert s[..i + 1][i].player == self;
      }
    } else {
      assert ids[0] == self;
      assert forall k :: 0 <= k < i ==> ids[k + 1] == s[k].player;
    }
  }

  // ----- Distinct values -------------------------------------------------------------------

  datatype ExtractResult = Single(value: nat) | Multiple(values: seq<nat>) | Abort

  function ValuesOf(x: ExtractResult): set<nat> {
    match x
    case Single(value) => {value}
    case Multiple(values) => set v | v in values
    case Abort => {}
  }

  /** The values seen in a prefix of the bloops. */
  ghost function Seen(s: seq<Bloop>, extract: Uuid -> ExtractResult): set<nat> {
    if s == [] then {} else Seen(s[..|s| - 1], extract) + ValuesOf(extract(s[|s| - 1].player))
  }

  /** The player shows the value, alone or among several. */
  predicate Yields(x: ExtractResult, v: nat) { x == Single(v) || (x.Multiple? && v in x.values) }

  /** A value has been seen exactly when some bloop's player yields it. */
  lemma {:induction false} SeenExactly(s: seq<Bloop>, extract: Uuid -> ExtractResult, v: nat)
    ensures v in Seen(s, extract) <==> exists i :: 0 <= i < |s| && Yields(extract(s[i].player), v)
  {
    if s != [] {
      var n := |s| - 1;
      SeenExactly(s[..n], extract, v);
      if v in Seen(s[..n], extract) {
        var i :| 0 <= i < n && Yields(extract(s[..n][i].player), v);
        assert Yields(extract(s[i].player), v);
      }
      if i :| 0 <= i < n && Yields(extract(s[i].player), v) {
        assert Yields(extract(s[..n][i].player), v);
      }
    }
  }

  /** Players all different and no extraction aborts. */
  ghost predicate Clean(self: Uuid, s: seq<Bloop>, extract: Uuid -> ExtractResult) {
    AllDifferent(self, s) && forall b <- s :: !extract(b.player).Abort?
  }

  /** The first `k` bloops are the shortest prefix that shows enough values, and they are clean. */
  ghost predicate Completes(s: seq<Bloop>, k: nat, self: Uuid, minRequired: nat, extract: Uuid -> ExtractResult) {
    && k <= |s| && |Seen(s[..k], extract)| >= minRequired
    && (forall j :: 0 <= j < k ==> |Seen(s[..j], extract)| < minRequired)
    && Clean(self, s[..k], extract)
  }

  lemma CompletesOnce(s: seq<Bloop>, j: nat, k: nat, self: Uuid, minRequired: nat, extract: Uuid -> ExtractResult)
    requires Completes(s, j, self, minRequired, extract) && Completes(s, k, self, minRequired, extract)
    ensures j == k
  {
  }

  /** The loop's state after `i` clean bloops that do not yet show enough values. */
  ghost predicate Gathering(s: seq<Bloop>, i: nat, self: Uuid, minRequired: nat, extract: Uuid -> ExtractResult) {
    i <= |s| && Clean(self, s[..i], extract) && forall j :: 0 <= j <= i ==> |Seen(s[..j], extract)| < minRequired
  }

  lemma GatherStep(s: seq<Bloop>, i: nat, self: Uuid, minRequired: nat, extract: Uuid -> ExtractResult)
    requires i < |s| && Gathering(s, i, self, minRequired, extract)
    ensures Seen(s[..i + 1], extract) == Seen(s[..i], extract) + ValuesOf(extract(s[i].player))
    ensures PlayersOf(s[..i + 1]) == PlayersOf(s[..i]) + [s[i].player]
    ensures Clean(self, s[..i + 1], extract) <==>
            s[i].player !in [self] + PlayersOf(s[..i]) && !extract(s[i].player).Abort?
  {
    ExtendDifferent(self, s, i);
    assert s[..i + 1][..i] == s[..i];
    assert s[i] in s[..i + 1];
  }

  /** One more clean bloop either keeps gathering or completes. */
  lemma GatherNext(s: seq<Bloop>, i: nat, self: Uuid, minRequired: nat, extract: Uuid -> ExtractResult)
    requires i < |s| && Gathering(s, i, self, minRequired, extract) && Clean(self, s[..i + 1], extract)
    ensures if |Seen(s[..i + 1], extract)| < minRequired then Gathering(s, i + 1, self, minRequired, extract)
            else Completes(s, i + 1, self, minRequired, extract)
  {
  }

  /** What is known where the loop ends. */
  ghost predicate Stopped(s: seq<Bloop>, i: nat, self: Uuid, minRequired: nat, extract: Uuid -> ExtractResult) {
    if i <= |s| && |Seen(s[..i], extract)| < minRequired then forall k: nat :: !Completes(s, k, self, minRequired, extract)
    else Completes(s, i, self, minRequired, extract)
  }

  lemma GatheredAll(s: seq<Bloop>, self: Uuid, minRequired: nat, extract: Uuid -> ExtractResult)
    requires Gathering(s, |s|, self, minRequired, extract) || (minRequired == 0 && s == [])
    ensures Stopped(s, |s|, self, minRequired, extract)
  {
  }

  method EvaluateDistinct(b: Bloop, clientBloops: seq<Bloop>, minRequired: nat, maxWindow: Duration, mode: AwardMode,
                          extract: Uuid -> ExtractResult) returns (r: EvalResult)
    ensures var s := NewestInWindow(clientBloops, b, maxWindow, minRequired);
            if r.NoAward? then forall k: nat :: !Completes(s, k, b.player, minRequired, extract)
            else exists k: nat :: Completes(s, k, b.player, minRequired, extract) && r == Award(mode, b.player, s[..k])
  {
    var s := NewestInWindow(clientBloops, b, maxWindow, minRequired);
    var seen, playerIds, clean;
    ghost var k;
    seen, playerIds, clean, k := Gather(b.player, s, minRequired, extract);
    if !clean || |seen| < minRequired {
      return NoAward;
    }
    r := match mode case Current => AwardSelf case All => AwardMultiple(playerIds);
    assert Completes(s, k, b.player, minRequired, extract) && r == Award(mode, b.player, s[..k]);
  }

  /** What the loop holds after `i` bloops. */
  ghost predicate Gathered(s: seq<Bloop>, i: nat, self: Uuid, extract: Uuid -> ExtractResult, seen: set<nat>, playerIds: seq<Uuid>) {
    i <= |s| && seen == Seen(s[..i], extract) && playerIds == [self] + PlayersOf(s[..i])
  }

  ghost predicate NothingCompletes(s: seq<Bloop>, self: Uuid, minRequired: nat, extract: Uuid -> ExtractResult) {
    forall k: nat :: !Completes(s, k, self, minRequired, extract)
  }

  /** One round of the loop: it gives up for good, stops for good, or goes on. */
  lemma GatherRound(s: seq<Bloop>, i: nat, self: Uuid, minRequired: nat, extract: Uuid -> ExtractResult, seen: set<nat>, playerIds: seq<Uuid>)
    requires i < |s| && Gathering(s, i, self, minRequired, extract) && Gathered(s, i, self, extract, seen, playerIds)
    ensures var b := s[i];
            var seen' := seen + ValuesOf(extract(b.player));
            if b.player in playerIds || extract(b.player).Abort? then NothingCompletes(s, self, minRequired, extract)
            else Gathered(s, i + 1, self, extract, seen', playerIds + [b.player]) &&
                 if |seen'| >= minRequired then Stopped(s, i + 1, self, minRequired, extract)
                 else Gathering(s, i + 1, self, minRequired, extract)
  {
    GatherStep(s, i, self, minRequired, extract);
    NoPrefixCompletes(s, i, self, minRequired, extract);
    if Clean(self, s[..i + 1], extract) { GatherNext(s, i, self, minRequired, extract); }
  }

  /** The collecting loop, up to its early return, its break or the end of the bloops. */
  method Gather(self: Uuid, s: seq<Bloop>, minRequired: nat, extract: Uuid -> ExtractResult)
    returns (seen: set<nat>, playerIds: seq<Uuid>, clean: bool, ghost k: nat)
    requires minRequired == 0 ==> s == []
    ensures if clean then Gathered(s, k, self, extract, seen, playerIds) && Stopped(s, k, self, minRequired, extract)
            else NothingCompletes(s, self, minRequired, extract)
  {
    seen, playerIds := {}, [self];
    var i := 0;
    while i < |s|
      invariant 0 <= i <= |s| && Gathered(s, i, self, extract, seen, playerIds)
      invariant minRequired > 0 ==> Gathering(s, i, self, minRequired, extract)
    {
      GatherRound(s, i, self, minRequired, extract, seen, playerIds);
      if s[i].player in playerIds {
        return seen, playerIds, false, i;
      }
      playerIds := playerIds + [s[i].player];
      if extract(s[i].player).Abort? {
        return seen, playerIds, false, i;
      }
      seen := seen + ValuesOf(extract(s[i].player));
      i := i + 1;
      if |seen| >= minRequired {
        return seen, playerIds, true, i;
      }
    }
    GatheredAll(s, self, minRequired, extract);
    clean, k := true, i;
  }

  /** While too few values have been seen, a prefix that completes must contain the next bloop cleanly. */
  lemma NoPrefixCompletes(s: seq<Bloop>, i: nat, self: Uuid, minRequired: nat, extract: Uuid -> ExtractResult)
    requires i < |s| && forall j :: 0 <= j <= i ==> |Seen(s[..j], extract)| < minRequired
    ensures !Clean(self, s[..i + 1], extract) ==> forall k: nat :: !Completes(s, k, self, minRequired, extract)
  {
  }

  // ----- One value per player -----------------------------------------------------------------

  ghost predicate SingleValued(s: seq<Bloop>, extract: Uuid -> ExtractResult) {
    forall b <- s :: extract(b.player).Single?
  }

  ghost predicate ValuesDiffer(s: seq<Bloop>, extract: Uuid -> ExtractResult) {
    forall i, j :: 0 <= i < j < |s| ==> extract(s[i].player) != extract(s[j].player)
  }

  ghost predicate Shows(s: seq<Bloop>, extract: Uuid -> ExtractResult, v: nat) {
    exists i :: 0 <= i < |s| && extract(s[i].player) == Single(v)
  }

  lemma {:induction false} SeenMembers(s: seq<Bloop>, extract: Uuid -> ExtractResult, v: nat)
    requires SingleValued(s, extract)
    ensures v in Seen(s, extract) <==> Shows(s, extract, v)
  {
    if s != [] {
      var n := |s| - 1;
      assert s == s[..n] + [s[n]];
      SeenMembers(s[..n], extract, v);
      if Shows(s[..n], extract, v) {
        var i :| 0 <= i < n && extract(s[..n][i].player) == Single(v);
        assert extract(s[i].player) == Single(v);
      }
      if i :| 0 <= i < n && extract(s[i].player) == Single(v) {
        assert extract(s[..n][i].player) == Single(v);
      }
    }
  }

  /** The last bloop repeats a value exactly when that value was shown before. */
  lemma ValuesDifferExtend(s: seq<Bloop>, extract: Uuid -> ExtractResult)
    requires s != [] && SingleValued(s, extract)
    ensures var n := |s| - 1;
            ValuesDiffer(s, extract) <==> ValuesDiffer(s[..n], extract) && !Shows(s[..n], extract, extract(s[n].player).value)
  {
  }

  /** With one value each, `n` bloops show at most `n` values, and exactly `n` only if all differ. */
  lemma {:induction false} SeenBounded(s: seq<Bloop>, extract: Uuid -> ExtractResult)
    requires SingleValued(s, extract)
    ensures |Seen(s, extract)| <= |s|
    ensures |Seen(s, extract)| == |s| <==> ValuesDiffer(s, extract)
  {
    if s != [] {
      var n := |s| - 1;
      assert s == s[..n] + [s[n]];
      SeenBounded(s[..n], extract);
      assert s[n] in s;
      var v := extract(s[n].player).value;
      SeenGrows(Seen(s[..n], extract), v);
      SeenMembers(s[..n], extract, v);
      ValuesDifferExtend(s, extract);
    }
  }

  lemma SeenGrows(seen: set<nat>, v: nat)
    ensures |seen + {v}| == |seen| + if v in seen then 0 else 1
  {
    if v in seen { assert seen + {v} == seen; }
  }

  /**
   * For extractors that give one value and never abort, the evaluator awards exactly when the
   * newest `minRequired` bloops exist, by different players other than the current one, with
   * pairwise different values.
   */
  lemma SingleValueAwards(s: seq<Bloop>, self: Uuid, minRequired: nat, extract: Uuid -> ExtractResult)
    requires |s| <= minRequired && SingleValued(s, extract)
    ensures (exists k: nat :: Completes(s, k, self, minRequired, extract)) <==>
            |s| == minRequired && AllDifferent(self, s) && ValuesDiffer(s, extract)
  {
    assert s[..|s|] == s;
    SeenBounded(s, extract);
    forall k | 0 <= k < |s|
      ensures |Seen(s[..k], extract)| < minRequired
    {
      assert forall b <- s[..k] :: b in s;
      SeenBounded(s[..k], extract);
    }
    if |s| == minRequired && AllDifferent(self, s) && ValuesDiffer(s, extract) {
      assert Completes(s, |s|, self, minRequired, extract);
    }
    if k: nat :| Completes(s, k, self, minRequired, extract) {
      assert k == |s|;
    }
  }

  // ----- Pruning does not show -------------------------------------------------------------

  /** Who receives a streak's achievement. */
  lemma StreakRecipients(b: Bloop, clientBloops: seq<Bloop>, minRequired: nat, maxWindow: Duration, mode: AwardMode,
                         predicate_: Uuid -> bool, p: Uuid)
    ensures var newest := NewestInWindow(clientBloops, b, maxWindow, minRequired);
            p in Recipients(StreakResult(b, clientBloops, minRequired, maxWindow, mode, predicate_), b.player) <==>
            && IsStreak(newest, b.player, minRequired, predicate_)
            && (p == b.player || (mode.All? && exists x :: x in newest && x.player == p))
  {
    var newest := NewestInWindow(clientBloops, b, maxWindow, minRequired);
    var ids := [b.player] + PlayersOf(newest);
    if p in ids {
      var i :| 0 <= i < |ids| && ids[i] == p;
      assert i > 0 ==> newest[i - 1] in newest;
    }
    forall x | x in newest
      ensures x.player in ids
    {
      var i :| 0 <= i < |newest| && newest[i] == x;
      assert ids[i + 1] == x.player;
    }
    assert ids[0] == b.player;
  }

  /** Windows within the retention are evaluated as on the complete history. */
  lemma EvaluatorsSeeFullHistory(h: Histories, history: seq<Bloop>, clock: Instant, b: Bloop, window: Duration, n: nat)
    requires Retains(h, history, clock, b.client) && clock <= b.at && window <= h.maxAge
    ensures NewestInWindow(h.ForClient(b.client), b, window, n) == NewestInWindow(Filter(history, AtClient(b.client)), b, window, n)
    ensures Filter(h.global, Since(b.at - window)) == Filter(history, Since(b.at - window))
  {
    WindowsAgree(h, history, clock, b.client, b.at, window);
  }
}

/** The evaluator that waits for a word to be spelled by blooping at the right clients. */
module SpellingBee {
  import opened Types
  import opened Sequences
  import opened Bloops

  datatype Error = UnregisteredCharacter(c: char) | WordTooShort | WordTooLong

  datatype Result = Ok(evaluator: Evaluator) | Err(error: Error)

  /** The clients of the word's letters, last letter first, and the time allowed for the word. */
  datatype Evaluator = Evaluator(clientIds: seq<ClientId>, maxTime: Duration)

  /** `Duration::MAX` in nanoseconds. */
  const MAX_DURATION := 0x1_0000_0000_0000_0000 * 1_000_000_000 - 1

  /** The length of a character in UTF-8. */
  function Utf8Length(c: char): nat {
    if c as int < 0x80 then 1 else if c as int < 0x800 then 2 else if c as int < 0x10000 then 3 else 4
  }

  ghost function TwoTo(n: nat): nat { if n == 0 then 1 else 2 * TwoTo(n - 1) }

  /** How many code points fit into an encoding of `n` bytes: 7 bits in one, 5n + 1 in more. */
  ghost function Capacity(n: nat): nat { TwoTo(if n == 1 then 7 else 5 * n + 1) }

  /** The length is the least number of bytes that has room for the code point. */
  lemma Utf8LengthLeast(c: char)
    ensures var n := Utf8Length(c); 1 <= n <= 4 && c as int < Capacity(n) && (n > 1 ==> Capacity(n - 1) <= c as int)
  {
    assert TwoTo(7) == 0x80;
    assert TwoTo(11) == 16 * TwoTo(7) && TwoTo(16) == 32 * TwoTo(11) && TwoTo(21) == 32 * TwoTo(16);
  }

  /** `str::len`, which counts bytes. */
  function ByteLength(word: string): nat {
    if word == "" then 0 else Utf8Length(word[0]) + ByteLength(word[1..])
  }

  /** The time allowed is counted in letters exactly when every letter is ASCII. */
  lemma {:induction false} LettersAreBytes(word: string)
    ensures ByteLength(word) >= |word|
    ensures ByteLength(word) == |word| <==> forall i :: 0 <= i < |word| ==> word[i] as int < 0x80
  {
    if word != "" {
      LettersAreBytes(word[1..]);
      assert forall i :: 1 <= i < |word| ==> word[i] == word[1..][i - 1];
    }
  }

  ghost predicate Registered(word: string, characters: map<char, ClientId>) { forall c <- word :: c in characters }

  /** The unregistered letter closest to the end of the word. */
  ghost predicate LastUnregistered(word: string, characters: map<char, ClientId>, i: nat)
    requires i < |word|
  {
    word[i] !in characters && forall j :: i < j < |word| ==> word[j] in characters
  }

  method New(word: string, characters: map<char, ClientId>, timePerCharacter: Duration) returns (r: Result)
    ensures word == "" ==> r == Err(WordTooShort)
    ensures word != "" && (ByteLength(word) > 100 || timePerCharacter * ByteLength(word) > MAX_DURATION) ==> r == Err(WordTooLong)
    ensures word != "" && ByteLength(word) <= 100 && timePerCharacter * ByteLength(word) <= MAX_DURATION ==>
              if Registered(word, characters)
              then r.Ok? && r.evaluator.maxTime == timePerCharacter * ByteLength(word) && SpelledBy(r.evaluator.clientIds, word, characters)
              else exists i :: 0 <= i < |word| && r == Err(UnregisteredCharacter(word[i])) && LastUnregistered(word, characters, i)
  {
    if word == "" {
      return Err(WordTooShort);
    }
    var length := ByteLength(word);
    if length > 100 {
      return Err(WordTooLong);
    }
    var maxTime := timePerCharacter * length;
    if maxTime > MAX_DURATION {
      return Err(WordTooLong);
    }
    var clientIds: seq<ClientId> := [];
    var i := |word|;
    while i > 0
      invariant 0 <= i <= |word| && |clientIds| == |word| - i
      invariant forall j :: i <= j < |word| ==> word[j] in characters && clientIds[|word| - 1 - j] == characters[word[j]]
    {
      i := i - 1;
      if word[i] !in characters {
        assert LastUnregistered(word, characters, i);
        return Err(UnregisteredCharacter(word[i]));
      }
      clientIds := clientIds + [characters[word[i]]];
    }
    r := Ok(Evaluator(clientIds, maxTime));
  }

  /** The ids are those of the word's letters, in reverse order. */
  ghost predicate SpelledBy(clientIds: seq<ClientId>, word: string, characters: map<char, ClientId>) {
    && |clientIds| == |word| && Registered(word, characters)
    && forall j :: 0 <= j < |word| ==> clientIds[|word| - 1 - j] == characters[word[j]]
  }

  function ClientsOf(s: seq<Bloop>): seq<ClientId> { seq(|s|, i requires 0 <= i < |s| => s[i].client) }

  /** The player's own bloops within the time allowed, newest first. */
  function OwnRecent(e: Evaluator, b: Bloop, globalBloops: seq<Bloop>): seq<Bloop> {
    Filter(Filter(globalBloops, Since(b.at - e.maxTime)), ByPlayer(b.player))
  }

  /** They are exactly the player's bloops no older than the time allowed, in the order of the history. */
  lemma OwnRecentExactly(e: Evaluator, b: Bloop, globalBloops: seq<Bloop>) returns (at: seq<nat>)
    ensures IsSelection(globalBloops, OwnRecent(e, b, globalBloops), at)
    ensures forall i :: 0 <= i < |globalBloops| ==>
              (i in at <==> globalBloops[i].player == b.player && globalBloops[i].at + e.maxTime >= b.at)
  {
    FilterBoth(globalBloops, Since(b.at - e.maxTime), ByPlayer(b.player));
    at := FilterSelects(globalBloops, Both(Since(b.at - e.maxTime), ByPlayer(b.player)));
  }

  function Evaluate(e: Evaluator, b: Bloop, globalBloops: seq<Bloop>): bool
    requires e.clientIds != []
  {
    b.client == e.clientIds[0] &&
    ClientsOf(Take(OwnRecent(e, b, globalBloops), |e.clientIds| - 1)) == e.clientIds[1..]
  }

  /** The clients of the newest `n - 1` own bloops, oldest first, and then the current one. */
  ghost function Spelled(own: seq<Bloop>, b: Bloop, n: nat): seq<ClientId>
    requires 1 <= n <= |own| + 1
  {
    seq(n, i requires 0 <= i < n => if i == n - 1 then b.client else own[n - 2 - i].client)
  }

  ghost predicate Spells(own: seq<Bloop>, b: Bloop, word: string, characters: map<char, ClientId>)
    requires word != "" && Registered(word, characters)
  {
    |own| + 1 >= |word| && forall i :: 0 <= i < |word| ==> Spelled(own, b, |word|)[i] == characters[word[i]]
  }

  /**
   * For a word, the evaluator says yes exactly when the player's last |word| - 1 bloops in the
   * time allowed, read oldest to newest and followed by the current one, spell the word.
   */
  lemma SpellsWord(e: Evaluator, word: string, characters: map<char, ClientId>, b: Bloop, globalBloops: seq<Bloop>)
    requires word != "" && SpelledBy(e.clientIds, word, characters)
    ensures var own := OwnRecent(e, b, globalBloops);
            Evaluate(e, b, globalBloops) <==> Spells(own, b, word, characters)
  {
    var own, n := OwnRecent(e, b, globalBloops), |word|;
    var ids := e.clientIds;
    var taken := ClientsOf(Take(own, n - 1));
    if |own| + 1 >= n {
      if Evaluate(e, b, globalBloops) {
        forall i | 0 <= i < n
          ensures Spelled(own, b, n)[i] == characters[word[i]]
        {
          if i < n - 1 {
            assert taken[n - 2 - i] == ids[1..][n - 2 - i];
          }
          assert ids[n - 1 - i] == characters[word[i]];
        }
      }
      if forall i :: 0 <= i < n ==> Spelled(own, b, n)[i] == characters[word[i]] {
        forall k | 0 <= k < n - 1
          ensures taken[k] == ids[1..][k]
        {
          assert Spelled(own, b, n)[n - 2 - k] == characters[word[n - 2 - k]];
          assert ids[n - 1 - (n - 2 - k)] == characters[word[n - 2 - k]];
        }
        assert Spelled(own, b, n)[n - 1] == characters[word[n - 1]];
        assert ids[n - 1 - (n - 1)] == characters[word[n - 1]];
        assert taken == ids[1..];
      }
    }
  }
}
