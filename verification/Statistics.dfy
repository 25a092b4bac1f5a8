/**
 * Per-client statistics: a ring of 1440 date-stamped minute counters, hour and day counters,
 * and the summary over all clients. Everything is related to the full log of recorded bloops.
 */
module Statistics {
  import opened Types

  const MINUTE := 60_000_000_000
  const HOUR := 60 * MINUTE
  const DAY := 24 * HOUR
  const MINUTES_IN_DAY: nat := 1440

  /** The stamp of an untouched slot (`NaiveDate::MIN`); such a slot counts zero, so its value is immaterial. */
  const NEVER := -0x1_0000_0000

  function DateOf(t: Instant): int { t / DAY }

  /** `hour * 60 + minute` of the UTC time of day. */
  function MinuteIndex(t: Instant): nat { t % DAY / HOUR * 60 + t % HOUR / MINUTE }

  /** Minutes since the epoch. */
  function AbsoluteMinute(t: Instant): int { t / MINUTE }

  lemma MinuteIndexExact(t: Instant)
    ensures MinuteIndex(t) == AbsoluteMinute(t) % MINUTES_IN_DAY && DateOf(t) == AbsoluteMinute(t) / MINUTES_IN_DAY
  {
    WholeUnits(t);
    Leftovers(t);
  }

  /** Whole hours and days are whole minutes, divided. */
  lemma WholeUnits(t: Instant)
    ensures t / HOUR == t / MINUTE / 60 && t / DAY == t / MINUTE / 1440
  {
    var minutes, rest := t / MINUTE, t % MINUTE;
    assert t == minutes * 60_000_000_000 + rest;
    assert t / 3_600_000_000_000 == minutes / 60;
    assert t / 86_400_000_000_000 == minutes / 1440;
  }

  /** What remains of a day in hours, and of an hour in minutes. */
  lemma Leftovers(t: Instant)
    ensures t % DAY / HOUR == t / HOUR - 24 * (t / DAY) && t % HOUR / MINUTE == t / MINUTE - 60 * (t / HOUR)
  {
    assert t % 86_400_000_000_000 / 3_600_000_000_000 == t / 3_600_000_000_000 - 24 * (t / 86_400_000_000_000);
    assert t % 3_600_000_000_000 / 60_000_000_000 == t / 60_000_000_000 - 60 * (t / 3_600_000_000_000);
  }

  /** A recorded bloop: its instant, and the hour and date the time zone gives it. */
  datatype Entry = Entry(at: Instant, localHour: nat, localDate: int)

  // ----- The minute ring against the log -------------------------------------------

  datatype Slot = Slot(date: int, count: nat)

  function SaturatingIncrement(count: nat): nat { if count < 255 then count + 1 else 255 }

  function Stamped(slot: Slot, date: int): Slot {
    if slot.date != date then Slot(date, 1) else Slot(date, SaturatingIncrement(slot.count))
  }

  /** The content of slot `idx` after recording the log in order. */
  ghost function SlotAfter(log: seq<Entry>, idx: nat): Slot {
    if log == [] then Slot(NEVER, 0)
    else
      var before, at := SlotAfter(log[..|log| - 1], idx), log[|log| - 1].at;
      if MinuteIndex(at) == idx then Stamped(before, DateOf(at)) else before
  }

  /** How many bloops the log has in an absolute minute. */
  ghost function CountIn(log: seq<Entry>, minute: int): nat {
    if log == [] then 0
    else CountIn(log[..|log| - 1], minute) + if AbsoluteMinute(log[|log| - 1].at) == minute then 1 else 0
  }

  function Capped(count: nat): nat { if count < 255 then count else 255 }

  /** What the ring adds to a total for an absolute minute. */
  ghost function Contribution(log: seq<Entry>, minute: int): nat {
    var slot := SlotAfter(log, minute % MINUTES_IN_DAY);
    if slot.date == minute / MINUTES_IN_DAY then slot.count else 0
  }

  ghost predicate Ordered(log: seq<Entry>) {
    forall i, j :: 0 <= i < j < |log| ==> log[i].at <= log[j].at
  }

  /** The entry falls into the minute's slot on another day. */
  predicate Reuses(e: Entry, minute: int) {
    AbsoluteMinute(e.at) != minute && AbsoluteMinute(e.at) % MINUTES_IN_DAY == minute % MINUTES_IN_DAY
  }

  /** The entries of a minute since its slot was last used for another day. */
  ghost function Tail(log: seq<Entry>, minute: int): nat {
    if log == [] then 0
    else
      var last := log[|log| - 1];
      if AbsoluteMinute(last.at) == minute then Tail(log[..|log| - 1], minute) + 1
      else if Reuses(last, minute) then 0
      else Tail(log[..|log| - 1], minute)
  }

  /** For every log, in any order, the ring counts exactly the entries since the last reuse, up to saturation. */
  lemma {:induction false} ContributionExact(log: seq<Entry>, minute: int)
    ensures Contribution(log, minute) == Capped(Tail(log, minute))
  {
    if log != [] {
      ContributionExact(log[..|log| - 1], minute);
      MinuteIndexExact(log[|log| - 1].at);
    }
  }

  /** Some entry of the minute is followed by one that takes over its slot. */
  ghost predicate Overwritten(log: seq<Entry>, minute: int) {
    exists i, j :: 0 <= i < j < |log| && AbsoluteMinute(log[i].at) == minute && Reuses(log[j], minute)
  }

  lemma {:induction false} TailComplete(log: seq<Entry>, minute: int)
    ensures Tail(log, minute) <= CountIn(log, minute)
    ensures Tail(log, minute) == CountIn(log, minute) <==> !Overwritten(log, minute)
  {
    if log != [] {
      var before, n := log[..|log| - 1], |log| - 1;
      TailComplete(before, minute);
      CountPositive(before, minute);
      if Overwritten(before, minute) {
        var i, j :| 0 <= i < j < n && AbsoluteMinute(before[i].at) == minute && Reuses(before[j], minute);
        assert AbsoluteMinute(log[i].at) == minute && Reuses(log[j], minute);
      }
      if i, j :| 0 <= i < j < |log| && AbsoluteMinute(log[i].at) == minute && Reuses(log[j], minute) {
        assert AbsoluteMinute(before[i].at) == minute;
        assert j < n ==> Reuses(before[j], minute);
      }
      if Reuses(log[n], minute) && CountIn(before, minute) > 0 {
        var i :| 0 <= i < n && AbsoluteMinute(before[i].at) == minute;
        assert AbsoluteMinute(log[i].at) == minute;
      }
    }
  }

  lemma {:induction false} CountPositive(log: seq<Entry>, minute: int)
    ensures CountIn(log, minute) > 0 <==> exists i :: 0 <= i < |log| && AbsoluteMinute(log[i].at) == minute
  {
    if log != [] {
      var before, n := log[..|log| - 1], |log| - 1;
      CountPositive(before, minute);
      if CountIn(before, minute) > 0 {
        var i :| 0 <= i < n && AbsoluteMinute(before[i].at) == minute;
        assert AbsoluteMinute(log[i].at) == minute;
      }
      if i :| 0 <= i < n && AbsoluteMinute(log[i].at) == minute {
        assert AbsoluteMinute(before[i].at) == minute;
      }
    }
  }

  /** Whatever the order of the log, the ring never overcounts a minute. */
  lemma NeverOvercounts(log: seq<Entry>, minute: int)
    ensures Contribution(log, minute) <= Capped(CountIn(log, minute))
  {
    ContributionExact(log, minute);
    TailComplete(log, minute);
  }

  ghost predicate Intact(log: seq<Entry>, minute: int) { !Overwritten(log, minute) || Tail(log, minute) >= 255 }

  /**
   * The ring is exact on a minute if and only if none of its entries was followed by one that took
   * over the slot, or enough have come since to saturate the counter anyway.
   */
  lemma RingExact(log: seq<Entry>, minute: int)
    ensures Contribution(log, minute) == Capped(CountIn(log, minute)) <==> Intact(log, minute)
  {
    ContributionExact(log, minute);
    TailComplete(log, minute);
  }

  lemma MinuteMonotone(a: Instant, b: Instant)
    requires a <= b
    ensures AbsoluteMinute(a) <= AbsoluteMinute(b)
  {
  }

  /** In a time-ordered log every minute of the last day is counted exactly, up to saturation. */
  lemma ExactWhenOrdered(log: seq<Entry>, minute: int)
    requires Ordered(log) && forall e <- log :: AbsoluteMinute(e.at) < minute + MINUTES_IN_DAY
    ensures Contribution(log, minute) == Capped(CountIn(log, minute))
  {
    RingExact(log, minute);
    if i, j :| 0 <= i < j < |log| && AbsoluteMinute(log[i].at) == minute && Reuses(log[j], minute) {
      MinuteMonotone(log[i].at, log[j].at);
      assert log[j] in log;
      SameSlotApart(minute, AbsoluteMinute(log[j].at));
    }
  }

  lemma SameSlotApart(a: int, b: int)
    requires a < b && a % MINUTES_IN_DAY == b % MINUTES_IN_DAY
    ensures b >= a + MINUTES_IN_DAY
  {
  }

  // ----- Windows ---------------------------------------------------------------------

  /** The ring's total for the `k` minutes up to and including `minute`. */
  ghost function RingSum(log: seq<Entry>, minute: int, k: nat): nat {
    if k == 0 then 0 else RingSum(log, minute, k - 1) + Contribution(log, minute - (k - 1))
  }

  /** The true total over the same minutes, each saturating at 255. */
  ghost function CappedSum(log: seq<Entry>, minute: int, k: nat): nat {
    if k == 0 then 0 else CappedSum(log, minute, k - 1) + Capped(CountIn(log, minute - (k - 1)))
  }

  lemma {:induction false} WindowExact(log: seq<Entry>, now: Instant, k: nat)
    requires Ordered(log) && (forall e <- log :: e.at <= now) && k <= MINUTES_IN_DAY
    ensures RingSum(log, AbsoluteMinute(now), k) == CappedSum(log, AbsoluteMinute(now), k)
  {
    if k > 0 {
      WindowExact(log, now, k - 1);
      var minute := AbsoluteMinute(now) - (k - 1);
      forall e | e in log
        ensures AbsoluteMinute(e.at) < minute + MINUTES_IN_DAY
      {
        MinuteMonotone(e.at, now);
      }
      ExactWhenOrdered(log, minute);
    }
  }

  lemma {:induction false} WindowNeverOvercounts(log: seq<Entry>, minute: int, k: nat)
    ensures RingSum(log, minute, k) <= CappedSum(log, minute, k)
  {
    if k > 0 {
      WindowNeverOvercounts(log, minute, k - 1);
      NeverOvercounts(log, minute - (k - 1));
    }
  }

  /** Each minute of the window is counted exactly. */
  ghost predicate WindowIntact(log: seq<Entry>, minute: int, k: nat) {
    k == 0 || (WindowIntact(log, minute, k - 1) && Intact(log, minute - (k - 1)))
  }

  /** For a log in any order, the total of a window is exact if and only if each of its minutes is intact. */
  lemma {:induction false} WindowExactly(log: seq<Entry>, minute: int, k: nat)
    ensures RingSum(log, minute, k) == CappedSum(log, minute, k) <==> WindowIntact(log, minute, k)
  {
    if k > 0 {
      WindowExactly(log, minute, k - 1);
      WindowNeverOvercounts(log, minute, k - 1);
      NeverOvercounts(log, minute - (k - 1));
      RingExact(log, minute - (k - 1));
    }
  }

  /** Longer windows never count less. */
  lemma {:induction false} WindowMonotone(log: seq<Entry>, minute: int, j: nat, k: nat)
    requires j <= k
    ensures RingSum(log, minute, j) <= RingSum(log, minute, k)
  {
    if j < k { WindowMonotone(log, minute, j, k - 1); }
  }

  /** Each entry falls into at most one of the window's minutes. */
  lemma {:induction false} WindowBounded(log: seq<Entry>, minute: int, k: nat)
    ensures CappedSum(log, minute, k) <= CountBetween(log, minute - k, minute)
  {
    if k == 0 {
      CountBetweenSplit(log, minute, minute, minute);
    } else {
      WindowBounded(log, minute, k - 1);
      CountBetweenSplit(log, minute - k, minute - (k - 1), minute);
      SingleMinute(log, minute - (k - 1));
    }
  }

  /** While no minute of the window saturates, each of its entries is counted. */
  lemma {:induction false} WindowCountsAll(log: seq<Entry>, minute: int, k: nat)
    requires forall m {:trigger CountIn(log, m)} :: minute - k < m <= minute ==> CountIn(log, m) <= 255
    ensures CappedSum(log, minute, k) == CountBetween(log, minute - k, minute)
  {
    if k == 0 {
      NothingBetween(log, minute);
    } else {
      WindowCountsAll(log, minute, k - 1);
      CountBetweenSplit(log, minute - k, minute - (k - 1), minute);
      SingleMinute(log, minute - (k - 1));
      assert CountIn(log, minute - (k - 1)) <= 255;
    }
  }

  lemma {:induction false} NothingBetween(log: seq<Entry>, minute: int)
    ensures CountBetween(log, minute, minute) == 0
  {
    if log != [] { NothingBetween(log[..|log| - 1], minute); }
  }

  /** Entries in the minutes above `low`, up to and including `high`. */
  ghost function CountBetween(log: seq<Entry>, low: int, high: int): nat {
    if log == [] then 0
    else CountBetween(log[..|log| - 1], low, high) + if low < AbsoluteMinute(log[|log| - 1].at) <= high then 1 else 0
  }

  lemma {:induction false} CountBetweenSplit(log: seq<Entry>, low: int, mid: int, high: int)
    requires low <= mid <= high
    ensures CountBetween(log, low, high) == CountBetween(log, low, mid) + CountBetween(log, mid, high)
    ensures CountBetween(log, low, high) <= |log|
  {
    if log != [] { CountBetweenSplit(log[..|log| - 1], low, mid, high); }
  }

  lemma {:induction false} SingleMinute(log: seq<Entry>, minute: int)
    ensures CountBetween(log, minute - 1, minute) == CountIn(log, minute)
  {
    if log != [] { SingleMinute(log[..|log| - 1], minute); }
  }

  /** last hour <= last 24 hours <= total, for a log in any order. */
  lemma SummaryOrdered(log: seq<Entry>, now: Instant)
    ensures RingSum(log, AbsoluteMinute(now), 60) <= RingSum(log, AbsoluteMinute(now), MINUTES_IN_DAY) <= |log|
  {
    var minute := AbsoluteMinute(now);
    WindowMonotone(log, minute, 60, MINUTES_IN_DAY);
    WindowNeverOvercounts(log, minute, MINUTES_IN_DAY);
    WindowBounded(log, minute, MINUTES_IN_DAY);
    CountBetweenSplit(log, minute - MINUTES_IN_DAY, minute, minute);
  }

  // ----- Hour and day counters -----------------------------------------------------------

  ghost function CountHour(log: seq<Entry>, hour: nat): nat {
    if log == [] then 0 else CountHour(log[..|log| - 1], hour) + if log[|log| - 1].localHour == hour then 1 else 0
  }

  ghost function CountDate(log: seq<Entry>, date: int): nat {
    if log == [] then 0 else CountDate(log[..|log| - 1], date) + if log[|log| - 1].localDate == date then 1 else 0
  }

  ghost function Sum(s: seq<nat>): nat {
    if s == [] then 0 else Sum(s[..|s| - 1]) + s[|s| - 1]
  }

  lemma {:induction false} SumIncrement(s: seq<nat>, i: nat)
    requires i < |s|
    ensures Sum(s[i := s[i] + 1]) == Sum(s) + 1
  {
    var t, n := s[i := s[i] + 1], |s| - 1;
    if i < n {
      SumIncrement(s[..n], i);
      assert t[..n] == s[..n][i := s[i] + 1];
    } else {
      assert t[..n] == s[..n];
    }
  }

  ghost function SumMap<K>(m: map<K, nat>): nat {
    if m == map[] then 0 else var k :| k in m; m[k] + SumMap(m - {k})
  }

  /** The order of summation does not matter: any entry can be taken out first. */
  lemma {:induction false} SumMapRemove<K>(m: map<K, nat>, k: K)
    requires k in m
    ensures SumMap(m) == m[k] + SumMap(m - {k})
    decreases |m|
  {
    var first :| first in m && SumMap(m) == m[first] + SumMap(m - {first});
    if first != k {
      SumMapRemove(m - {first}, k);
      assert m - {first} - {k} == m - {k} - {first};
      SumMapRemove(m - {k}, first);
    }
  }

  lemma SumMapSet<K>(m: map<K, nat>, k: K, v: nat)
    ensures SumMap(m[k := v]) == SumMap(m) + v - if k in m then m[k] else 0
  {
    SumMapRemove(m[k := v], k);
    if k in m {
      SumMapRemove(m, k);
      assert m[k := v] - {k} == m - {k};
    } else {
      assert m[k := v] - {k} == m;
    }
  }
}
