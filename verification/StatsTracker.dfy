/** The counters as the server updates them in place, and the snapshot over all clients. */
module StatsTracker {
  import opened Types
  import opened Statistics

  /** Increments one counter of an hour table. */
  function HoursAfter(hours: seq<nat>, hour: nat): seq<nat>
    requires hour < |hours|
  {
    hours[hour := hours[hour] + 1]
  }

  function DaysAfter(days: map<int, nat>, date: int): map<int, nat> {
    days[date := (if date in days then days[date] else 0) + 1]
  }

  /** The day table lists exactly the dates in the log, each with its number of bloops. */
  ghost predicate DaysCounted(days: map<int, nat>, log: seq<Entry>) {
    && SumMap(days) == |log|
    && (forall d :: d in days ==> days[d] == CountDate(log, d) > 0)
    && (forall d :: d !in days ==> CountDate(log, d) == 0)
  }

  ghost predicate HoursCounted(hours: seq<nat>, log: seq<Entry>) {
    && |hours| == 24 && Sum(hours) == |log|
    && forall h :: 0 <= h < 24 ==> hours[h] == CountHour(log, h)
  }

  lemma HoursCountedStep(hours: seq<nat>, log: seq<Entry>, e: Entry)
    requires HoursCounted(hours, log) && e.localHour < 24
    ensures HoursCounted(HoursAfter(hours, e.localHour), log + [e])
  {
    assert (log + [e])[..|log|] == log;
    SumIncrement(hours, e.localHour);
  }

  lemma DaysCountedStep(days: map<int, nat>, log: seq<Entry>, e: Entry)
    requires DaysCounted(days, log)
    ensures DaysCounted(DaysAfter(days, e.localDate), log + [e])
  {
    assert (log + [e])[..|log|] == log;
    SumMapSet(days, e.localDate, DaysAfter(days, e.localDate)[e.localDate]);
  }

  class ClientStats {
    var totalBloops: nat
    const perMinuteBloops: array<nat>
    const perMinuteDates: array<int>
    const bloopsPerHour: array<nat>
    var bloopsPerDay: map<int, nat>
    ghost var log: seq<Entry>

    ghost const Repr: set<object>

    /** Every counter is a function of the log recorded since the start. */
    ghost predicate Valid()
      reads this, Repr
    {
      && Repr == {this, perMinuteBloops, perMinuteDates, bloopsPerHour}
      && perMinuteBloops != bloopsPerHour
      && perMinuteBloops.Length == perMinuteDates.Length == MINUTES_IN_DAY && bloopsPerHour.Length == 24
      && totalBloops == |log|
      && (forall i :: 0 <= i < MINUTES_IN_DAY ==> Slot(perMinuteDates[i], perMinuteBloops[i]) == SlotAfter(log, i))
      && HoursCounted(bloopsPerHour[..], log)
      && DaysCounted(bloopsPerDay, log)
    }

    constructor ()
      ensures Valid() && log == [] && fresh(Repr)
    {
      totalBloops := 0;
      var counts := new nat[MINUTES_IN_DAY](i => 0);
      var dates := new int[MINUTES_IN_DAY](i => NEVER);
      var hours := new nat[24](i => 0);
      perMinuteBloops, perMinuteDates, bloopsPerHour := counts, dates, hours;
      bloopsPerDay := map[];
      log := [];
      Repr := {this, counts, dates, hours};
      new;
      SumZero(hours[..]);
    }

    method RecordBloop(e: Entry)
      requires Valid() && e.localHour < 24
      modifies Repr
      ensures Valid() && log == old(log) + [e]
    {
      var date, idx := DateOf(e.at), MinuteIndex(e.at);
      MinuteIndexExact(e.at);
      assert (log + [e])[..|log|] == log;
      HoursCountedStep(bloopsPerHour[..], log, e);
      DaysCountedStep(bloopsPerDay, log, e);
      if perMinuteDates[idx] != date {
        perMinuteDates[idx] := date;
        perMinuteBloops[idx] := 1;
      } else {
        perMinuteBloops[idx] := SaturatingIncrement(perMinuteBloops[idx]);
      }
      totalBloops := totalBloops + 1;
      bloopsPerHour[e.localHour] := bloopsPerHour[e.localHour] + 1;
      assert bloopsPerHour[..] == HoursAfter(old(bloopsPerHour[..]), e.localHour);
      bloopsPerDay := DaysAfter(bloopsPerDay, e.localDate);
      log := log + [e];
    }

    method CountLastMinutes(now: Instant, minutes: nat) returns (total: nat)
      requires Valid() && minutes <= MINUTES_IN_DAY
      ensures total == RingSum(log, AbsoluteMinute(now), minutes)
      ensures total <= CappedSum(log, AbsoluteMinute(now), minutes)
      ensures Ordered(log) && (forall e <- log :: e.at <= now) ==> total == CappedSum(log, AbsoluteMinute(now), minutes)
    {
      var nowMinute := MinuteIndex(now);
      MinuteIndexExact(now);
      total := 0;
      for i := 0 to minutes
        invariant total == RingSum(log, AbsoluteMinute(now), i)
      {
        var idx := (nowMinute + MINUTES_IN_DAY - i) % MINUTES_IN_DAY;
        var expectedDate := DateOf(now - i * MINUTE);
        MinuteIndexExact(now - i * MINUTE);
        MinutesBack(now, i);
        assert Slot(perMinuteDates[idx], perMinuteBloops[idx]) == SlotAfter(log, idx);
        if perMinuteDates[idx] == expectedDate {
          total := total + perMinuteBloops[idx];
        }
      }
      WindowNeverOvercounts(log, AbsoluteMinute(now), minutes);
      if Ordered(log) && forall e <- log :: e.at <= now {
        WindowExact(log, now, minutes);
      }
    }
  }

  lemma SumZero(s: seq<nat>)
    requires forall i :: 0 <= i < |s| ==> s[i] == 0
    ensures Sum(s) == 0
  {
    if s != [] { SumZero(s[..|s| - 1]); }
  }

  lemma MinutesBack(now: Instant, i: nat)
    requires i < MINUTES_IN_DAY
    ensures AbsoluteMinute(now - i * MINUTE) == AbsoluteMinute(now) - i
    ensures (AbsoluteMinute(now) % MINUTES_IN_DAY + MINUTES_IN_DAY - i) % MINUTES_IN_DAY == (AbsoluteMinute(now) - i) % MINUTES_IN_DAY
  {
  }

  // ----- The snapshot over all clients -----------------------------------------------------

  datatype Summary = Summary(total: nat, lastHour: nat, last24Hours: nat, perHour: seq<nat>, perDay: map<int, nat>)

  datatype Snapshot = Snapshot(createdAt: Instant, clients: map<ClientId, Summary>, global: Summary)

  ghost function HourTable(log: seq<Entry>): seq<nat> { seq(24, (h: nat) => CountHour(log, h)) }

  ghost function DayTable(log: seq<Entry>): map<int, nat> { map d | d in DatesIn(log) :: CountDate(log, d) }

  ghost function DatesIn(log: seq<Entry>): set<int> { set e | e in log :: e.localDate }

  /** What the counters are meant to say about a log at time `now`. */
  ghost function SummaryOf(log: seq<Entry>, now: Instant): Summary {
    Summary(|log|, RingSum(log, AbsoluteMinute(now), 60), RingSum(log, AbsoluteMinute(now), MINUTES_IN_DAY),
            HourTable(log), DayTable(log))
  }

  lemma {:induction false} DateCounts(log: seq<Entry>, d: int)
    ensures CountDate(log, d) > 0 <==> d in DatesIn(log)
  {
    if log != [] {
      var before := log[..|log| - 1];
      DateCounts(before, d);
      assert log == before + [log[|log| - 1]];
      if d in DatesIn(before) {
        var e :| e in before && e.localDate == d;
        assert e in log;
      }
    }
  }

  lemma TablesExact(hours: seq<nat>, days: map<int, nat>, log: seq<Entry>)
    requires HoursCounted(hours, log) && DaysCounted(days, log)
    ensures hours == HourTable(log) && days == DayTable(log)
  {
    forall d
      ensures d in days <==> d in DatesIn(log)
    {
      DateCounts(log, d);
    }
    assert days.Keys == DatesIn(log);
  }

  lemma {:induction false} TablesCounted(log: seq<Entry>) returns (hours: seq<nat>, days: map<int, nat>)
    requires forall e <- log :: e.localHour < 24
    ensures HoursCounted(hours, log) && DaysCounted(days, log)
  {
    if log == [] {
      hours, days := seq(24, i => 0), map[];
      SumZero(hours);
    } else {
      var before, e := log[..|log| - 1], log[|log| - 1];
      hours, days := TablesCounted(before);
      assert log == before + [e];
      HoursCountedStep(hours, before, e);
      DaysCountedStep(days, before, e);
      hours, days := HoursAfter(hours, e.localHour), DaysAfter(days, e.localDate);
    }
  }

  /** total = sum over hours = sum over days, and last hour <= last 24 hours <= total, for any log. */
  lemma SummaryBalanced(log: seq<Entry>, now: Instant)
    requires forall e <- log :: e.localHour < 24
    ensures var s := SummaryOf(log, now);
            Balanced(s)
  {
    var hours, days := TablesCounted(log);
    TablesExact(hours, days, log);
    SummaryOrdered(log, now);
  }

  /**
   * For a log in order up to `now` and without saturated minutes, a summary says how many bloops
   * there are in all, in the last 60 minutes and in the last 24 hours, the current minute included.
   */
  lemma SummaryExactly(log: seq<Entry>, now: Instant)
    requires Ordered(log) && (forall e <- log :: e.at <= now) && forall m :: CountIn(log, m) <= 255
    ensures var s, minute := SummaryOf(log, now), AbsoluteMinute(now);
            && s.total == |log| && s.lastHour == CountBetween(log, minute - 60, minute)
            && s.last24Hours == CountBetween(log, minute - 24 * 60, minute)
  {
    var minute := AbsoluteMinute(now);
    WindowExact(log, now, 60);
    WindowExact(log, now, MINUTES_IN_DAY);
    WindowCountsAll(log, minute, 60);
    WindowCountsAll(log, minute, MINUTES_IN_DAY);
  }

  ghost function Totals(m: map<ClientId, Summary>): map<ClientId, nat> { map c | c in m :: m[c].total }
  ghost function LastHours(m: map<ClientId, Summary>): map<ClientId, nat> { map c | c in m :: m[c].lastHour }
  ghost function LastDays(m: map<ClientId, Summary>): map<ClientId, nat> { map c | c in m :: m[c].last24Hours }
  ghost function HourColumn(m: map<ClientId, Summary>, h: nat): map<ClientId, nat> {
    map c | c in m :: if h < |m[c].perHour| then m[c].perHour[h] else 0
  }
  ghost function DayColumn(m: map<ClientId, Summary>, d: int): map<ClientId, nat> {
    map c | c in m :: if d in m[c].perDay then m[c].perDay[d] else 0
  }

  ghost function Dates(m: map<ClientId, Summary>): set<int> { set c, d | c in m && d in m[c].perDay :: d }

  /** The summary each of whose fields is the sum of that field over the clients. */
  ghost function SumOf(m: map<ClientId, Summary>): Summary {
    Summary(SumMap(Totals(m)), SumMap(LastHours(m)), SumMap(LastDays(m)), HourSums(m), DaySums(m))
  }

  ghost function HourSums(m: map<ClientId, Summary>): seq<nat> { seq(24, (h: nat) => SumMap(HourColumn(m, h))) }

  ghost function DaySums(m: map<ClientId, Summary>): map<int, nat> { map d | d in Dates(m) :: SumMap(DayColumn(m, d)) }

  method AddHours(a: seq<nat>, b: seq<nat>) returns (r: seq<nat>)
    requires |a| == |b| == 24
    ensures |r| == 24 && forall h :: 0 <= h < 24 ==> r[h] == a[h] + b[h]
  {
    r := a;
    for hour := 0 to 24
      invariant |r| == 24
      invariant forall h :: 0 <= h < 24 ==> r[h] == a[h] + if h < hour then b[h] else 0
    {
      r := r[hour := r[hour] + b[hour]];
    }
  }

  lemma SomeDate(dates: set<int>)
    ensures dates == {} || exists d :: d in dates
  {
    if forall d :: d !in dates { assert dates == {}; }
  }

  method AddDays(a: map<int, nat>, b: map<int, nat>) returns (r: map<int, nat>)
    ensures r.Keys == a.Keys + b.Keys
    ensures forall d :: d in r ==> r[d] == (if d in a then a[d] else 0) + if d in b then b[d] else 0
  {
    r := a;
    var pending: set<int> := b.Keys;
    while pending != {}
      invariant pending <= b.Keys && r.Keys == a.Keys + (b.Keys - pending)
      invariant forall d :: d in r ==>
                  r[d] == (if d in a then a[d] else 0) + if d in b && d !in pending then b[d] else 0
    {
      SomeDate(pending);
      var day :| day in pending;
      pending := pending - {day};
      r := r[day := (if day in r then r[day] else 0) + b[day]];
    }
  }

  lemma SumsGrow(m: map<ClientId, Summary>, c: ClientId, s: Summary)
    requires c !in m
    ensures SumMap(Totals(m[c := s])) == SumMap(Totals(m)) + s.total
    ensures SumMap(LastHours(m[c := s])) == SumMap(LastHours(m)) + s.lastHour
    ensures SumMap(LastDays(m[c := s])) == SumMap(LastDays(m)) + s.last24Hours
  {
    assert Totals(m[c := s]) == Totals(m)[c := s.total];
    SumMapSet(Totals(m), c, s.total);
    assert LastHours(m[c := s]) == LastHours(m)[c := s.lastHour];
    SumMapSet(LastHours(m), c, s.lastHour);
    assert LastDays(m[c := s]) == LastDays(m)[c := s.last24Hours];
    SumMapSet(LastDays(m), c, s.last24Hours);
  }

  lemma HourColumnGrows(m: map<ClientId, Summary>, c: ClientId, s: Summary, h: nat)
    requires c !in m
    ensures SumMap(HourColumn(m[c := s], h)) == SumMap(HourColumn(m, h)) + if h < |s.perHour| then s.perHour[h] else 0
  {
    var v: nat := if h < |s.perHour| then s.perHour[h] else 0;
    assert HourColumn(m[c := s], h) == HourColumn(m, h)[c := v];
    SumMapSet(HourColumn(m, h), c, v);
  }

  lemma DayColumnGrows(m: map<ClientId, Summary>, c: ClientId, s: Summary, d: int)
    requires c !in m
    ensures SumMap(DayColumn(m[c := s], d)) == SumMap(DayColumn(m, d)) + if d in s.perDay then s.perDay[d] else 0
  {
    var v: nat := if d in s.perDay then s.perDay[d] else 0;
    assert DayColumn(m[c := s], d) == DayColumn(m, d)[c := v];
    SumMapSet(DayColumn(m, d), c, v);
  }

  ghost predicate Added(g: Summary, s: Summary, g': Summary) {
    && g'.total == g.total + s.total && g'.lastHour == g.lastHour + s.lastHour && g'.last24Hours == g.last24Hours + s.last24Hours
    && |g.perHour| == |s.perHour| == |g'.perHour| == 24 && (forall h :: 0 <= h < 24 ==> g'.perHour[h] == g.perHour[h] + s.perHour[h])
    && g'.perDay.Keys == g.perDay.Keys + s.perDay.Keys
    && (forall d :: d in g'.perDay ==>
          g'.perDay[d] == (if d in g.perDay then g.perDay[d] else 0) + if d in s.perDay then s.perDay[d] else 0)
  }

  lemma HoursStep(m: map<ClientId, Summary>, c: ClientId, s: Summary, hours: seq<nat>)
    requires c !in m && |s.perHour| == |hours| == 24
    requires forall h :: 0 <= h < 24 ==> hours[h] == HourSums(m)[h] + s.perHour[h]
    ensures hours == HourSums(m[c := s])
  {
    forall h | 0 <= h < 24
      ensures hours[h] == HourSums(m[c := s])[h]
    {
      HourColumnGrows(m, c, s, h);
    }
  }

  lemma DatesGrow(m: map<ClientId, Summary>, c: ClientId, s: Summary)
    requires c !in m
    ensures Dates(m[c := s]) == Dates(m) + s.perDay.Keys
  {
    var m' := m[c := s];
    forall d | d in Dates(m) + s.perDay.Keys
      ensures d in Dates(m')
    {
      if d in s.perDay {
        assert c in m' && d in m'[c].perDay;
      } else {
        var x :| x in m && d in m[x].perDay;
        assert x in m' && d in m'[x].perDay;
      }
    }
  }

  lemma AbsentDate(m: map<ClientId, Summary>, d: int)
    requires d !in Dates(m)
    ensures SumMap(DayColumn(m, d)) == 0
  {
    forall c | c in m
      ensures d !in m[c].perDay
    {
    }
    ZeroMap(DayColumn(m, d));
  }

  lemma {:induction false} ZeroMap(m: map<ClientId, nat>)
    requires forall c :: c in m ==> m[c] == 0
    ensures SumMap(m) == 0
    decreases |m|
  {
    if m != map[] {
      var c :| c in m;
      SumMapRemove(m, c);
      ZeroMap(m - {c});
    }
  }

  lemma DaysStep(m: map<ClientId, Summary>, c: ClientId, s: Summary, days: map<int, nat>)
    requires c !in m && days.Keys == Dates(m) + s.perDay.Keys
    requires forall d :: d in days ==>
               days[d] == (if d in Dates(m) then DaySums(m)[d] else 0) + if d in s.perDay then s.perDay[d] else 0
    ensures days == DaySums(m[c := s])
  {
    DatesGrow(m, c, s);
    forall d | d in days
      ensures days[d] == DaySums(m[c := s])[d]
    {
      DayColumnGrows(m, c, s, d);
      if d !in Dates(m) { AbsentDate(m, d); }
    }
  }

  lemma SumStep(m: map<ClientId, Summary>, c: ClientId, s: Summary, sum: Summary)
    requires c !in m && Added(SumOf(m), s, sum)
    ensures sum == SumOf(m[c := s])
  {
    SumsGrow(m, c, s);
    HoursStep(m, c, s, sum.perHour);
    DaysStep(m, c, s, sum.perDay);
  }

  lemma EmptySum()
    ensures SumOf(map[]) == Summary(0, 0, 0, seq(24, i => 0), map[])
  {
  }

  /** One client's own summary. */
  method Summarise(client: ClientStats, now: Instant) returns (s: Summary)
    requires client.Valid()
    ensures s == SummaryOf(client.log, now)
  {
    var lastHour := client.CountLastMinutes(now, 60);
    var last24Hours := client.CountLastMinutes(now, MINUTES_IN_DAY);
    s := Summary(client.totalBloops, lastHour, last24Hours, client.bloopsPerHour[..], client.bloopsPerDay);
    TablesExact(s.perHour, s.perDay, client.log);
  }

  method AddSummary(g: Summary, s: Summary) returns (sum: Summary)
    requires |g.perHour| == |s.perHour| == 24
    ensures Added(g, s, sum)
  {
    var perHour := AddHours(g.perHour, s.perHour);
    var perDay := AddDays(g.perDay, s.perDay);
    sum := Summary(g.total + s.total, g.lastHour + s.lastHour, g.last24Hours + s.last24Hours, perHour, perDay);
  }

  ghost function SummariesOf(logs: map<ClientId, seq<Entry>>, now: Instant): map<ClientId, Summary> {
    map c | c in logs :: SummaryOf(logs[c], now)
  }

  /** Exactly the clients outside `pending` have been summarised. */
  ghost predicate SummarisedExcept(done: map<ClientId, Summary>, logs: map<ClientId, seq<Entry>>, now: Instant, pending: set<ClientId>) {
    && pending <= logs.Keys && done.Keys == logs.Keys - pending
    && forall c {:trigger done[c]} :: c in done ==> done[c] == SummaryOf(logs[c], now)
  }

  lemma SummarisedNext(done: map<ClientId, Summary>, logs: map<ClientId, seq<Entry>>, now: Instant, pending: set<ClientId>, c: ClientId)
    requires SummarisedExcept(done, logs, now, pending) && c in pending
    ensures SummarisedExcept(done[c := SummaryOf(logs[c], now)], logs, now, pending - {c}) && c !in done
  {
  }

  /** One round of the loop: the client's summary is recorded and added to the global one. */
  method Absorb(g: Summary, done: map<ClientId, Summary>, c: ClientId, client: ClientStats, ghost logs: map<ClientId, seq<Entry>>,
                now: Instant, ghost pending: set<ClientId>)
    returns (sum: Summary, done': map<ClientId, Summary>)
    requires SummarisedExcept(done, logs, now, pending) && c in pending && Shows(client, logs[c]) && g == SumOf(done)
    ensures SummarisedExcept(done', logs, now, pending - {c}) && sum == SumOf(done')
  {
    var summary := Summarise(client, now);
    SummarisedNext(done, logs, now, pending, c);
    sum := AddSummary(g, summary);
    SumStep(done, c, summary, sum);
    done' := done[c := summary];
  }

  /** The loop over the clients, in any order, accumulates the pointwise sum. */
  method SumClients(clients: map<ClientId, ClientStats>, ghost logs: map<ClientId, seq<Entry>>, now: Instant, zero: Summary)
    returns (done: map<ClientId, Summary>, global: Summary)
    requires Showing(clients, logs) && zero == SumOf(map[])
    ensures SummarisedExcept(done, logs, now, {}) && global == SumOf(done)
  {
    done, global := map[], zero;
    var pending := clients.Keys;
    while pending != {}
      invariant SummarisedExcept(done, logs, now, pending)
      invariant global == SumOf(done)
    {
      var c :| c in pending;
      assert Shows(clients[c], logs[c]);
      global, done := Absorb(global, done, c, clients[c], logs, now, pending);
      pending := pending - {c};
    }
  }

  lemma SummariesExact(done: map<ClientId, Summary>, logs: map<ClientId, seq<Entry>>, now: Instant)
    requires SummarisedExcept(done, logs, now, {})
    ensures done == SummariesOf(logs, now)
  {
  }

  method ComputeSnapshot(clients: map<ClientId, ClientStats>, ghost logs: map<ClientId, seq<Entry>>, now: Instant) returns (s: Snapshot)
    requires Showing(clients, logs)
    ensures s.createdAt == now && IsSnapshot(s, logs)
  {
    EmptySum();
    var done, global := SumClients(clients, logs, now, Summary(0, 0, 0, seq(24, i => 0), map[]));
    SummariesExact(done, logs, now);
    s := Snapshot(now, done, global);
  }

  /** The client's counters are those of this log. */
  ghost predicate Shows(client: ClientStats, log: seq<Entry>)
    reads client, client.Repr
  {
    client.Valid() && client.log == log
  }

  /** Every client's counters show its log. */
  ghost predicate Showing(clients: map<ClientId, ClientStats>, logs: map<ClientId, seq<Entry>>)
    reads clients.Values, set c, o | c in clients && o in clients[c].Repr :: o
  {
    logs.Keys == clients.Keys && forall c {:trigger Shows(clients[c], logs[c])} :: c in clients ==> Shows(clients[c], logs[c])
  }

  /** Exact per client, and their pointwise sum globally. */
  ghost predicate IsSnapshot(s: Snapshot, logs: map<ClientId, seq<Entry>>) {
    s.clients == SummariesOf(logs, s.createdAt) && s.global == SumOf(s.clients)
  }

  // ----- The balance of the global summary ---------------------------------------------------

  lemma {:induction false} SumPointwise(a: seq<nat>, b: seq<nat>, r: seq<nat>)
    requires |a| == |b| == |r| && forall i :: 0 <= i < |r| ==> r[i] == a[i] + b[i]
    ensures Sum(r) == Sum(a) + Sum(b)
  {
    if r != [] {
      var n := |r| - 1;
      SumPointwise(a[..n], b[..n], r[..n]);
    }
  }

  function CountOn(days: map<int, nat>, d: int): nat { if d in days then days[d] else 0 }

  lemma SumMapWithout(m: map<int, nat>, d: int)
    ensures SumMap(m) == CountOn(m, d) + SumMap(m - {d})
  {
    if d in m { SumMapRemove(m, d); } else { assert m - {d} == m; }
  }

  ghost predicate Pointwise(a: map<int, nat>, b: map<int, nat>, r: map<int, nat>) {
    r.Keys == a.Keys + b.Keys && forall d {:trigger r[d]} :: d in r ==> r[d] == CountOn(a, d) + CountOn(b, d)
  }

  lemma PointwiseWithout(a: map<int, nat>, b: map<int, nat>, r: map<int, nat>, d: int)
    requires Pointwise(a, b, r)
    ensures Pointwise(a - {d}, b - {d}, r - {d}) && CountOn(r, d) == CountOn(a, d) + CountOn(b, d)
  {
  }

  lemma {:induction false} SumMapPointwise(a: map<int, nat>, b: map<int, nat>, r: map<int, nat>)
    requires Pointwise(a, b, r)
    ensures SumMap(r) == SumMap(a) + SumMap(b)
    decreases |r|
  {
    SomeDate(r.Keys);
    if r.Keys == {} {
      assert a == map[] && b == map[] && r == map[];
    } else {
      var d :| d in r.Keys;
      SumMapWithout(a, d);
      SumMapWithout(b, d);
      SumMapWithout(r, d);
      PointwiseWithout(a, b, r, d);
      SumMapPointwise(a - {d}, b - {d}, r - {d});
    }
  }

  ghost predicate Balanced(s: Summary) {
    |s.perHour| == 24 && s.total == Sum(s.perHour) == SumMap(s.perDay) && s.lastHour <= s.last24Hours <= s.total
  }

  lemma AddedBalanced(g: Summary, s: Summary, g': Summary)
    requires Balanced(g) && Balanced(s) && Added(g, s, g')
    ensures Balanced(g')
  {
    SumPointwise(g.perHour, s.perHour, g'.perHour);
    SumMapPointwise(g.perDay, s.perDay, g'.perDay);
  }

  ghost function Plus(g: Summary, s: Summary): Summary
    requires |g.perHour| == |s.perHour| == 24
  {
    Summary(g.total + s.total, g.lastHour + s.lastHour, g.last24Hours + s.last24Hours,
            seq(24, (h: nat) requires h < 24 => g.perHour[h] + s.perHour[h]),
            map d | d in g.perDay.Keys + s.perDay.Keys :: CountOn(g.perDay, d) + CountOn(s.perDay, d))
  }

  lemma SumBalancedStep(m: map<ClientId, Summary>, c: ClientId, s: Summary)
    requires c !in m && Balanced(SumOf(m)) && Balanced(s)
    ensures Balanced(SumOf(m[c := s]))
  {
    var g := SumOf(m);
    assert Added(g, s, Plus(g, s));
    SumStep(m, c, s, Plus(g, s));
    AddedBalanced(g, s, Plus(g, s));
  }

  lemma EmptyBalanced()
    ensures Balanced(SumOf(map[]))
  {
    EmptySum();
    SumZero(seq(24, i => 0));
  }

  lemma PutBack(m: map<ClientId, Summary>, c: ClientId)
    requires c in m
    ensures (m - {c})[c := m[c]] == m
  {
  }

  /** If every client's summary balances, so does the global one. */
  lemma {:induction false} SumBalanced(m: map<ClientId, Summary>)
    requires forall c {:trigger m[c]} :: c in m ==> Balanced(m[c])
    ensures Balanced(SumOf(m))
    decreases |m|
  {
    if m == map[] {
      EmptyBalanced();
    } else {
      var c :| c in m;
      var rest := m - {c};
      SumBalanced(rest);
      SumBalancedStep(rest, c, m[c]);
      PutBack(m, c);
    }
  }

  // ----- From the event stream to the clients' logs ------------------------------------------

  datatype Recorded = Recorded(client: ClientId, entry: Entry)

  /** The entry joins its client's log, which starts empty. */
  function LogsAfter(logs: map<ClientId, seq<Entry>>, r: Recorded): map<ClientId, seq<Entry>> {
    logs[r.client := (if r.client in logs then logs[r.client] else []) + [r.entry]]
  }

  ghost function Dispatched(events: seq<Recorded>): map<ClientId, seq<Entry>> {
    if events == [] then map[] else LogsAfter(Dispatched(events[..|events| - 1]), events[|events| - 1])
  }

  /** A client's own entries, in the order of the stream. */
  ghost function OwnEntries(events: seq<Recorded>, c: ClientId): seq<Entry> {
    if events == [] then []
    else
      var last := events[|events| - 1];
      OwnEntries(events[..|events| - 1], c) + if last.client == c then [last.entry] else []
  }

  /** Every client's log is exactly its part of the stream; clients without events have none. */
  lemma {:induction false} DispatchExact(events: seq<Recorded>, c: ClientId)
    ensures c in Dispatched(events) <==> OwnEntries(events, c) != []
    ensures c in Dispatched(events) ==> Dispatched(events)[c] == OwnEntries(events, c)
  {
    if events != [] { DispatchExact(events[..|events| - 1], c); }
  }

  ghost function Lengths(logs: map<ClientId, seq<Entry>>): map<ClientId, nat> { map c | c in logs :: |logs[c]| }

  lemma {:induction false} DispatchTotal(events: seq<Recorded>)
    ensures SumMap(Lengths(Dispatched(events))) == |events|
  {
    if events != [] {
      var before, last := Dispatched(events[..|events| - 1]), events[|events| - 1];
      DispatchTotal(events[..|events| - 1]);
      var n: nat := |LogsAfter(before, last)[last.client]|;
      assert Lengths(LogsAfter(before, last)) == Lengths(before)[last.client := n];
      SumMapSet(Lengths(before), last.client, n);
    }
  }

  lemma {:induction false} DispatchedHours(events: seq<Recorded>, c: ClientId)
    requires forall r <- events :: r.entry.localHour < 24
    ensures c in Dispatched(events) ==> forall e: Entry <- Dispatched(events)[c] :: e.localHour < 24
  {
    if events != [] { DispatchedHours(events[..|events| - 1], c); }
  }

  /**
   * For every stream of events from empty statistics, the global summary counts each event once:
   * total = number of events = sum over hours = sum over days, and last hour <= last 24 hours <= total.
   */
  lemma GlobalExact(events: seq<Recorded>, now: Instant)
    requires forall r <- events :: r.entry.localHour < 24
    ensures var global := SumOf(SummariesOf(Dispatched(events), now));
            global.total == |events| && Balanced(global)
  {
    var logs := Dispatched(events);
    forall c | c in logs
      ensures forall e: Entry <- logs[c] :: e.localHour < 24
    {
      DispatchedHours(events, c);
    }
    SummariesBalanced(logs, now);
    DispatchTotal(events);
    TotalsAreLengths(logs, now);
  }

  lemma SummariesBalanced(logs: map<ClientId, seq<Entry>>, now: Instant)
    requires forall c {:trigger logs[c]} :: c in logs ==> forall e: Entry <- logs[c] :: e.localHour < 24
    ensures Balanced(SumOf(SummariesOf(logs, now)))
  {
    var m := SummariesOf(logs, now);
    forall c | c in m
      ensures Balanced(m[c])
    {
      SummaryBalanced(logs[c], now);
    }
    SumBalanced(m);
  }

  lemma TotalsAreLengths(logs: map<ClientId, seq<Entry>>, now: Instant)
    ensures SumOf(SummariesOf(logs, now)).total == SumMap(Lengths(logs))
  {
    var m := SummariesOf(logs, now);
    assert forall c :: c in logs ==> m[c].total == |logs[c]|;
    assert Totals(m) == Lengths(logs);
  }

  /** No two clients share counters. */
  ghost predicate Separate(clients: map<ClientId, ClientStats>) {
    forall a, b :: a in clients && b in clients && a != b ==> clients[a].Repr !! clients[b].Repr
  }

  /** A known client's counters record the entry. */
  method RecordKnown(clients: map<ClientId, ClientStats>, ghost logs: map<ClientId, seq<Entry>>, r: Recorded)
    requires Showing(clients, logs) && Separate(clients) && r.client in clients && r.entry.localHour < 24
    modifies clients[r.client].Repr
    ensures Showing(clients, LogsAfter(logs, r)) && Separate(clients)
  {
    assert Shows(clients[r.client], logs[r.client]);
    clients[r.client].RecordBloop(r.entry);
    forall c | c in clients
      ensures Shows(clients[c], LogsAfter(logs, r)[c])
    {
      if c != r.client { assert old(Shows(clients[c], logs[c])); }
    }
  }

  /** A client seen for the first time starts with fresh counters. */
  method AddClient(clients: map<ClientId, ClientStats>, ghost logs: map<ClientId, seq<Entry>>, c: ClientId)
    returns (clients': map<ClientId, ClientStats>)
    requires Showing(clients, logs) && Separate(clients) && c !in clients
    ensures Showing(clients', logs[c := []]) && Separate(clients') && c in clients' && fresh(clients'[c].Repr)
  {
    var added := new ClientStats();
    clients' := clients[c := added];
    forall k | k in clients'
      ensures Shows(clients'[k], logs[c := []][k])
    {
      if k != c { assert old(Shows(clients[k], logs[k])); }
    }
  }

  /** `StatsTracker::record_bloop`: the client's counters, created on its first bloop, record the entry. */
  method RecordFor(clients: map<ClientId, ClientStats>, ghost logs: map<ClientId, seq<Entry>>, r: Recorded)
    returns (clients': map<ClientId, ClientStats>)
    requires Showing(clients, logs) && Separate(clients) && r.entry.localHour < 24
    modifies if r.client in clients then clients[r.client].Repr else {}
    ensures Showing(clients', LogsAfter(logs, r)) && Separate(clients')
  {
    if r.client in clients {
      clients' := clients;
      RecordKnown(clients, logs, r);
    } else {
      clients' := AddClient(clients, logs, r.client);
      RecordKnown(clients', logs[r.client := []], r);
      assert LogsAfter(logs[r.client := []], r) == LogsAfter(logs, r);
    }
  }

  /** The snapshot is recomputed only once the cached one is a minute old. */
  class SnapshotCache {
    var cached: Option<Snapshot>
    /** What every client had recorded when the cached snapshot was taken. */
    ghost var cachedLogs: map<ClientId, seq<Entry>>

    ghost predicate Valid()
      reads this
    {
      cached.Some? ==> IsSnapshot(cached.value, cachedLogs)
    }

    constructor ()
      ensures Valid() && cached.None?
    {
      cached, cachedLogs := None, map[];
    }

    /** A served snapshot is under a minute old and exact for the logs it was taken of. */
    method TakeSnapshot(clients: map<ClientId, ClientStats>, ghost logs: map<ClientId, seq<Entry>>, now: Instant) returns (s: Snapshot)
      requires Valid() && Showing(clients, logs)
      modifies this
      ensures Valid() && cached == Some(s) && s.createdAt > now - MINUTE
      ensures if old(cached.Some? && cached.value.createdAt > now - MINUTE) then cached == old(cached) && cachedLogs == old(cachedLogs)
              else s.createdAt == now && cachedLogs == logs
    {
      if cached.Some? && cached.value.createdAt > now - MINUTE {
        return cached.value;
      }
      s := ComputeSnapshot(clients, logs, now);
      cached := Some(s);
      cachedLogs := logs;
    }
  }
}
