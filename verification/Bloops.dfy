/**
 * The time-limited bloop histories: a collection that prunes lazily from its old end, and a
 * provider that keeps one such collection globally and one per client.
 *
 * Every `Utc::now()` reading is an argument. The pure functions give each operation's meaning
 * on values; the classes below update fields in place and are proved to realise them.
 */
module Bloops {
  import opened Types
  import opened Sequences
  import opened StableSort

  datatype Bloop = Bloop(player: Uuid, client: ClientId, at: Instant)

  function Since(t: Instant): Bloop -> bool { (b: Bloop) => b.at >= t }
  function ByPlayer(p: Uuid): Bloop -> bool { (b: Bloop) => b.player == p }
  function AtClient(c: ClientId): Bloop -> bool { (b: Bloop) => b.client == c }

  /** The sort key `Reverse(recorded_at)`. */
  function NewestFirst(): Bloop -> int { (b: Bloop) => -b.at }

  // ----- A single collection ---------------------------------------------------

  /** What remains after popping stale bloops off the back. */
  function DropStale(s: seq<Bloop>, threshold: Instant): seq<Bloop> {
    if s != [] && s[|s| - 1].at < threshold then DropStale(s[..|s| - 1], threshold) else s
  }

  function Added(s: seq<Bloop>, b: Bloop, threshold: Instant): seq<Bloop> {
    [b] + DropStale(s, threshold)
  }

  /** `kept` is a newest part of `history`, and whatever is missing is older than `horizon`. */
  ghost predicate Covers(kept: seq<Bloop>, history: seq<Bloop>, horizon: Instant) {
    if kept == [] then forall b <- history :: b.at < horizon
    else history != [] && kept[0] == history[0] && Covers(kept[1..], history[1..], horizon)
  }

  lemma {:induction false} DropStaleCovers(s: seq<Bloop>, threshold: Instant)
    ensures Covers(DropStale(s, threshold), s, threshold)
  {
    if s == [] {
    } else if s[|s| - 1].at < threshold {
      DropStaleCovers(s[..|s| - 1], threshold);
      CoversExtend(DropStale(s, threshold), s[..|s| - 1], s[|s| - 1], threshold);
      assert s == s[..|s| - 1] + [s[|s| - 1]];
    } else {
      CoversItself(s, threshold);
    }
  }

  lemma {:induction false} CoversItself(s: seq<Bloop>, horizon: Instant)
    ensures Covers(s, s, horizon)
  {
    if s != [] { CoversItself(s[1..], horizon); }
  }

  lemma {:induction false} CoversExtend(kept: seq<Bloop>, history: seq<Bloop>, b: Bloop, horizon: Instant)
    requires Covers(kept, history, horizon) && b.at < horizon
    ensures Covers(kept, history + [b], horizon)
  {
    if kept != [] {
      CoversExtend(kept[1..], history[1..], b, horizon);
      assert (history + [b])[1..] == history[1..] + [b];
    }
  }

  lemma {:induction false} CoversTransitive(a: seq<Bloop>, kept: seq<Bloop>, history: seq<Bloop>, horizon: Instant, later: Instant)
    requires Covers(a, kept, later) && Covers(kept, history, horizon) && horizon <= later
    ensures Covers(a, history, later)
  {
    if a != [] {
      CoversTransitive(a[1..], kept[1..], history[1..], horizon, later);
    } else if kept != [] {
      CoversTransitive(a, kept[1..], history[1..], horizon, later);
    }
  }

  /** On a history ordered newest first, popping from the back equals filtering by age. */
  lemma {:induction false} DropStaleIsFilter(s: seq<Bloop>, threshold: Instant)
    requires Sorted(s, NewestFirst())
    ensures DropStale(s, threshold) == Filter(s, Since(threshold))
  {
    if s != [] {
      var front, last := s[..|s| - 1], s[|s| - 1];
      assert s == front + [last];
      FilterConcat(front, [last], Since(threshold));
      if last.at < threshold {
        DropStaleIsFilter(front, threshold);
        FilterNone([last], Since(threshold));
      } else {
        assert forall b <- s :: NewestFirst()(b) <= NewestFirst()(last);
        FilterAll(s, Since(threshold));
      }
    }
  }

  /** In a history listed newest first, the bloops of a window are its first ones. */
  lemma {:induction false} WindowIsPrefix(s: seq<Bloop>, since: Instant) returns (m: nat)
    requires Sorted(s, NewestFirst())
    ensures m <= |s| && Filter(s, Since(since)) == s[..m]
    ensures forall i :: 0 <= i < |s| ==> (s[i].at >= since <==> i < m)
  {
    if s == [] {
      m := 0;
    } else if s[0].at >= since {
      m := WindowIsPrefix(s[1..], since);
      m := m + 1;
      assert forall i :: 1 <= i < |s| ==> s[i] == s[1..][i - 1];
    } else {
      m := 0;
      assert forall i :: 1 <= i < |s| ==> NewestFirst()(s[0]) <= NewestFirst()(s[i]);
      FilterNone(s, Since(since));
    }
  }

  lemma AddedCovers(kept: seq<Bloop>, history: seq<Bloop>, b: Bloop, horizon: Instant, threshold: Instant, later: Instant)
    requires Covers(kept, history, horizon) && horizon <= threshold <= later
    ensures Covers(Added(kept, b, threshold), [b] + history, later)
  {
    var rest := DropStale(kept, threshold);
    DropStaleCovers(kept, threshold);
    CoversTransitive(rest, kept, history, horizon, threshold);
    CoversItself(rest, later);
    CoversTransitive(rest, rest, history, threshold, later);
    assert ([b] + rest)[1..] == rest && ([b] + history)[1..] == history;
  }

  /** Inside the retained window a pruned collection answers like the complete history. */
  lemma {:induction false} CoversWindow(kept: seq<Bloop>, history: seq<Bloop>, horizon: Instant, since: Instant)
    requires Covers(kept, history, horizon) && horizon <= since
    ensures Filter(kept, Since(since)) == Filter(history, Since(since))
  {
    if kept == [] {
      FilterNone(history, Since(since));
    } else {
      CoversWindow(kept[1..], history[1..], horizon, since);
    }
  }

  /** `BloopCollection::add` on the collection's deque, which its owner holds by value. */
  method AddToCollection(collection: seq<Bloop>, maxAge: Duration, b: Bloop, now: Instant) returns (bloops: seq<Bloop>)
    ensures bloops == Added(collection, b, now - maxAge)
  {
    bloops := collection;
    var threshold := now - maxAge;
    while bloops != [] && bloops[|bloops| - 1].at < threshold
      invariant DropStale(bloops, threshold) == DropStale(collection, threshold)
      decreases |bloops|
    {
      bloops := bloops[..|bloops| - 1];
    }
    bloops := [b] + bloops;
  }

  // ----- The provider ----------------------------------------------------------

  datatype Histories = Histories(global: seq<Bloop>, perClient: map<ClientId, seq<Bloop>>, maxAge: Duration) {

    function ForClient(c: ClientId): seq<Bloop> {
      if c in perClient then perClient[c] else []
    }

    /** The two collections read the clock separately. */
    function Add(b: Bloop, globalNow: Instant, clientNow: Instant): Histories {
      this.(global := Added(global, b, globalNow - maxAge),
            perClient := perClient[b.client := Added(ForClient(b.client), b, clientNow - maxAge)])
    }
  }

  /** The histories built from stored bloops: every client's own bloops, sorted newest first. */
  ghost predicate Initial(h: Histories, maxAge: Duration, initial: seq<Bloop>) {
    && h.maxAge == maxAge
    && h.global == Sort(initial, NewestFirst())
    && h.perClient.Keys == Clients(initial)
    && forall c :: c in h.perClient ==> h.perClient[c] == Sort(Filter(initial, AtClient(c)), NewestFirst())
  }

  function Clients(s: seq<Bloop>): set<ClientId> { set b | b in s :: b.client }

  /** The global view and the view of client `c` cover the history up to `maxAge` before `clock`. */
  ghost predicate Retains(h: Histories, history: seq<Bloop>, clock: Instant, c: ClientId) {
    && Covers(h.global, history, clock - h.maxAge)
    && Covers(h.ForClient(c), Filter(history, AtClient(c)), clock - h.maxAge)
  }

  /** The stable sort commutes with selecting one client, so both kinds of view start equal. */
  lemma InitialForClient(h: Histories, maxAge: Duration, initial: seq<Bloop>, c: ClientId)
    requires Initial(h, maxAge, initial)
    ensures h.ForClient(c) == Filter(Sort(initial, NewestFirst()), AtClient(c))
  {
    SortFilter(initial, NewestFirst(), AtClient(c));
    if c !in Clients(initial) {
      FilterNone(initial, AtClient(c));
    }
  }

  lemma InitialRetains(h: Histories, maxAge: Duration, initial: seq<Bloop>, clock: Instant, c: ClientId)
    requires Initial(h, maxAge, initial)
    ensures Retains(h, Sort(initial, NewestFirst()), clock, c)
  {
    InitialForClient(h, maxAge, initial, c);
    UnprunedRetains(h, Sort(initial, NewestFirst()), clock, c);
  }

  lemma UnprunedRetains(h: Histories, history: seq<Bloop>, clock: Instant, c: ClientId)
    requires h.global == history && h.ForClient(c) == Filter(history, AtClient(c))
    ensures Retains(h, history, clock, c)
  {
    CoversItself(history, clock - h.maxAge);
    CoversItself(h.ForClient(c), clock - h.maxAge);
  }

  lemma AddRetainsClient(kept: seq<Bloop>, history: seq<Bloop>, b: Bloop, horizon: Instant, threshold: Instant, c: ClientId)
    requires Covers(kept, Filter(history, AtClient(c)), horizon) && horizon <= threshold
    ensures Covers(if c == b.client then Added(kept, b, threshold) else kept, Filter([b] + history, AtClient(c)), threshold)
  {
    FilterCons(b, history, AtClient(c));
    if c == b.client {
      AddedCovers(kept, Filter(history, AtClient(c)), b, horizon, threshold, threshold);
    } else {
      CoversItself(kept, threshold);
      CoversTransitive(kept, kept, Filter(history, AtClient(c)), horizon, threshold);
    }
  }

  lemma AddForClient(h: Histories, b: Bloop, globalNow: Instant, clientNow: Instant, c: ClientId)
    ensures h.Add(b, globalNow, clientNow).ForClient(c) ==
            if c == b.client then Added(h.ForClient(c), b, clientNow - h.maxAge) else h.ForClient(c)
  {
  }

  lemma AddRetains(h: Histories, history: seq<Bloop>, clock: Instant, b: Bloop, globalNow: Instant, clientNow: Instant,
                   c: ClientId)
    requires Retains(h, history, clock, c) && clock <= globalNow <= clientNow
    ensures Retains(h.Add(b, globalNow, clientNow), [b] + history, clientNow, c)
  {
    var h', horizon, later := h.Add(b, globalNow, clientNow), clock - h.maxAge, clientNow - h.maxAge;
    assert Covers(h'.global, [b] + history, later) by {
      AddedCovers(h.global, history, b, horizon, globalNow - h.maxAge, later);
    }
    assert Covers(h'.ForClient(c), Filter([b] + history, AtClient(c)), later) by {
      AddForClient(h, b, globalNow, clientNow, c);
      AddRetainsClient(h.ForClient(c), history, b, horizon, later, c);
    }
  }

  lemma LaterRetains(h: Histories, history: seq<Bloop>, clock: Instant, later: Instant, c: ClientId)
    requires Retains(h, history, clock, c) && clock <= later
    ensures Retains(h, history, later, c)
  {
    var horizon, horizon' := clock - h.maxAge, later - h.maxAge;
    CoversItself(h.global, horizon');
    CoversTransitive(h.global, h.global, history, horizon, horizon');
    CoversItself(h.ForClient(c), horizon');
    CoversTransitive(h.ForClient(c), h.ForClient(c), Filter(history, AtClient(c)), horizon, horizon');
  }

  /** For windows no longer than `maxAge` all three histories give the same sequence. */
  lemma WindowsAgree(h: Histories, history: seq<Bloop>, clock: Instant, c: ClientId, now: Instant, window: Duration)
    requires Retains(h, history, clock, c) && clock <= now && window <= h.maxAge
    ensures var since := Since(now - window);
            && Filter(h.ForClient(c), since) == Filter(Filter(history, AtClient(c)), since)
            && Filter(Filter(h.global, AtClient(c)), since) == Filter(Filter(history, AtClient(c)), since)
            && Filter(h.global, since) == Filter(history, since)
  {
    var horizon, since := clock - h.maxAge, now - window;
    CoversWindow(h.ForClient(c), Filter(history, AtClient(c)), horizon, since);
    CoversWindow(h.global, history, horizon, since);
    FilterCommutes(h.global, AtClient(c), Since(since));
    FilterCommutes(history, AtClient(c), Since(since));
  }

  // ----- Whole runs of the provider --------------------------------------------

  /** One `add`, with the two clock readings it makes. */
  datatype AddCall = AddCall(bloop: Bloop, globalNow: Instant, clientNow: Instant)

  ghost predicate ClockRuns(clock: Instant, calls: seq<AddCall>)
    decreases |calls|
  {
    calls == [] ||
    (clock <= calls[0].globalNow <= calls[0].clientNow && ClockRuns(calls[0].clientNow, calls[1..]))
  }

  ghost function RunAdds(h: Histories, calls: seq<AddCall>): Histories
    decreases |calls|
  {
    if calls == [] then h
    else RunAdds(h.Add(calls[0].bloop, calls[0].globalNow, calls[0].clientNow), calls[1..])
  }

  /** Everything ever recorded, newest first. */
  ghost function Recorded(history: seq<Bloop>, calls: seq<AddCall>): seq<Bloop>
    decreases |calls|
  {
    if calls == [] then history else Recorded([calls[0].bloop] + history, calls[1..])
  }

  ghost function LastReading(clock: Instant, calls: seq<AddCall>): Instant
    decreases |calls|
  {
    if calls == [] then clock else LastReading(calls[0].clientNow, calls[1..])
  }

  lemma {:induction false} RunRetains(h: Histories, history: seq<Bloop>, clock: Instant, calls: seq<AddCall>, c: ClientId)
    requires Retains(h, history, clock, c) && ClockRuns(clock, calls)
    ensures RunAdds(h, calls).maxAge == h.maxAge
    ensures Retains(RunAdds(h, calls), Recorded(history, calls), LastReading(clock, calls), c)
    decreases |calls|
  {
    if calls != [] {
      var call := calls[0];
      AddRetains(h, history, clock, call.bloop, call.globalNow, call.clientNow, c);
      RunRetains(h.Add(call.bloop, call.globalNow, call.clientNow), [call.bloop] + history, call.clientNow, calls[1..], c);
    }
  }

  /**
   * Over every run that starts from any set of stored bloops under a nondecreasing clock, the
   * per-client view, the global view restricted to the client and the never-pruned history
   * agree on every window no longer than the retention.
   */
  lemma ViewsAgreeInEveryRun(h0: Histories, maxAge: Duration, initial: seq<Bloop>, start: Instant, calls: seq<AddCall>,
                             c: ClientId, now: Instant, window: Duration)
    requires Initial(h0, maxAge, initial)
    requires ClockRuns(start, calls) && LastReading(start, calls) <= now && window <= maxAge
    ensures var h := RunAdds(h0, calls);
            var complete := Recorded(Sort(initial, NewestFirst()), calls);
            var since := Since(now - window);
            && Filter(h.ForClient(c), since) == Filter(Filter(complete, AtClient(c)), since)
            && Filter(Filter(h.global, AtClient(c)), since) == Filter(Filter(complete, AtClient(c)), since)
            && Filter(h.global, since) == Filter(complete, since)
  {
    var history := Sort(initial, NewestFirst());
    InitialRetains(h0, maxAge, initial, start, c);
    RunRetains(h0, history, start, calls, c);
    WindowsAgree(RunAdds(h0, calls), Recorded(history, calls), LastReading(start, calls), c, now, window);
  }

  /** After this run, if the clock permits it, the client's view and the restricted global view agree on the window. */
  ghost predicate AgreeAfter(h0: Histories, initial: seq<Bloop>, start: Instant, calls: seq<AddCall>, c: ClientId,
                             now: Instant, window: Duration) {
    Initial(h0, h0.maxAge, initial) && ClockRuns(start, calls) && LastReading(start, calls) <= now ==>
      Filter(RunAdds(h0, calls).ForClient(c), Since(now - window)) ==
      Filter(Filter(RunAdds(h0, calls).global, AtClient(c)), Since(now - window))
  }

  /**
   * The views agree in every run exactly when the window is no longer than the retention: beyond
   * it, the global history prunes on every bloop while a quiet client's own does not.
   */
  lemma ViewsAgreeExactly(maxAge: Duration, window: Duration)
    ensures (forall h0: Histories, initial, start, calls, c, now ::
               h0.maxAge == maxAge ==> AgreeAfter(h0, initial, start, calls, c, now, window)) <==>
            window <= maxAge
  {
    if window <= maxAge {
      forall h0: Histories, initial, start, calls, c, now | h0.maxAge == maxAge
        ensures AgreeAfter(h0, initial, start, calls, c, now, window)
      {
        if Initial(h0, maxAge, initial) && ClockRuns(start, calls) && LastReading(start, calls) <= now {
          ViewsAgreeInEveryRun(h0, maxAge, initial, start, calls, c, now, window);
        }
      }
    } else {
      ViewsDisagreeBeyondRetention(maxAge, window);
      assert !AgreeAfter(Histories([], map[], maxAge), [], 0, QuietClient(maxAge), 7, maxAge + 1, window);
    }
  }

  /** A bloop at client 7, and just after the retention another at client 8. */
  function QuietClient(maxAge: Duration): seq<AddCall> {
    [AddCall(Bloop(1, 7, 0), 0, 0), AddCall(Bloop(2, 8, maxAge + 1), maxAge + 1, maxAge + 1)]
  }

  lemma ViewsDisagreeBeyondRetention(maxAge: Duration, window: Duration)
    requires window > maxAge
    ensures var h0, calls := Histories([], map[], maxAge), QuietClient(maxAge);
            && Initial(h0, maxAge, []) && ClockRuns(0, calls) && LastReading(0, calls) == maxAge + 1
            && Filter(RunAdds(h0, calls).ForClient(7), Since(maxAge + 1 - window)) == [Bloop(1, 7, 0)]
            && Filter(Filter(RunAdds(h0, calls).global, AtClient(7)), Since(maxAge + 1 - window)) == []
  {
    var first, second := Bloop(1, 7, 0), Bloop(2, 8, maxAge + 1);
    var h0, calls := Histories([], map[], maxAge), QuietClient(maxAge);
    var h1 := h0.Add(first, 0, 0);
    var h2 := h1.Add(second, maxAge + 1, maxAge + 1);
    assert calls[1..] == [AddCall(second, maxAge + 1, maxAge + 1)] && calls[1..][1..] == [];
    assert RunAdds(h0, calls) == RunAdds(h1, calls[1..]) == RunAdds(h2, []) == h2;
    assert ClockRuns(0, calls[1..]);
    assert LastReading(0, calls) == LastReading(0, calls[1..]) == LastReading(maxAge + 1, []);
    assert h1.global == [first] && h1.ForClient(7) == [first];
    assert DropStale([first], 1) == DropStale([first][..0], 1) == [];
    assert h2.global == [second] && h2.ForClient(7) == [first];
  }

  // ----- The provider as an object -----------------------------------------------

  /** The bloops of each client, in their original order. */
  ghost predicate Grouped(groups: map<ClientId, seq<Bloop>>, s: seq<Bloop>) {
    && groups.Keys == Clients(s)
    && forall c :: c in groups ==> groups[c] == Filter(s, AtClient(c))
  }

  /** The loop that distributes stored bloops over their clients. */
  method GroupByClient(initial: seq<Bloop>) returns (groups: map<ClientId, seq<Bloop>>)
    ensures Grouped(groups, initial)
  {
    groups := map[];
    for i := 0 to |initial|
      invariant Grouped(groups, initial[..i])
    {
      var b := initial[i];
      assert initial[..i + 1] == initial[..i] + [b];
      GroupStep(groups, initial[..i], b);
      groups := groups[b.client := (if b.client in groups then groups[b.client] else []) + [b]];
    }
    assert initial[..|initial|] == initial;
  }

  lemma GroupStep(groups: map<ClientId, seq<Bloop>>, s: seq<Bloop>, b: Bloop)
    requires Grouped(groups, s)
    ensures Grouped(groups[b.client := (if b.client in groups then groups[b.client] else []) + [b]], s + [b])
  {
    var own := (if b.client in groups then groups[b.client] else []) + [b];
    var groups' := groups[b.client := own];
    ClientsGrow(s, b);
    forall c | c in groups'
      ensures groups'[c] == Filter(s + [b], AtClient(c))
    {
      OwnGrow(s, b, c);
    }
  }

  lemma ClientsGrow(s: seq<Bloop>, b: Bloop)
    ensures Clients(s + [b]) == Clients(s) + {b.client}
  {
  }

  lemma OwnGrow(s: seq<Bloop>, b: Bloop, c: ClientId)
    ensures Filter(s + [b], AtClient(c)) == if c == b.client then Filter(s, AtClient(c)) + [b] else Filter(s, AtClient(c))
    ensures c !in Clients(s) ==> Filter(s, AtClient(c)) == []
  {
    FilterConcat(s, [b], AtClient(c));
    if c !in Clients(s) { FilterNone(s, AtClient(c)); }
  }

  /** One sorted collection per client, built in whatever order the groups are visited. */
  method SortGroups(groups: map<ClientId, seq<Bloop>>) returns (collections: map<ClientId, seq<Bloop>>)
    ensures collections.Keys == groups.Keys
    ensures forall c :: c in collections ==> collections[c] == Sort(groups[c], NewestFirst())
  {
    collections := map[];
    var pending := groups.Keys;
    while pending != {}
      invariant pending <= groups.Keys && collections.Keys == groups.Keys - pending
      invariant forall c :: c in collections ==> collections[c] == Sort(groups[c], NewestFirst())
    {
      var c :| c in pending;
      collections := collections[c := Sort(groups[c], NewestFirst())];
      pending := pending - {c};
    }
  }

  class BloopProvider {
    var global: seq<Bloop>
    var perClient: map<ClientId, seq<Bloop>>
    const maxAge: Duration

    function View(): Histories
      reads this
    {
      Histories(global, perClient, maxAge)
    }

    constructor WithBloops(maxAge: Duration, initial: seq<Bloop>)
      ensures Initial(View(), maxAge, initial)
    {
      this.maxAge := maxAge;
      global := Sort(initial, NewestFirst());
      var groups := GroupByClient(initial);
      var collections := SortGroups(groups);
      perClient := collections;
    }

    method Add(b: Bloop, globalNow: Instant, clientNow: Instant)
      modifies this
      ensures View() == old(View()).Add(b, globalNow, clientNow)
    {
      global := AddToCollection(global, maxAge, b, globalNow);
      var collection := if b.client in perClient then perClient[b.client] else [];
      collection := AddToCollection(collection, maxAge, b, clientNow);
      perClient := perClient[b.client := collection];
    }
  }
}
