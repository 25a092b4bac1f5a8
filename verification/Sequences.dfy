/** Filtering and prefix facts about sequences used throughout the model. */
module Sequences {

  function Filter<T>(s: seq<T>, p: T -> bool): seq<T> {
    if s == [] then []
    else if p(s[0]) then [s[0]] + Filter(s[1..], p)
    else Filter(s[1..], p)
  }

  /** The first `n` elements, or all of them when there are fewer (`Iterator::take`). */
  function Take<T>(s: seq<T>, n: nat): seq<T> {
    if n < |s| then s[..n] else s
  }

  ghost predicate NoDuplicates<T>(s: seq<T>) {
    forall i, j :: 0 <= i < j < |s| ==> s[i] != s[j]
  }

  lemma FilterCons<T>(x: T, s: seq<T>, p: T -> bool)
    ensures Filter([x] + s, p) == if p(x) then [x] + Filter(s, p) else Filter(s, p)
  {
  }

  lemma {:induction false} FilterConcat<T>(a: seq<T>, b: seq<T>, p: T -> bool)
    ensures Filter(a + b, p) == Filter(a, p) + Filter(b, p)
  {
    if a == [] {
      assert a + b == b;
    } else {
      var x, rest := a[0], a[1..];
      FilterConcat(rest, b, p);
      FilterCons(x, rest + b, p);
      assert a + b == [x] + (rest + b);
    }
  }

  lemma {:induction false} FilterMembers<T>(s: seq<T>, p: T -> bool)
    ensures |Filter(s, p)| <= |s|
    ensures forall x <- Filter(s, p) :: x in s && p(x)
    ensures forall x <- s :: p(x) ==> x in Filter(s, p)
  {
    if s != [] {
      FilterMembers(s[1..], p);
      assert s == [s[0]] + s[1..];
    }
  }

  /** `part` consists of the elements of `s` at the ascending positions `at`. */
  ghost predicate IsSelection<T>(s: seq<T>, part: seq<T>, at: seq<nat>) {
    && |at| == |part| && (forall k :: 0 <= k < |at| ==> at[k] < |s| && part[k] == s[at[k]])
    && forall k, l :: 0 <= k < l < |at| ==> at[k] < at[l]
  }

  /** A filter selects exactly the positions where the predicate holds, in order. */
  lemma {:induction false} FilterSelects<T>(s: seq<T>, p: T -> bool) returns (at: seq<nat>)
    ensures IsSelection(s, Filter(s, p), at)
    ensures forall i :: 0 <= i < |s| ==> (i in at <==> p(s[i]))
  {
    if s == [] {
      at := [];
    } else {
      var n := |s| - 1;
      var before := FilterSelects(s[..n], p);
      FilterSnoc(s, p);
      SelectionGrows(s, Filter(s[..n], p), before);
      at := if p(s[n]) then before + [n] else before;
      assert forall i :: 0 <= i < n ==> s[..n][i] == s[i];
    }
  }

  lemma FilterSnoc<T>(s: seq<T>, p: T -> bool)
    requires s != []
    ensures var n := |s| - 1; Filter(s, p) == if p(s[n]) then Filter(s[..n], p) + [s[n]] else Filter(s[..n], p)
  {
    var n := |s| - 1;
    FilterConcat(s[..n], [s[n]], p);
    assert s[..n] + [s[n]] == s;
  }

  /** A selection from all but the last element is one from the whole, with or without the last. */
  lemma SelectionGrows<T>(s: seq<T>, part: seq<T>, at: seq<nat>)
    requires s != [] && IsSelection(s[..|s| - 1], part, at)
    ensures IsSelection(s, part, at) && |s| - 1 !in at
    ensures IsSelection(s, part + [s[|s| - 1]], at + [|s| - 1])
  {
  }

  function Both<T>(p: T -> bool, q: T -> bool): T -> bool { x => p(x) && q(x) }

  lemma {:induction false} FilterBoth<T>(s: seq<T>, p: T -> bool, q: T -> bool)
    ensures Filter(Filter(s, p), q) == Filter(s, Both(p, q))
  {
    if s != [] {
      FilterBoth(s[1..], p, q);
      FilterCons(s[0], Filter(s[1..], p), q);
    }
  }

  lemma {:induction false} FilterCommutes<T>(s: seq<T>, p: T -> bool, q: T -> bool)
    ensures Filter(Filter(s, p), q) == Filter(Filter(s, q), p)
  {
    if s != [] {
      var x, rest := s[0], s[1..];
      FilterCommutes(rest, p, q);
      FilterCons(x, Filter(rest, p), q);
      FilterCons(x, Filter(rest, q), p);
    }
  }

  lemma {:induction false} FilterNone<T>(s: seq<T>, p: T -> bool)
    requires forall x <- s :: !p(x)
    ensures Filter(s, p) == []
  {
    if s != [] { FilterNone(s[1..], p); }
  }

  lemma {:induction false} FilterAll<T>(s: seq<T>, p: T -> bool)
    requires forall x <- s :: p(x)
    ensures Filter(s, p) == s
  {
    if s != [] { FilterAll(s[1..], p); }
  }
}

/** The standard library's stable sort by an integer key, as a function. */
module StableSort {
  import opened Sequences

  ghost predicate Sorted<T>(s: seq<T>, key: T -> int) {
    forall i, j :: 0 <= i < j < |s| ==> key(s[i]) <= key(s[j])
  }

  function Insert<T>(x: T, s: seq<T>, key: T -> int): seq<T> {
    if s == [] || key(x) <= key(s[0]) then [x] + s
    else [s[0]] + Insert(x, s[1..], key)
  }

  function Sort<T>(s: seq<T>, key: T -> int): seq<T> {
    if s == [] then [] else Insert(s[0], Sort(s[1..], key), key)
  }

  lemma {:induction false} InsertPermutes<T>(x: T, s: seq<T>, key: T -> int)
    ensures multiset(Insert(x, s, key)) == multiset(s) + multiset{x}
  {
    if s != [] && key(x) > key(s[0]) {
      InsertPermutes(x, s[1..], key);
      assert s == [s[0]] + s[1..];
    }
  }

  lemma {:induction false} SortPermutes<T>(s: seq<T>, key: T -> int)
    ensures multiset(Sort(s, key)) == multiset(s)
  {
    if s != [] {
      SortPermutes(s[1..], key);
      InsertPermutes(s[0], Sort(s[1..], key), key);
      assert s == [s[0]] + s[1..];
    }
  }

  lemma {:induction false} InsertSorted<T>(x: T, s: seq<T>, key: T -> int)
    requires Sorted(s, key)
    ensures Sorted(Insert(x, s, key), key)
  {
    if s != [] && key(x) > key(s[0]) {
      InsertSorted(x, s[1..], key);
      InsertPermutes(x, s[1..], key);
      var rest := Insert(x, s[1..], key);
      forall y | y in rest
        ensures key(s[0]) <= key(y)
      {
        assert y in multiset(rest);
      }
    }
  }

  lemma {:induction false} SortSorted<T>(s: seq<T>, key: T -> int)
    ensures Sorted(Sort(s, key), key)
  {
    if s != [] {
      SortSorted(s[1..], key);
      InsertSorted(s[0], Sort(s[1..], key), key);
    }
  }

  lemma InsertLeast<T>(x: T, s: seq<T>, key: T -> int)
    requires forall y <- s :: key(x) <= key(y)
    ensures Insert(x, s, key) == [x] + s
  {
  }

  lemma {:induction false} FilterInsert<T>(x: T, s: seq<T>, key: T -> int, p: T -> bool)
    requires Sorted(s, key)
    ensures Filter(Insert(x, s, key), p) ==
            if p(x) then Insert(x, Filter(s, p), key) else Filter(s, p)
  {
    if s == [] || key(x) <= key(s[0]) {
      FilterCons(x, s, p);
      FilterMembers(s, p);
      InsertLeast(x, Filter(s, p), key);
    } else {
      var h, rest := s[0], s[1..];
      FilterInsert(x, rest, key, p);
      FilterCons(h, Insert(x, rest, key), p);
      if p(h) && p(x) {
        assert ([h] + Filter(rest, p))[1..] == Filter(rest, p);
      }
    }
  }

  /** Sorting commutes with any filter. */
  lemma {:induction false} SortFilter<T>(s: seq<T>, key: T -> int, p: T -> bool)
    ensures Filter(Sort(s, key), p) == Sort(Filter(s, p), key)
  {
    if s != [] {
      var x, rest := s[0], s[1..];
      SortFilter(rest, key, p);
      SortSorted(rest, key);
      FilterInsert(x, Sort(rest, key), key, p);
      if p(x) { assert ([x] + Filter(rest, p))[1..] == Filter(rest, p); }
    }
  }

  function HasKey<T>(key: T -> int, k: int): T -> bool { x => key(x) == k }

  /** The elements with key `k`, in order. */
  ghost function Group<T>(s: seq<T>, key: T -> int, k: int): seq<T> { Filter(s, HasKey(key, k)) }

  ghost predicate SameGroups<T>(a: seq<T>, b: seq<T>, key: T -> int) {
    forall k :: Group(a, key, k) == Group(b, key, k)
  }

  lemma HeadOfGroup<T>(a: seq<T>, b: seq<T>, key: T -> int)
    requires SameGroups(a, b, key) && a != []
    ensures a[0] in b && Group(b, key, key(a[0]))[..1] == [a[0]]
  {
    var k := key(a[0]);
    assert Group(a, key, k)[..1] == [a[0]];
    FilterMembers(b, HasKey(key, k));
    assert Group(b, key, k)[0] == a[0];
  }

  lemma SameGroupsTail<T>(a: seq<T>, b: seq<T>, key: T -> int)
    requires SameGroups(a, b, key) && a != [] && b != [] && a[0] == b[0]
    ensures SameGroups(a[1..], b[1..], key)
  {
    forall k
      ensures Group(a[1..], key, k) == Group(b[1..], key, k)
    {
      assert Group(a, key, k) == Group(b, key, k);
      if k == key(a[0]) {
        assert Group(a[1..], key, k) == Group(a, key, k)[1..];
        assert Group(b[1..], key, k) == Group(b, key, k)[1..];
      }
    }
  }

  /** Sorted sequences that agree on every group of equal keys are equal. */
  lemma {:induction false} SortedGroupsEqual<T>(a: seq<T>, b: seq<T>, key: T -> int)
    requires Sorted(a, key) && Sorted(b, key) && SameGroups(a, b, key)
    ensures a == b
  {
    if a != [] { HeadOfGroup(a, b, key); }
    if b != [] {
      HeadOfGroup(b, a, key);
      assert key(a[0]) == key(b[0]);
      assert Group(a, key, key(a[0]))[..1] == [a[0]];
      SameGroupsTail(a, b, key);
      SortedGroupsEqual(a[1..], b[1..], key);
    }
  }

  /** Any stable sort returns `Sort(s)`: ordered by key, equal keys in their original order. */
  lemma StableSortUnique<T>(s: seq<T>, t: seq<T>, key: T -> int)
    requires Sorted(t, key) && SameGroups(t, s, key)
    ensures t == Sort(s, key)
  {
    SortSorted(s, key);
    forall k
      ensures Group(t, key, k) == Group(Sort(s, key), key, k)
    {
      SortFilter(s, key, HasKey(key, k));
      FilterMembers(s, HasKey(key, k));
      SortConstant(Group(s, key, k), key, k);
      assert Group(t, key, k) == Group(s, key, k);
    }
    SortedGroupsEqual(t, Sort(s, key), key);
  }

  lemma {:induction false} SortConstant<T>(s: seq<T>, key: T -> int, k: int)
    requires forall x <- s :: key(x) == k
    ensures Sort(s, key) == s
  {
    if s != [] { SortConstant(s[1..], key, k); }
  }
}
