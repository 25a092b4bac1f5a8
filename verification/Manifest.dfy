/**
 * The audio manifest: every achievement id followed by its audio digest, in id order. The
 * manifest hash is the MD5 of this input, so the input is what has to identify the manifest.
 */
module Manifest {
  import opened Types
  import opened Sequences
  import opened StableSort

  type Byte = b: int | 0 <= b < 256

  /** An achievement as far as the manifest is concerned: its id and its resolved audio digest. */
  datatype Listed = Listed(id: Uuid, audio: Option<seq<Byte>>)

  datatype AudioEntry = AudioEntry(id: Uuid, digest: seq<Byte>)

  const ID_LENGTH := 16

  /** The bytes of a number, most significant first; ids are ordered as these byte strings are. */
  function ToBytes(n: nat, length: nat): seq<Byte> {
    if length == 0 then [] else ToBytes(n / 256, length - 1) + [n % 256]
  }

  ghost function FromBytes(s: seq<Byte>): nat {
    if s == [] then 0 else FromBytes(s[..|s| - 1]) * 256 + s[|s| - 1]
  }

  ghost function Pow256(n: nat): nat { if n == 0 then 1 else 256 * Pow256(n - 1) }

  lemma {:induction false} BytesLength(n: nat, length: nat)
    ensures |ToBytes(n, length)| == length
  {
    if length > 0 { BytesLength(n / 256, length - 1); }
  }

  lemma {:induction false} BytesRoundTrip(n: nat, length: nat)
    requires n < Pow256(length)
    ensures FromBytes(ToBytes(n, length)) == n
  {
    if length > 0 {
      BytesRoundTrip(n / 256, length - 1);
      assert ToBytes(n, length)[..|ToBytes(n, length)| - 1] == ToBytes(n / 256, length - 1);
    }
  }

  /** A UUID has 16 bytes, an MD5 digest too. */
  ghost predicate WellFormed(audio: map<Uuid, seq<Byte>>) {
    forall id :: id in audio ==> id < Pow256(ID_LENGTH) && |audio[id]| == 16
  }

  function IdKey(): AudioEntry -> int { (e: AudioEntry) => e.id }

  function Encode(entries: seq<AudioEntry>): seq<Byte> {
    if entries == [] then [] else ToBytes(entries[0].id, ID_LENGTH) + entries[0].digest + Encode(entries[1..])
  }

  ghost predicate EntriesWellFormed(entries: seq<AudioEntry>) {
    forall e <- entries :: e.id < Pow256(ID_LENGTH) && |e.digest| == 16
  }

  /** Fixed-width records: the concatenation can be taken apart again. */
  lemma {:induction false} EncodeInjective(a: seq<AudioEntry>, b: seq<AudioEntry>)
    requires EntriesWellFormed(a) && EntriesWellFormed(b) && Encode(a) == Encode(b)
    ensures a == b
  {
    if a == [] || b == [] {
      if a != [] { EncodeSplit(a); }
      if b != [] { EncodeSplit(b); }
    } else {
      EncodeSplit(a);
      EncodeSplit(b);
      EncodeInjective(a[1..], b[1..]);
      assert a == [a[0]] + a[1..] && b == [b[0]] + b[1..];
    }
  }

  lemma EncodeSplit(a: seq<AudioEntry>)
    requires EntriesWellFormed(a) && a != []
    ensures |Encode(a)| >= 32
    ensures FromBytes(Encode(a)[..16]) == a[0].id && Encode(a)[16..32] == a[0].digest && Encode(a)[32..] == Encode(a[1..])
  {
    BytesLength(a[0].id, ID_LENGTH);
    BytesRoundTrip(a[0].id, ID_LENGTH);
    assert Encode(a)[..16] == ToBytes(a[0].id, ID_LENGTH);
  }

  // ----- Entries of a map ----------------------------------------------------------------

  /** `entries` lists the map's items, each once, in some order. */
  ghost predicate Lists(entries: seq<AudioEntry>, audio: map<Uuid, seq<Byte>>) {
    forall id: int :: Group(entries, IdKey(), id) == if id in audio then [AudioEntry(id, audio[id])] else []
  }

  lemma ListsAppend(entries: seq<AudioEntry>, done: map<Uuid, seq<Byte>>, id: Uuid, digest: seq<Byte>)
    requires Lists(entries, done) && id !in done
    ensures Lists(entries + [AudioEntry(id, digest)], done[id := digest])
  {
    var e, done' := AudioEntry(id, digest), done[id := digest];
    forall k: int
      ensures Group(entries + [e], IdKey(), k) == if k in done' then [AudioEntry(k, done'[k])] else []
    {
      FilterConcat(entries, [e], HasKey(IdKey(), k));
      assert Group(entries, IdKey(), k) == if k in done then [AudioEntry(k, done[k])] else [];
    }
  }

  lemma ListsMembers(entries: seq<AudioEntry>, audio: map<Uuid, seq<Byte>>)
    requires Lists(entries, audio)
    ensures forall e <- entries :: e.id in audio && e.digest == audio[e.id]
    ensures forall id :: id in audio ==> AudioEntry(id, audio[id]) in entries
  {
    forall e | e in entries
      ensures e.id in audio && e.digest == audio[e.id]
    {
      FilterMembers(entries, HasKey(IdKey(), e.id));
      assert e in Group(entries, IdKey(), e.id);
    }
    forall id | id in audio
      ensures AudioEntry(id, audio[id]) in entries
    {
      FilterMembers(entries, HasKey(IdKey(), id));
      assert AudioEntry(id, audio[id]) in Group(entries, IdKey(), id);
    }
  }

  /** However the map is iterated, sorting by id gives the same sequence. */
  lemma SortedListUnique(a: seq<AudioEntry>, b: seq<AudioEntry>, audio: map<Uuid, seq<Byte>>)
    requires Lists(a, audio) && Lists(b, audio)
    ensures Sort(a, IdKey()) == Sort(b, IdKey())
  {
    SortSorted(a, IdKey());
    forall k
      ensures Group(Sort(a, IdKey()), IdKey(), k) == Group(b, IdKey(), k)
    {
      SortFilter(a, IdKey(), HasKey(IdKey(), k));
      FilterMembers(a, HasKey(IdKey(), k));
      SortConstant(Group(a, IdKey(), k), IdKey(), k);
      assert Group(a, IdKey(), k) == Group(b, IdKey(), k);
    }
    StableSortUnique(b, Sort(a, IdKey()), IdKey());
  }

  lemma SortedLists(entries: seq<AudioEntry>, audio: map<Uuid, seq<Byte>>)
    requires Lists(entries, audio)
    ensures Lists(Sort(entries, IdKey()), audio)
  {
    forall k: int
      ensures Group(Sort(entries, IdKey()), IdKey(), k) == Group(entries, IdKey(), k)
    {
      SortFilter(entries, IdKey(), HasKey(IdKey(), k));
      FilterMembers(entries, HasKey(IdKey(), k));
      SortConstant(Group(entries, IdKey(), k), IdKey(), k);
      assert Group(entries, IdKey(), k) == if k in audio then [AudioEntry(k, audio[k])] else [];
    }
  }

  // ----- The hash input ----------------------------------------------------------------------

  /** `input` is the hash input for this map of digests, for some iteration order of the map. */
  ghost predicate IsHashInput(input: seq<Byte>, audio: map<Uuid, seq<Byte>>) {
    exists entries :: Lists(entries, audio) && input == Encode(Sort(entries, IdKey()))
  }

  /** The digests that the achievement list resolves to; for a repeated id the last one counts. */
  ghost function AudioOf(listed: seq<Listed>): map<Uuid, seq<Byte>> {
    if listed == [] then map[]
    else
      var last, before := listed[|listed| - 1], AudioOf(listed[..|listed| - 1]);
      if last.audio.Some? then before[last.id := last.audio.value] else before
  }

  method HashInput(listed: seq<Listed>) returns (input: seq<Byte>)
    ensures IsHashInput(input, AudioOf(listed))
  {
    var audio := ResolveAudio(listed);
    var entries := EntriesOf(audio);
    input := EncodeEntries(Sort(entries, IdKey()));
  }

  method ResolveAudio(listed: seq<Listed>) returns (audio: map<Uuid, seq<Byte>>)
    ensures audio == AudioOf(listed)
  {
    audio := map[];
    for i := 0 to |listed|
      invariant audio == AudioOf(listed[..i])
    {
      assert listed[..i + 1][..i] == listed[..i];
      if listed[i].audio.Some? {
        audio := audio[listed[i].id := listed[i].audio.value];
      }
    }
    assert listed[..|listed|] == listed;
  }

  method EncodeEntries(entries: seq<AudioEntry>) returns (input: seq<Byte>)
    ensures input == Encode(entries)
  {
    input := [];
    for i := 0 to |entries|
      invariant input + Encode(entries[i..]) == Encode(entries)
    {
      assert entries[i..][1..] == entries[i + 1..];
      input := input + ToBytes(entries[i].id, ID_LENGTH);
      input := input + entries[i].digest;
    }
  }

  /** Iterates over the map in whatever order. */
  method EntriesOf(audio: map<Uuid, seq<Byte>>) returns (entries: seq<AudioEntry>)
    ensures Lists(entries, audio)
  {
    entries := [];
    ghost var done: map<Uuid, seq<Byte>> := map[];
    var pending := audio.Keys;
    while pending != {}
      invariant pending <= audio.Keys && done == audio - pending
      invariant Lists(entries, done)
    {
      var id :| id in pending;
      ListsAppend(entries, done, id, audio[id]);
      entries := entries + [AudioEntry(id, audio[id])];
      done := done[id := audio[id]];
      pending := pending - {id};
    }
    assert done == audio;
  }

  /** The input does not depend on the iteration order. */
  lemma HashInputUnique(x: seq<Byte>, y: seq<Byte>, audio: map<Uuid, seq<Byte>>)
    requires IsHashInput(x, audio) && IsHashInput(y, audio)
    ensures x == y
  {
    var a :| Lists(a, audio) && x == Encode(Sort(a, IdKey()));
    var b :| Lists(b, audio) && y == Encode(Sort(b, IdKey()));
    SortedListUnique(a, b, audio);
  }

  /** Equal inputs come only from equal maps of ids to digests. */
  lemma HashInputInjective(x: seq<Byte>, a: map<Uuid, seq<Byte>>, b: map<Uuid, seq<Byte>>)
    requires WellFormed(a) && WellFormed(b) && IsHashInput(x, a) && IsHashInput(x, b)
    ensures a == b
  {
    var ea :| Lists(ea, a) && x == Encode(Sort(ea, IdKey()));
    var eb :| Lists(eb, b) && x == Encode(Sort(eb, IdKey()));
    SortedLists(ea, a);
    SortedLists(eb, b);
    SameEncoding(Sort(ea, IdKey()), Sort(eb, IdKey()), a, b);
  }

  lemma SameEncoding(x: seq<AudioEntry>, y: seq<AudioEntry>, a: map<Uuid, seq<Byte>>, b: map<Uuid, seq<Byte>>)
    requires WellFormed(a) && WellFormed(b) && Lists(x, a) && Lists(y, b) && Encode(x) == Encode(y)
    ensures a == b
  {
    ListsMembers(x, a);
    ListsMembers(y, b);
    EncodeInjective(x, y);
    SubMap(x, a, b);
    SubMap(y, b, a);
  }

  lemma SubMap(entries: seq<AudioEntry>, a: map<Uuid, seq<Byte>>, b: map<Uuid, seq<Byte>>)
    requires forall id :: id in a ==> AudioEntry(id, a[id]) in entries
    requires forall e <- entries :: e.id in b && e.digest == b[e.id]
    ensures forall id :: id in a ==> id in b && b[id] == a[id]
  {
  }

  /** The hash input identifies the manifest: equal exactly when ids and digests are. */
  lemma HashInputIdentifies(x: seq<Byte>, y: seq<Byte>, a: map<Uuid, seq<Byte>>, b: map<Uuid, seq<Byte>>)
    requires WellFormed(a) && WellFormed(b) && IsHashInput(x, a) && IsHashInput(y, b)
    ensures x == y <==> a == b
  {
    if a == b {
      HashInputUnique(x, y, a);
    }
    if x == y {
      HashInputInjective(x, a, b);
    }
  }

  // ----- The records of the hash input ---------------------------------------------------------

  /** The `i`-th record of the input: 16 bytes of id, most significant first, then 16 bytes of digest. */
  ghost predicate RecordAt(input: seq<Byte>, i: nat, e: AudioEntry) {
    && 32 * i + 32 <= |input|
    && FromBytes(input[32 * i..32 * i + 16]) == e.id && input[32 * i + 16..32 * i + 32] == e.digest
  }

  lemma {:induction false} EncodedRecords(entries: seq<AudioEntry>, i: nat)
    requires EntriesWellFormed(entries)
    ensures |Encode(entries)| == 32 * |entries|
    ensures i < |entries| ==> RecordAt(Encode(entries), i, entries[i])
  {
    if entries != [] {
      var input, rest := Encode(entries), Encode(entries[1..]);
      EncodeSplit(entries);
      EncodedRecords(entries[1..], if i > 0 then i - 1 else 0);
      if 0 < i < |entries| { ShiftRecord(input, rest, i, entries[i]); }
    }
  }

  lemma ShiftRecord(input: seq<Byte>, rest: seq<Byte>, i: nat, e: AudioEntry)
    requires |input| >= 32 && input[32..] == rest && i > 0 && RecordAt(rest, i - 1, e)
    ensures RecordAt(input, i, e)
  {
    var k := 32 * (i - 1);
    assert rest[k..k + 16] == input[32 * i..32 * i + 16];
    assert rest[k + 16..k + 32] == input[32 * i + 16..32 * i + 32];
  }

  /** No id occurs twice among the entries of a map. */
  lemma ListedOnce(entries: seq<AudioEntry>, audio: map<Uuid, seq<Byte>>, i: nat, j: nat)
    requires Lists(entries, audio) && i < j < |entries|
    ensures entries[i].id != entries[j].id
  {
    var id := entries[i].id;
    var at := FilterSelects(entries, HasKey(IdKey(), id));
    assert |Group(entries, IdKey(), id)| <= 1;
    assert i in at && (j in at <==> entries[j].id == id);
  }

  /**
   * The hash input consists of one record of 32 bytes per achievement with audio, in strictly
   * ascending order of the ids: nothing else, and none of them missing.
   */
  lemma HashInputExactly(input: seq<Byte>, audio: map<Uuid, seq<Byte>>) returns (entries: seq<AudioEntry>)
    requires WellFormed(audio) && IsHashInput(input, audio)
    ensures |input| == 32 * |entries| && forall i :: 0 <= i < |entries| ==> RecordAt(input, i, entries[i])
    ensures forall i, j :: 0 <= i < j < |entries| ==> entries[i].id < entries[j].id
    ensures forall id, digest :: AudioEntry(id, digest) in entries <==> id in audio && audio[id] == digest
  {
    var listed :| Lists(listed, audio) && input == Encode(Sort(listed, IdKey()));
    entries := Sort(listed, IdKey());
    SortedLists(listed, audio);
    SortSorted(listed, IdKey());
    ListsMembers(entries, audio);
    EncodedRecords(entries, 0);
    forall i | 0 <= i < |entries|
      ensures RecordAt(input, i, entries[i])
    {
      EncodedRecords(entries, i);
    }
    forall i, j | 0 <= i < j < |entries|
      ensures entries[i].id < entries[j].id
    {
      ListedOnce(entries, audio, i, j);
      assert IdKey()(entries[i]) <= IdKey()(entries[j]);
    }
  }

  // ----- Independence of the achievement order ----------------------------------------------

  ghost predicate DistinctIds(listed: seq<Listed>) {
    forall i, j :: 0 <= i < j < |listed| ==> listed[i].id != listed[j].id
  }

  /** With distinct ids the map holds exactly the resolved achievements. */
  lemma {:induction false} AudioOfDistinct(listed: seq<Listed>, id: Uuid, digest: seq<Byte>)
    requires DistinctIds(listed)
    ensures id in AudioOf(listed) && AudioOf(listed)[id] == digest <==> Listed(id, Some(digest)) in listed
  {
    if listed != [] {
      var before, last := listed[..|listed| - 1], listed[|listed| - 1];
      AudioOfDistinct(before, id, digest);
      assert listed == before + [last];
    }
  }

  lemma {:induction false} EachOnce(listed: seq<Listed>, x: Listed)
    requires DistinctIds(listed)
    ensures multiset(listed)[x] <= 1
  {
    if listed != [] {
      var before, last := listed[..|listed| - 1], listed[|listed| - 1];
      EachOnce(before, x);
      assert listed == before + [last];
      if last == x { assert forall y <- before :: y.id != x.id; }
    }
  }

  lemma Twice(listed: seq<Listed>, i: nat, j: nat)
    requires i < j < |listed| && listed[i] == listed[j]
    ensures multiset(listed)[listed[i]] >= 2
  {
    var a, b := listed[..j], listed[j + 1..];
    assert listed == a + [listed[j]] + b;
    assert a[i] == listed[i];
  }

  /** A permutation has distinct ids too. */
  lemma DistinctIdsPermuted(a: seq<Listed>, b: seq<Listed>)
    requires DistinctIds(a) && multiset(a) == multiset(b)
    ensures DistinctIds(b)
  {
    forall i, j | 0 <= i < j < |b|
      ensures b[i].id != b[j].id
    {
      if b[i] == b[j] {
        Twice(b, i, j);
        EachOnce(a, b[i]);
      } else {
        assert b[i] in multiset(a) && b[j] in multiset(a);
      }
    }
  }

  lemma PermutationInvariant(a: seq<Listed>, b: seq<Listed>)
    requires DistinctIds(a) && multiset(a) == multiset(b)
    ensures AudioOf(a) == AudioOf(b)
  {
    DistinctIdsPermuted(a, b);
    forall id | id in AudioOf(a)
      ensures id in AudioOf(b) && AudioOf(b)[id] == AudioOf(a)[id]
    {
      SharedAudio(a, b, id);
    }
    forall id | id in AudioOf(b)
      ensures id in AudioOf(a)
    {
      SharedAudio(b, a, id);
    }
  }

  lemma SharedAudio(a: seq<Listed>, b: seq<Listed>, id: Uuid)
    requires DistinctIds(a) && DistinctIds(b) && multiset(a) == multiset(b) && id in AudioOf(a)
    ensures id in AudioOf(b) && AudioOf(b)[id] == AudioOf(a)[id]
  {
    var digest := AudioOf(a)[id];
    AudioOfDistinct(a, id, digest);
    assert Listed(id, Some(digest)) in multiset(b);
    AudioOfDistinct(b, id, digest);
  }
}
