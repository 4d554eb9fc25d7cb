/**
 The cuckoo filter: 512 buckets of four 16-bit fingerprints, where 0 marks a free slot. A filter
 stands for the multiset of its entries, a fingerprint together with the pair of buckets it may
 sit in. Hashes are arbitrary functions and the random choice of a slot to kick is
 nondeterministic.
 */
module Cuckoo {
  import opened Words

  const NUM_BUCKETS: nat := 512
  const SLOTS_PER_BUCKET: nat := 4
  const MAX_KICKS: nat := 500
  const MERGE_KICKS: nat := 32
  const FILTER_BYTES: nat := 4096

  datatype Hashes = Hashes(fp: Bytes -> u16, b1: Bytes -> u64, b2: u16 -> u64)

  type Bucket = b: seq<u16> | |b| == SLOTS_PER_BUCKET witness [0, 0, 0, 0]
  type Table = t: seq<Bucket> | |t| == NUM_BUCKETS witness FreeBuckets(NUM_BUCKETS)

  function FreeBucket(): Bucket {
    [0, 0, 0, 0]
  }

  function FreeBuckets(n: nat): (t: seq<Bucket>)
    ensures |t| == n
  {
    if n == 0 then [] else [FreeBucket()] + FreeBuckets(n - 1)
  }

  function Fingerprint(h: Hashes, key: Bytes): (fp: u16)
    ensures fp != 0
  {
    if h.fp(key) == 0 then 1 else h.fp(key)
  }

  function Bucket1(h: Hashes, key: Bytes): (b: nat)
    ensures b < NUM_BUCKETS
  {
    h.b1(key) % NUM_BUCKETS
  }

  /** The other bucket of a fingerprint that sits in bucket `b`. */
  function Bucket2(h: Hashes, b: nat, fp: u16): (b': nat)
    ensures b' < NUM_BUCKETS
  {
    assert Pow2(9) == NUM_BUCKETS by { assert Pow2(5) == 32; }
    BitXor(9, b, h.b2(fp) % NUM_BUCKETS)
  }

  /** The two buckets of a fingerprint point at each other. */
  lemma Bucket2Involutive(h: Hashes, b: nat, fp: u16)
    requires b < NUM_BUCKETS
    ensures Bucket2(h, Bucket2(h, b, fp), fp) == b
  {
    assert Pow2(9) == NUM_BUCKETS by { assert Pow2(5) == 32; }
    BitXorCancels(9, b, h.b2(fp) % NUM_BUCKETS);
  }

  /** They lie as far apart as the fingerprint alone says, whichever of them it sits in. */
  lemma BucketsApart(h: Hashes, b: nat, fp: u16)
    requires b < NUM_BUCKETS
    ensures BitXor(9, b, Bucket2(h, b, fp)) == h.b2(fp) % 512
  {
    assert Pow2(9) == NUM_BUCKETS by { assert Pow2(5) == 32; }
    BitXorRecovers(9, b, h.b2(fp) % NUM_BUCKETS);
  }

  // ---------------------------------------------------------------- entries

  datatype Entry = Entry(fp: u16, home: set<nat>)

  function EntryAt(h: Hashes, b: nat, fp: u16): Entry {
    Entry(fp, {b, Bucket2(h, b, fp)})
  }

  function KeyEntry(h: Hashes, key: Bytes): Entry {
    EntryAt(h, Bucket1(h, key), Fingerprint(h, key))
  }

  /** Exactly when two keys cannot be told apart: their fingerprints agree, 0 and 1 counting as one, and
      their first buckets are the same or lie apart by the fingerprint's own offset. */
  lemma SameEntryIff(h: Hashes, a: Bytes, b: Bytes)
    ensures KeyEntry(h, a) == KeyEntry(h, b) <==>
            && (h.fp(a) == h.fp(b) || (h.fp(a) <= 1 && h.fp(b) <= 1))
            && var x, y := h.b1(a) % 512, h.b1(b) % 512;
               x == y || x == BitXor(9, y, h.b2(if h.fp(b) == 0 then 1 else h.fp(b)) % 512)
  {
    hide Bucket2;
    var x, y, fp := Bucket1(h, a), Bucket1(h, b), Fingerprint(h, b);
    OtherBucket(h, y, fp);
    if Fingerprint(h, a) == fp {
      Bucket2Involutive(h, x, fp);
      Bucket2Involutive(h, y, fp);
      assert x in {x, Bucket2(h, x, fp)};
      if x == Bucket2(h, y, fp) {
        SameEntryFromEitherBucket(h, y, fp);
      }
    }
  }

  lemma OtherBucket(h: Hashes, b: nat, fp: u16)
    ensures Bucket2(h, b, fp) == BitXor(9, b, h.b2(fp) % 512)
  {
  }

  lemma SameEntryFromEitherBucket(h: Hashes, b: nat, fp: u16)
    requires b < NUM_BUCKETS
    ensures EntryAt(h, Bucket2(h, b, fp), fp) == EntryAt(h, b, fp)
  {
    Bucket2Involutive(h, b, fp);
  }

  function SlotEntries(h: Hashes, b: nat, fp: u16): multiset<Entry> {
    if fp == 0 then multiset{} else multiset{EntryAt(h, b, fp)}
  }

  function BucketEntries(h: Hashes, b: nat, slots: seq<u16>): multiset<Entry> {
    if slots == [] then multiset{}
    else BucketEntries(h, b, slots[..|slots| - 1]) + SlotEntries(h, b, slots[|slots| - 1])
  }

  /** The entries of the first `n` buckets. */
  function Entries(h: Hashes, t: Table, n: nat): multiset<Entry>
    requires n <= NUM_BUCKETS
  {
    if n == 0 then multiset{} else Entries(h, t, n - 1) + BucketEntries(h, n - 1, t[n - 1])
  }

  lemma AddBoth(a: multiset<Entry>, s: multiset<Entry>, b: multiset<Entry>, s': multiset<Entry>, x: multiset<Entry>)
    requires a + s == b + s'
    ensures (a + x) + s == (b + x) + s'
  {
    assert (a + x) + s == (a + s) + x && (b + x) + s' == (b + s') + x;
  }

  lemma {:induction false} BucketSlotUpdate(h: Hashes, b: nat, slots: seq<u16>, j: nat, v: u16)
    requires j < |slots|
    ensures BucketEntries(h, b, slots[j := v]) + SlotEntries(h, b, slots[j])
         == BucketEntries(h, b, slots) + SlotEntries(h, b, v)
  {
    hide SlotEntries;
    var n := |slots| - 1;
    if j < n {
      BucketSlotUpdate(h, b, slots[..n], j, v);
      assert slots[j := v][..n] == slots[..n][j := v];
      var x, x' := BucketEntries(h, b, slots[..n]), BucketEntries(h, b, slots[..n][j := v]);
      AddBoth(x', SlotEntries(h, b, slots[j]), x, SlotEntries(h, b, v), SlotEntries(h, b, slots[n]));
    } else {
      assert slots[j := v][..n] == slots[..n];
    }
  }

  lemma {:induction false} TableBucketUpdate(h: Hashes, t: Table, n: nat, b: nat, bucket: Bucket)
    requires b < NUM_BUCKETS && n <= NUM_BUCKETS
    ensures b < n ==> Entries(h, t[b := bucket], n) + BucketEntries(h, b, t[b]) == Entries(h, t, n) + BucketEntries(h, b, bucket)
    ensures b >= n ==> Entries(h, t[b := bucket], n) == Entries(h, t, n)
  {
    hide BucketEntries;
    if n > 0 {
      TableBucketUpdate(h, t, n - 1, b, bucket);
      if b < n - 1 {
        var x, x' := Entries(h, t, n - 1), Entries(h, t[b := bucket], n - 1);
        AddBoth(x', BucketEntries(h, b, t[b]), x, BucketEntries(h, b, bucket), BucketEntries(h, n - 1, t[n - 1]));
      }
    }
  }

  /** Overwriting one slot exchanges what that slot stood for, and nothing else. */
  lemma SlotUpdate(h: Hashes, t: Table, b: nat, j: nat, v: u16)
    requires b < NUM_BUCKETS && j < SLOTS_PER_BUCKET
    ensures Entries(h, t[b := t[b][j := v]], NUM_BUCKETS) + SlotEntries(h, b, t[b][j])
         == Entries(h, t, NUM_BUCKETS) + SlotEntries(h, b, v)
  {
    hide Entries, BucketEntries, SlotEntries;
    TableBucketUpdate(h, t, NUM_BUCKETS, b, t[b][j := v]);
    BucketSlotUpdate(h, b, t[b], j, v);
    var x, x' := Entries(h, t, NUM_BUCKETS), Entries(h, t[b := t[b][j := v]], NUM_BUCKETS);
    var y, y' := BucketEntries(h, b, t[b]), BucketEntries(h, b, t[b][j := v]);
    Exchange(x, x', y, y', SlotEntries(h, b, t[b][j]), SlotEntries(h, b, v));
  }

  lemma Exchange(x: multiset<Entry>, x': multiset<Entry>, y: multiset<Entry>, y': multiset<Entry>, s: multiset<Entry>, s': multiset<Entry>)
    requires x' + y == x + y' && y' + s == y + s'
    ensures x' + s == x + s'
  {
    forall e ensures (x' + s)[e] == (x + s')[e] {
      assert (x' + y)[e] == (x + y')[e] && (y' + s)[e] == (y + s')[e];
    }
  }

  lemma BucketSnoc(h: Hashes, b: nat, slots: seq<u16>, j: nat)
    requires j < |slots|
    ensures BucketEntries(h, b, slots[..j + 1]) == BucketEntries(h, b, slots[..j]) + SlotEntries(h, b, slots[j])
  {
    assert slots[..j + 1][..j] == slots[..j];
  }

  lemma NoSlots(h: Hashes, b: nat, slots: seq<u16>)
    ensures BucketEntries(h, b, slots[..0]) == multiset{}
  {
  }

  lemma {:induction false} BucketMember(h: Hashes, b: nat, slots: seq<u16>, e: Entry)
    ensures e in BucketEntries(h, b, slots) <==> e.fp != 0 && e.fp in slots && e == EntryAt(h, b, e.fp)
  {
    hide Bucket2;
    if slots != [] {
      var n := |slots| - 1;
      BucketMember(h, b, slots[..n], e);
      assert e.fp in slots <==> e.fp in slots[..n] || e.fp == slots[n];
    }
  }

  lemma {:induction false} TableMember(h: Hashes, t: Table, n: nat, e: Entry)
    requires n <= NUM_BUCKETS
    ensures e in Entries(h, t, n) <==> exists b | 0 <= b < n :: e.fp != 0 && e.fp in t[b] && e == EntryAt(h, b, e.fp)
  {
    hide EntryAt, BucketEntries;
    if n > 0 {
      TableMember(h, t, n - 1, e);
      BucketMember(h, n - 1, t[n - 1], e);
    }
  }

  /** An entry is present exactly when its fingerprint sits in one of its two buckets. */
  lemma EntryPresent(h: Hashes, t: Table, b: nat, fp: u16)
    requires b < NUM_BUCKETS && fp != 0
    ensures EntryAt(h, b, fp) in Entries(h, t, NUM_BUCKETS) <==> fp in t[b] || fp in t[Bucket2(h, b, fp)]
  {
    hide Bucket2, Entries;
    var e := EntryAt(h, b, fp);
    TableMember(h, t, NUM_BUCKETS, e);
    SameEntryFromEitherBucket(h, b, fp);
    if e in Entries(h, t, NUM_BUCKETS) {
      var i :| 0 <= i < NUM_BUCKETS && e.fp in t[i] && e == EntryAt(h, i, e.fp);
      assert i in e.home;
    }
  }

  // ---------------------------------------------------------------- wire form

  function SlotByte(v: u16, half: nat): u8
    requires half < 2
  {
    if half == 0 then v % 256 else v / 256
  }

  /** Two bytes per slot, least significant first. */
  function Encoded(t: Table): (out: Bytes)
    ensures |out| == FILTER_BYTES
  {
    seq(FILTER_BYTES, k requires 0 <= k < FILTER_BYTES => SlotByte(t[k / 8][k / 2 % 4], k % 2))
  }

  function DecodedBucket(data: Bytes, i: nat): Bucket
    requires |data| == FILTER_BYTES && i < NUM_BUCKETS
  {
    seq(SLOTS_PER_BUCKET, j requires 0 <= j < SLOTS_PER_BUCKET => U16Le(data[8 * i + 2 * j], data[8 * i + 2 * j + 1]))
  }

  function Decoded(data: Bytes): Table
    requires |data| == FILTER_BYTES
  {
    seq(NUM_BUCKETS, i requires 0 <= i < NUM_BUCKETS => DecodedBucket(data, i))
  }

  lemma SlotPosition(i: nat, j: nat, half: nat)
    requires j < 4 && half < 2
    ensures (8 * i + 2 * j + half) / 8 == i && (8 * i + 2 * j + half) / 2 % 4 == j && (8 * i + 2 * j + half) % 2 == half
  {
    var k := 8 * i + 2 * j + half;
    assert k / 2 == 4 * i + j;
  }

  lemma DecodeUndoesEncode(t: Table)
    ensures Decoded(Encoded(t)) == t
  {
    forall i, j | 0 <= i < NUM_BUCKETS && 0 <= j < SLOTS_PER_BUCKET
      ensures DecodedBucket(Encoded(t), i)[j] == t[i][j]
    {
      SlotPosition(i, j, 0);
      SlotPosition(i, j, 1);
      var data := Encoded(t);
      assert data[8 * i + 2 * j] == t[i][j] % 256 && data[8 * i + 2 * j + 1] == t[i][j] / 256;
    }
    forall i | 0 <= i < NUM_BUCKETS ensures Decoded(Encoded(t))[i] == t[i] {
      assert DecodedBucket(Encoded(t), i) == t[i];
    }
  }

  lemma PositionSplit(k: nat)
    ensures k == 8 * (k / 8) + 2 * (k / 2 % 4) + k % 2
  {
    var half := k / 2;
    assert k == 2 * half + k % 2 && half == 4 * (half / 4) + half % 4;
    assert half / 4 == k / 8;
  }

  lemma SlotBytes(lo: u8, hi: u8)
    ensures SlotByte(U16Le(lo, hi), 0) == lo && SlotByte(U16Le(lo, hi), 1) == hi
  {
  }

  lemma EncodeUndoesDecode(data: Bytes)
    requires |data| == FILTER_BYTES
    ensures Encoded(Decoded(data)) == data
  {
    forall k | 0 <= k < FILTER_BYTES ensures Encoded(Decoded(data))[k] == data[k] {
      hide U16Le, SlotByte;
      var i, j, half := k / 8, k / 2 % 4, k % 2;
      PositionSplit(k);
      assert Decoded(data)[i] == DecodedBucket(data, i);
      SlotBytes(data[8 * i + 2 * j], data[8 * i + 2 * j + 1]);
    }
  }

  // ---------------------------------------------------------------- the filter

  /** The first position of `v`, or the length if there is none. */
  function Position(slots: seq<u16>, v: u16): (j: nat)
    ensures j <= |slots|
    ensures j < |slots| ==> slots[j] == v
    ensures j == |slots| <==> v !in slots
    ensures forall i | 0 <= i < j :: slots[i] != v
  {
    if slots == [] then 0
    else if slots[0] == v then 0
    else
      var j := Position(slots[1..], v);
      assert forall i | 0 < i < |slots| :: slots[i] == slots[1..][i - 1];
      j + 1
  }

  /** From bucket to bucket, each full, and each the other bucket of some fingerprint in the one before. */
  ghost predicate Walk(h: Hashes, t: Table, start: nat, walk: seq<nat>) {
    && walk != [] && walk[0] == start
    && (forall b | b in walk :: b < NUM_BUCKETS && 0 !in t[b])
    && forall i | 0 < i < |walk| :: WalkStep(h, walk[i - 1], walk[i])
  }

  ghost predicate WalkStep(h: Hashes, a: nat, b: nat) {
    exists fp: u16 :: fp != 0 && b == Bucket2(h, a, fp)
  }

  lemma WalkOn(h: Hashes, t: Table, start: nat, walk: seq<nat>, fp: u16)
    requires Walk(h, t, start, walk) && fp != 0
    requires var b := Bucket2(h, walk[|walk| - 1], fp); 0 !in t[b]
    ensures Walk(h, t, start, walk + [Bucket2(h, walk[|walk| - 1], fp)])
  {
    hide Bucket2;
    assert WalkStep(h, walk[|walk| - 1], Bucket2(h, walk[|walk| - 1], fp));
  }

  /** The same buckets are full. */
  ghost predicate SameFull(t: Table, t': Table) {
    forall b | 0 <= b < NUM_BUCKETS :: 0 in t[b] <==> 0 in t'[b]
  }

  lemma FirstStep(h: Hashes, t: Table, b: nat)
    requires b < NUM_BUCKETS && 0 !in t[b]
    ensures Walk(h, t, b, [b]) && SameFull(t, t)
  {
  }

  lemma FullBefore(t: Table, t': Table, b: nat)
    requires SameFull(t, t') && b < NUM_BUCKETS && 0 !in t'[b]
    ensures 0 !in t[b]
  {
  }

  lemma KickKeepsFull(t: Table, t': Table, b: nat, j: nat, v: u16)
    requires SameFull(t, t') && b < NUM_BUCKETS && j < SLOTS_PER_BUCKET && 0 !in t'[b] && v != 0
    ensures SameFull(t, t'[b := t'[b][j := v]])
  {
  }

  class CuckooFilter {
    const h: Hashes
    const buckets: array<Bucket>
    var count: nat

    ghost predicate Shaped()
    {
      buckets.Length == NUM_BUCKETS
    }

    ghost function Contents(): multiset<Entry>
      requires Shaped()
      reads buckets
    {
      Entries(h, buckets[..], NUM_BUCKETS)
    }

    /** `count` is the number of occupied slots. */
    ghost predicate Valid()
      reads this, buckets
    {
      Shaped() && count == |Contents()|
    }

    constructor (h: Hashes)
      ensures this.h == h && fresh(buckets) && Valid() && Contents() == multiset{}
      ensures count == 0
    {
      this.h := h;
      this.buckets := new Bucket[NUM_BUCKETS](_ => FreeBucket());
      this.count := 0;
      new;
      EmptyTable(h, buckets[..], NUM_BUCKETS);
    }

    method InsertSlot(b: nat, fp: u16) returns (ok: bool)
      requires Shaped() && b < NUM_BUCKETS && fp != 0
      modifies buckets
      ensures ok <==> 0 in old(buckets[b])
      ensures ok ==> buckets[..] == old(buckets[..])[b := old(buckets[b])[Position(old(buckets[b]), 0) := fp]]
      ensures ok ==> Contents() == old(Contents()) + multiset{EntryAt(h, b, fp)}
      ensures !ok ==> buckets[..] == old(buckets[..])
    {
      hide Entries, EntryAt;
      for j := 0 to SLOTS_PER_BUCKET
        invariant buckets[..] == old(buckets[..])
        invariant forall i | 0 <= i < j :: buckets[b][i] != 0
      {
        if buckets[b][j] == 0 {
          SlotUpdate(h, buckets[..], b, j, fp);
          buckets[b] := buckets[b][j := fp];
          assert buckets[..] == old(buckets[..])[b := old(buckets[b])[j := fp]];
          return true;
        }
      }
      return false;
    }

    method RemoveSlot(b: nat, fp: u16) returns (ok: bool)
      requires Shaped() && b < NUM_BUCKETS && fp != 0
      modifies buckets
      ensures ok <==> fp in old(buckets[b])
      ensures ok ==> buckets[..] == old(buckets[..])[b := old(buckets[b])[Position(old(buckets[b]), fp) := 0]]
      ensures ok ==> Contents() + multiset{EntryAt(h, b, fp)} == old(Contents())
      ensures !ok ==> buckets[..] == old(buckets[..])
    {
      hide Entries, EntryAt;
      for j := 0 to SLOTS_PER_BUCKET
        invariant buckets[..] == old(buckets[..])
        invariant forall i | 0 <= i < j :: buckets[b][i] != fp
      {
        if buckets[b][j] == fp {
          SlotUpdate(h, buckets[..], b, j, 0);
          buckets[b] := buckets[b][j := 0];
          assert buckets[..] == old(buckets[..])[b := old(buckets[b])[j := 0]];
          return true;
        }
      }
      return false;
    }

    /** Kicks a random occupant of a full bucket out to its other bucket, and so on, until one finds
        a free slot. When the kicks run out, the last occupant kicked is the one entry lost, and every
        bucket on the way was full. */
    method Cascade(start: nat, fp: u16, kicks: nat) returns (ok: bool, ghost lost: multiset<Entry>)
      requires Shaped() && start < NUM_BUCKETS && fp != 0 && 0 !in buckets[start]
      modifies buckets
      ensures Contents() + lost == old(Contents()) + multiset{EntryAt(h, start, fp)}
      ensures |lost| == if ok then 0 else 1
      ensures !ok ==> exists walk :: Walk(h, old(buckets[..]), start, walk) && |walk| == kicks + 1
    {
      hide Entries, EntryAt, Bucket2, Walk, SameFull;
      var b, cur := start, fp;
      ghost var walk: seq<nat> := [start];
      FirstStep(h, buckets[..], start);
      for k := 0 to kicks
        invariant 0 <= b < NUM_BUCKETS && cur != 0 && 0 !in buckets[b]
        invariant Walk(h, old(buckets[..]), start, walk) && |walk| == k + 1 && walk[k] == b
        invariant SameFull(old(buckets[..]), buckets[..])
        invariant Contents() + multiset{EntryAt(h, b, cur)} == old(Contents()) + multiset{EntryAt(h, start, fp)}
      {
        ghost var before := Contents();
        var j :| 0 <= j < SLOTS_PER_BUCKET;
        var kicked := buckets[b][j];
        assert kicked in buckets[b];
        ghost var bucket := buckets[b][j := cur];
        SlotUpdate(h, buckets[..], b, j, cur);
        ghost var table := buckets[..][b := bucket];
        KickKeepsFull(old(buckets[..]), buckets[..], b, j, cur);
        buckets[b] := buckets[b][j := cur];
        assert buckets[..] == table;
        SameEntryFromEitherBucket(h, b, kicked);
        b, cur := Bucket2(h, b, kicked), kicked;
        ok := InsertSlot(b, cur);
        if ok {
          return true, multiset{};
        }
        FullBefore(old(buckets[..]), buckets[..], b);
        WalkOn(h, old(buckets[..]), start, walk, kicked);
        walk := walk + [b];
      }
      return false, multiset{EntryAt(h, b, cur)};
    }

    /** Inserts the key's entry; when the kicks run out, exactly one entry is lost for it. */
    method Add(key: Bytes) returns (ok: bool, ghost lost: multiset<Entry>)
      requires Valid()
      modifies this`count, buckets
      ensures Valid()
      ensures Contents() + lost == old(Contents()) + multiset{KeyEntry(h, key)}
      ensures |lost| == if ok then 0 else 1
      ensures count == old(count) + if ok then 1 else 0
      ensures !ok ==> forall b | b in KeyEntry(h, key).home :: b < NUM_BUCKETS && 0 !in old(buckets[b])
      ensures !ok ==> exists start, walk ::
                start in KeyEntry(h, key).home && Walk(h, old(buckets[..]), start, walk) && |walk| == 501
    {
      hide Entries, Bucket2, Fingerprint, Bucket1, Walk;
      var fp, b1 := Fingerprint(h, key), Bucket1(h, key);
      var b2 := Bucket2(h, b1, fp);
      SameEntryFromEitherBucket(h, b1, fp);
      lost := multiset{};
      ok := InsertSlot(b1, fp);
      if ok {
        count := count + 1;
        return;
      }
      ok := InsertSlot(b2, fp);
      if ok {
        count := count + 1;
        return;
      }
      var coin: bool := *;
      var start := if coin then b1 else b2;
      ok, lost := Cascade(start, fp, MAX_KICKS);
      assert |Contents() + lost| == |old(Contents())| + 1;
      if ok {
        count := count + 1;
      }
    }

    /** Removes one copy of the key's entry, or changes nothing if there is none. */
    method Remove(key: Bytes) returns (ok: bool)
      requires Valid()
      modifies this`count, buckets
      ensures Valid()
      ensures ok <==> KeyEntry(h, key) in old(Contents())
      ensures ok ==> Contents() == old(Contents()) - multiset{KeyEntry(h, key)} && count == old(count) - 1
      ensures !ok ==> buckets[..] == old(buckets[..]) && count == old(count)
    {
      hide Entries, EntryAt, Bucket2, Fingerprint, Bucket1;
      var fp, b1 := Fingerprint(h, key), Bucket1(h, key);
      var b2 := Bucket2(h, b1, fp);
      SameEntryFromEitherBucket(h, b1, fp);
      EntryPresent(h, buckets[..], b1, fp);
      ok := RemoveSlot(b1, fp);
      if !ok {
        ok := RemoveSlot(b2, fp);
      }
      if ok {
        assert |Contents()| + 1 == |Contents() + multiset{KeyEntry(h, key)}| == old(|Contents()|);
        count := count - 1;
      }
    }

    /** Holds exactly when the key's entry is present. */
    method Contains(key: Bytes) returns (r: bool)
      requires Shaped()
      ensures r <==> KeyEntry(h, key) in Contents()
    {
      hide Entries, EntryAt, Bucket2, Fingerprint, Bucket1;
      var fp, b1 := Fingerprint(h, key), Bucket1(h, key);
      var b2 := Bucket2(h, b1, fp);
      EntryPresent(h, buckets[..], b1, fp);
      r := fp in buckets[b1] || fp in buckets[b2];
    }

    /** Takes over one fingerprint of another filter, unless its entry is already here. */
    method MergeSlot(b: nat, fp: u16) returns (ghost added: multiset<Entry>, ghost lost: multiset<Entry>, ghost exhausted: nat)
      requires Valid() && b < NUM_BUCKETS && fp != 0
      modifies this`count, buckets
      ensures Valid()
      ensures Contents() + lost == old(Contents()) + added
      ensures added == if EntryAt(h, b, fp) in old(Contents()) then multiset{} else multiset{EntryAt(h, b, fp)}
      ensures |lost| == exhausted <= |added|
      ensures exhausted > 0 ==> 0 !in old(buckets[b]) && 0 !in old(buckets[Bucket2(h, b, fp)])
      ensures exhausted > 0 ==> exists walk :: Walk(h, old(buckets[..]), b, walk) && |walk| == 33
    {
      hide Entries, EntryAt, Bucket2, Walk;
      var alt := Bucket2(h, b, fp);
      SameEntryFromEitherBucket(h, b, fp);
      EntryPresent(h, buckets[..], b, fp);
      added, lost, exhausted := multiset{}, multiset{}, 0;
      if fp in buckets[b] || fp in buckets[alt] {
        return;
      }
      added := multiset{EntryAt(h, b, fp)};
      var ok := InsertSlot(b, fp);
      if !ok {
        ok := InsertSlot(alt, fp);
      }
      if !ok {
        ok, lost := Cascade(b, fp, MERGE_KICKS);
        exhausted := if ok then 0 else 1;
      }
      assert |Contents() + lost| == |old(Contents())| + 1;
      if ok {
        count := count + 1;
      }
    }

    /** Takes over bucket `i` of another filter. */
    method MergeBucket(other: CuckooFilter, i: nat)
      returns (ghost added: multiset<Entry>, ghost lost: multiset<Entry>, ghost exhausted: nat)
      requires Valid() && other.Shaped() && other.buckets != buckets && i < NUM_BUCKETS
      modifies this`count, buckets
      ensures Valid()
      ensures Contents() + lost == old(Contents()) + added
      ensures added <= BucketEntries(h, i, other.buckets[i]) && |lost| == exhausted <= |added|
      ensures forall e | e in BucketEntries(h, i, other.buckets[i]) :: e in old(Contents()) + added
    {
      hide EntryAt, Bucket2, Entries, BucketEntries;
      ghost var mine, theirs := Contents(), other.buckets[i];
      added, lost, exhausted := multiset{}, multiset{}, 0;
      NoSlots(h, i, theirs);
      for j := 0 to SLOTS_PER_BUCKET
        invariant Valid() && other.buckets[i] == theirs
        invariant Contents() + lost == mine + added && |lost| == exhausted <= |added|
        invariant added <= BucketEntries(h, i, theirs[..j])
        invariant forall e | e in BucketEntries(h, i, theirs[..j]) :: e in mine + added
      {
        var fp := other.buckets[i][j];
        BucketSnoc(h, i, theirs, j);
        if fp != 0 {
          ghost var before := Contents();
          ghost var added1, lost1, exhausted1 := MergeSlot(i, fp);
          Absorb(before, Contents(), mine, added, lost, added1, lost1);
          CoverSlot(BucketEntries(h, i, theirs[..j]), EntryAt(h, i, fp), before, lost, mine, added, added1);
          added, lost, exhausted := added + added1, lost + lost1, exhausted + exhausted1;
        }
      }
      assert theirs[..SLOTS_PER_BUCKET] == theirs;
    }

    /** Merging is set union up to the entries lost by exhausted cascades, each of which loses exactly
        one: `added` and `lost` say which entries were taken over and lost, `exhausted` how many
        cascades ran out. */
    method Merge(other: CuckooFilter) returns (ghost added: multiset<Entry>, ghost lost: multiset<Entry>, ghost exhausted: nat)
      requires Valid() && other.Valid() && other.h == h && other != this && other.buckets != buckets
      modifies this`count, buckets
      ensures Valid() && other.buckets[..] == old(other.buckets[..])
      ensures Contents() + lost == old(Contents()) + added && added <= other.Contents()
      ensures |lost| == exhausted <= |added| && count == old(count) + |added| - exhausted
      ensures forall e | e in old(Contents()) || e in other.Contents() :: e in Contents() || e in lost
      ensures exhausted == 0 ==> forall e :: e in Contents() <==> e in old(Contents()) || e in other.Contents()
    {
      hide EntryAt, Bucket2, BucketEntries;
      ghost var mine, theirs := Contents(), other.buckets[..];
      added, lost, exhausted := multiset{}, multiset{}, 0;
      for i := 0 to NUM_BUCKETS
        invariant Valid() && other.buckets[..] == theirs
        invariant Contents() + lost == mine + added && |lost| == exhausted <= |added|
        invariant added <= Entries(h, theirs, i)
        invariant forall e | e in Entries(h, theirs, i) :: e in mine + added
      {
        ghost var before := Contents();
        ghost var added1, lost1, exhausted1 := MergeBucket(other, i);
        Absorb(before, Contents(), mine, added, lost, added1, lost1);
        CoverBucket(Entries(h, theirs, i), BucketEntries(h, i, theirs[i]), before, lost, mine, added, added1);
        added, lost, exhausted := added + added1, lost + lost1, exhausted + exhausted1;
      }
      assert |Contents() + lost| == |mine + added|;
      UnionUpToLost(Contents(), lost, mine, added, other.Contents());
    }

    method Encode() returns (out: array<u8>)
      requires Shaped()
      ensures fresh(out) && out[..] == Encoded(buckets[..])
    {
      out := new u8[FILTER_BYTES];
      for i := 0 to NUM_BUCKETS
        invariant buckets[..] == old(buckets[..])
        invariant forall k | 0 <= k < 8 * i :: out[k] == Encoded(buckets[..])[k]
      {
        for j := 0 to SLOTS_PER_BUCKET
          invariant buckets[..] == old(buckets[..])
          invariant forall k | 0 <= k < 8 * i + 2 * j :: out[k] == Encoded(buckets[..])[k]
        {
          SlotPosition(i, j, 0);
          SlotPosition(i, j, 1);
          var off := (i * SLOTS_PER_BUCKET + j) * 2;
          out[off], out[off + 1] := SlotByte(buckets[i][j], 0), SlotByte(buckets[i][j], 1);
        }
      }
    }

    /** One bucket read from the wire, and how many of its slots are occupied. */
    static method DecodeBucket(ghost h: Hashes, data: Bytes, i: nat) returns (bucket: Bucket, occupied: nat)
      requires |data| == FILTER_BYTES && i < NUM_BUCKETS
      ensures bucket == DecodedBucket(data, i)
      ensures occupied == |BucketEntries(h, i, bucket)|
    {
      hide EntryAt, U16Le, BucketEntries;
      NoSlots(h, i, DecodedBucket(data, i));
      bucket, occupied := FreeBucket(), 0;
      ghost var full := DecodedBucket(data, i);
      for j := 0 to SLOTS_PER_BUCKET
        invariant bucket[..j] == full[..j]
        invariant occupied == |BucketEntries(h, i, full[..j])|
      {
        var off := (i * SLOTS_PER_BUCKET + j) * 2;
        var v := U16Le(data[off], data[off + 1]);
        bucket := bucket[j := v];
        assert full[j] == v;
        BucketSnoc(h, i, full, j);
        if v != 0 {
          occupied := occupied + 1;
        }
      }
      assert full[..SLOTS_PER_BUCKET] == full && bucket[..SLOTS_PER_BUCKET] == bucket;
    }

    /** Every 4096 bytes are some filter; its count is taken from the slots. */
    static method Decode(h: Hashes, data: Bytes) returns (f: CuckooFilter)
      requires |data| == FILTER_BYTES
      ensures fresh(f) && fresh(f.buckets) && f.h == h && f.Valid()
      ensures f.buckets[..] == Decoded(data)
    {
      hide EntryAt, DecodedBucket, BucketEntries;
      f := new CuckooFilter(h);
      var count := 0;
      ghost var t := Decoded(data);
      for i := 0 to NUM_BUCKETS
        invariant fresh(f.buckets) && f.Shaped()
        invariant forall b | 0 <= b < i :: f.buckets[b] == t[b]
        invariant count == |Entries(h, t, i)|
      {
        var bucket, occupied := DecodeBucket(h, data, i);
        f.buckets[i] := bucket;
        count := count + occupied;
      }
      assert f.buckets[..] == t;
      f.count := count;
    }
  }

  /** The bookkeeping of two merge steps in a row. */
  lemma Absorb(before: multiset<Entry>, after: multiset<Entry>, mine: multiset<Entry>, added: multiset<Entry>, lost: multiset<Entry>,
               added1: multiset<Entry>, lost1: multiset<Entry>)
    requires before + lost == mine + added && after + lost1 == before + added1
    ensures after + (lost + lost1) == mine + (added + added1)
  {
    forall x ensures (after + (lost + lost1))[x] == (mine + (added + added1))[x] {
      assert (before + lost)[x] == (mine + added)[x] && (after + lost1)[x] == (before + added1)[x];
    }
  }

  lemma CoverSlot(done: multiset<Entry>, e: Entry, before: multiset<Entry>, lost: multiset<Entry>,
                  mine: multiset<Entry>, added: multiset<Entry>, added1: multiset<Entry>)
    requires before + lost == mine + added && added <= done
    requires forall x | x in done :: x in mine + added
    requires added1 == if e in before then multiset{} else multiset{e}
    ensures added + added1 <= done + multiset{e}
    ensures forall x | x in done + multiset{e} :: x in mine + (added + added1)
  {
    assert e in before ==> e in before + lost;
  }

  lemma CoverBucket(done: multiset<Entry>, more: multiset<Entry>, before: multiset<Entry>, lost: multiset<Entry>,
                    mine: multiset<Entry>, added: multiset<Entry>, added1: multiset<Entry>)
    requires before + lost == mine + added && added <= done && added1 <= more
    requires forall x | x in done :: x in mine + added
    requires forall x | x in more :: x in before + added1
    ensures added + added1 <= done + more
    ensures forall x | x in done + more :: x in mine + (added + added1)
  {
    assert forall x | x in before :: x in before + lost;
  }

  lemma UnionUpToLost(after: multiset<Entry>, lost: multiset<Entry>, mine: multiset<Entry>, added: multiset<Entry>, theirs: multiset<Entry>)
    requires after + lost == mine + added && added <= theirs
    requires forall e | e in theirs :: e in mine + added
    ensures forall e | e in mine || e in theirs :: e in after || e in lost
    ensures lost == multiset{} ==> forall e :: e in after <==> e in mine || e in theirs
  {
    forall e ensures (e in after || e in lost) <==> (e in mine || e in added) {
      assert e in after + lost <==> e in mine + added;
    }
  }

  lemma {:induction false} EmptyTable(h: Hashes, t: Table, n: nat)
    requires n <= NUM_BUCKETS && forall i | 0 <= i < NUM_BUCKETS :: t[i] == FreeBucket()
    ensures Entries(h, t, n) == multiset{}
  {
    if n > 0 {
      EmptyTable(h, t, n - 1);
      EmptySlots(h, n - 1, t[n - 1]);
    }
  }

  lemma {:induction false} EmptySlots(h: Hashes, b: nat, slots: seq<u16>)
    requires forall i | 0 <= i < |slots| :: slots[i] == 0
    ensures BucketEntries(h, b, slots) == multiset{}
  {
    if slots != [] {
      EmptySlots(h, b, slots[..|slots| - 1]);
    }
  }
}
