/** The order of a range read: class by class, and by entry key within a class,
    each document where its first entry falls. */
module RangeOrder {
  import opened Options
  import opened ByteOrder
  import opened Utf8
  import opened Key
  import opened Document
  import opened Store
  import opened Install
  import opened Lookup
  import opened Range

  /** An entry the read passes, in the class at position `at`. */
  datatype Hit = Hit(at: nat, key: Bytes)

  predicate Before(a: Hit, b: Hit) {
    a.at < b.at || (a.at == b.at && Less(a.key, b.key))
  }

  /** `h` is an entry of document `id` in its class and within the bounds. */
  ghost predicate HitOf(s: State, def: IndexDef, ranges: seq<ClassRange>, id: Text, h: Hit) {
    && h.at < |ranges| && h.key in s.entries
    && exists e :: InClass(ranges[h.at], e) && h.key == EntryKey(def.EntryPrefix(), e, id)
  }

  // ── First occurrences ─────────────────────────────────────────────────────

  ghost function First(ids: seq<Text>, id: Text): (n: nat)
    requires id in ids
    ensures n < |ids| && ids[n] == id && id !in ids[..n]
  {
    if id in ids[..|ids| - 1] then
      var n := First(ids[..|ids| - 1], id);
      assert ids[..|ids| - 1][..n] == ids[..n];
      n
    else |ids| - 1
  }

  /** Dropping repeats keeps the order of first occurrences. */
  lemma {:induction false} DedupOrder(ids: seq<Text>, i: nat, j: nat)
    requires i < j < |Dedup(ids)|
    ensures Dedup(ids)[i] in ids && Dedup(ids)[j] in ids
    ensures First(ids, Dedup(ids)[i]) < First(ids, Dedup(ids)[j])
    decreases |ids|
  {
    var init, last := ids[..|ids| - 1], ids[|ids| - 1];
    DedupExact(ids);
    DedupExact(init);
    assert Dedup(ids)[i] in Dedup(init);
    if j < |Dedup(init)| {
      DedupOrder(init, i, j);
    } else {
      assert last !in Dedup(init);
    }
  }

  // ── The entries a read passes ─────────────────────────────────────────────

  ghost function HitsIn(at: nat, keys: seq<Bytes>): (hits: seq<Hit>)
    ensures |hits| == |keys| && forall n :: 0 <= n < |keys| ==> hits[n] == Hit(at, keys[n])
  {
    seq(|keys|, n requires 0 <= n < |keys| => Hit(at, keys[n]))
  }

  ghost function Hits(entries: set<Bytes>, prefix: Bytes, ranges: seq<ClassRange>): seq<Hit>
    requires forall r :: r in ranges ==> Tagged(r)
  {
    if ranges == [] then []
    else
      assert Tagged(ranges[|ranges| - 1]) by { assert ranges[|ranges| - 1] in ranges; }
      Hits(entries, prefix, ranges[..|ranges| - 1]) + HitsIn(|ranges| - 1, RangeKeys(entries, prefix, ranges[|ranges| - 1]))
  }

  lemma {:induction false} IdsFollowKeys(keys: seq<Bytes>, prefix: Bytes)
    requires forall k :: k in keys ==> EntryDocId(k, prefix).Some?
    ensures |DocIds(keys, prefix)| == |keys|
    ensures forall n :: 0 <= n < |keys| ==> EntryDocId(keys[n], prefix) == Some(DocIds(keys, prefix)[n])
    decreases |keys|
  {
    hide EntryDocId;
    if keys != [] {
      assert keys[|keys| - 1] in keys;
      IdsFollowKeys(keys[..|keys| - 1], prefix);
    }
  }

  lemma KeysAreRead(s: State, def: IndexDef, r: ClassRange)
    requires TwoViews(s) && Tagged(r)
    ensures forall k :: k in RangeKeys(s.entries, def.EntryPrefix(), r) ==> EntryDocId(k, def.EntryPrefix()).Some?
  {
    forall k | k in RangeKeys(s.entries, def.EntryPrefix(), r) ensures EntryDocId(k, def.EntryPrefix()).Some? {
      RangeKeysMembers(s.entries, def.EntryPrefix(), r, k);
      InBytesIsUnder(def.EntryPrefix(), r, k);
      EntryUnder(s, def, k);
      ParsedRebuilds(k);
      var p := ParseEntry(k).value;
      hide ParseEntry;
      EntryDocIdReads(def.EntryPrefix(), p.value, p.docId);
    }
  }

  ghost predicate InOrder(hits: seq<Hit>) {
    forall m, n :: 0 <= m < n < |hits| ==> Before(hits[m], hits[n])
  }

  /** Position by position, the ids are those of the entries passed. */
  ghost predicate IdsOfHits(ids: seq<Text>, hits: seq<Hit>, prefix: Bytes) {
    |ids| == |hits| && forall n :: 0 <= n < |ids| ==> EntryDocId(hits[n].key, prefix) == Some(ids[n])
  }

  lemma {:induction false} HitsAreIds(s: State, def: IndexDef, ranges: seq<ClassRange>)
    requires TwoViews(s) && forall r :: r in ranges ==> Tagged(r)
    ensures IdsOfHits(IdsOfRanges(s.entries, def.EntryPrefix(), ranges), Hits(s.entries, def.EntryPrefix(), ranges), def.EntryPrefix())
    decreases |ranges|
  {
    hide TwoViews;
    hide Tagged;
    hide RangeKeys;
    hide EntryDocId;
    if ranges != [] {
      var init, last := ranges[..|ranges| - 1], ranges[|ranges| - 1];
      assert forall r :: r in ranges <==> r in init || r == last;
      HitsAreIds(s, def, init);
      TagIsLow(last);
      KeysAreRead(s, def, last);
      IdsFollowKeys(RangeKeys(s.entries, def.EntryPrefix(), last), def.EntryPrefix());
    }
  }

  lemma {:induction false} HitsAscend(entries: set<Bytes>, prefix: Bytes, ranges: seq<ClassRange>)
    requires forall r :: r in ranges ==> Tagged(r)
    ensures InOrder(Hits(entries, prefix, ranges))
    ensures forall n :: 0 <= n < |Hits(entries, prefix, ranges)| ==> Hits(entries, prefix, ranges)[n].at < |ranges|
    decreases |ranges|
  {
    hide RangeKeys;
    hide Tagged;
    hide InOrder;
    if ranges == [] {
      NoHits();
    } else {
      var init, last := ranges[..|ranges| - 1], ranges[|ranges| - 1];
      assert forall r :: r in ranges <==> r in init || r == last;
      HitsAscend(entries, prefix, init);
      TagIsLow(last);
      RangeKeysMembers(entries, prefix, last, []);
      LaterHitsAscend(Hits(entries, prefix, init), |init|, RangeKeys(entries, prefix, last));
    }
  }

  lemma NoHits()
    ensures InOrder([])
  {
  }

  lemma LaterHitsAscend(hits: seq<Hit>, at: nat, keys: seq<Bytes>)
    requires InOrder(hits) && Ascends(keys) && forall n :: 0 <= n < |hits| ==> hits[n].at < at
    ensures InOrder(hits + HitsIn(at, keys))
  {
    hide Less;
    var all := hits + HitsIn(at, keys);
    forall m, n | 0 <= m < n < |all| ensures Before(all[m], all[n]) {
      if m >= |hits| { assert Less(keys[m - |hits|], keys[n - |hits|]); }
    }
  }

  /** Every entry of the document within the bounds is passed somewhere. */
  lemma {:induction false} HitIsPassed(s: State, def: IndexDef, ranges: seq<ClassRange>, id: Text, h: Hit) returns (n: nat)
    requires TwoViews(s) && (forall r :: r in ranges ==> Tagged(r)) && HitOf(s, def, ranges, id, h)
    ensures n < |Hits(s.entries, def.EntryPrefix(), ranges)| && Hits(s.entries, def.EntryPrefix(), ranges)[n] == h
    decreases |ranges|
  {
    hide TwoViews;
    var prefix := def.EntryPrefix();
    var init, last := ranges[..|ranges| - 1], ranges[|ranges| - 1];
    assert forall r :: r in ranges <==> r in init || r == last;
    if h.at < |init| {
      n := HitIsPassed(s, def, init, id, h);
    } else {
      var e :| InClass(last, e) && h.key == EntryKey(prefix, e, id);
      hide InClass;
      EntryKeySplits(prefix, e, id);
      TailInBytes(prefix, last, e + id);
      ValueInBytes(last, e, id) by { assert IsEncoded(e) by { InClassIsEncoded(last, e); } }
      RangeKeysMembers(s.entries, prefix, last, h.key);
      hide RangeKeys;
      var m :| 0 <= m < |RangeKeys(s.entries, prefix, last)| && RangeKeys(s.entries, prefix, last)[m] == h.key;
      n := |Hits(s.entries, prefix, init)| + m;
    }
  }

  /** What is passed is an entry of its document. */
  lemma {:induction false} PassedIsHit(s: State, def: IndexDef, ranges: seq<ClassRange>, id: Text, n: nat)
    requires TwoViews(s) && (forall r :: r in ranges ==> Tagged(r)) && n < |Hits(s.entries, def.EntryPrefix(), ranges)|
    requires EntryDocId(Hits(s.entries, def.EntryPrefix(), ranges)[n].key, def.EntryPrefix()) == Some(id)
    ensures HitOf(s, def, ranges, id, Hits(s.entries, def.EntryPrefix(), ranges)[n])
    decreases |ranges|
  {
    hide TwoViews;
    hide EntryDocId;
    hide InClass;
    hide Tagged;
    hide RangeKeys;
    var prefix := def.EntryPrefix();
    var init, last := ranges[..|ranges| - 1], ranges[|ranges| - 1];
    assert forall r :: r in ranges <==> r in init || r == last;
    var before, hits := Hits(s.entries, prefix, init), Hits(s.entries, prefix, ranges);
    TagIsLow(last);
    if n < |before| {
      assert hits[n] == before[n];
      PassedIsHit(s, def, init, id, n);
      assert ranges[before[n].at] == init[before[n].at];
    } else {
      assert hits[n] == Hit(|init|, RangeKeys(s.entries, prefix, last)[n - |before|]);
      LastIsHit(s, def, last, id, hits[n].key);
    }
  }

  lemma LastIsHit(s: State, def: IndexDef, r: ClassRange, id: Text, k: Bytes)
    requires TwoViews(s) && Tagged(r) && k in RangeKeys(s.entries, def.EntryPrefix(), r)
    requires EntryDocId(k, def.EntryPrefix()) == Some(id)
    ensures k in s.entries && exists e :: InClass(r, e) && k == EntryKey(def.EntryPrefix(), e, id)
  {
    hide TwoViews;
    hide InClass;
    RangeKeysMembers(s.entries, def.EntryPrefix(), r, k);
    var e := FoundValue(s, def, r, k, id);
  }

  lemma TagIsLow(r: ClassRange)
    requires Tagged(r)
    ensures r.tag < 255
  {
  }

  /** Documents come in the order of their first entry within the bounds: class
      by class, ascending within each class. */
  lemma RangeAscends(env: Env, s: State, def: IndexDef, lower: Option<Value>, upper: Option<Value>, i: nat, j: nat, later: Hit)
    requires TwoViews(s) && RangeIds(env, s, def, lower, upper).Some?
    requires i < j < |RangeIds(env, s, def, lower, upper).value|
    requires HitOf(s, def, RangeClasses(env, def, lower, upper), RangeIds(env, s, def, lower, upper).value[j], later)
    ensures exists h :: HitOf(s, def, RangeClasses(env, def, lower, upper), RangeIds(env, s, def, lower, upper).value[i], h)
                        && Before(h, later)
  {
    hide TwoViews;
    hide RangeClasses;
    hide HitOf;
    hide EntryDocId;
    ClassesAreTagged(env, def, lower, upper);
    hide Tagged;
    var ranges, prefix := RangeClasses(env, def, lower, upper), def.EntryPrefix();
    var ids, hits := IdsOfRanges(s.entries, prefix, ranges), Hits(s.entries, prefix, ranges);
    HitsAreIds(s, def, ranges);
    HitsAscend(s.entries, prefix, ranges);
    DedupOrder(ids, i, j);
    var m, f := First(ids, Dedup(ids)[i]), First(ids, Dedup(ids)[j]);
    var n := HitIsPassed(s, def, ranges, Dedup(ids)[j], later);
    HitHasDoc(s, def, ranges, Dedup(ids)[j], later);
    hide Hits;
    hide IdsOfRanges;
    assert ids[n] == Dedup(ids)[j] && n >= f;
    PassedIsHit(s, def, ranges, Dedup(ids)[i], m);
    assert Before(hits[m], hits[n]);
  }

  lemma HitHasDoc(s: State, def: IndexDef, ranges: seq<ClassRange>, id: Text, h: Hit)
    requires HitOf(s, def, ranges, id, h)
    ensures EntryDocId(h.key, def.EntryPrefix()) == Some(id)
  {
    var e :| InClass(ranges[h.at], e) && h.key == EntryKey(def.EntryPrefix(), e, id);
    InClassIsEncoded(ranges[h.at], e);
    hide InClass;
    EntryDocIdReads(def.EntryPrefix(), e, id);
  }
}
