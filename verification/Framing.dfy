/** Reads of one index depend on its own entries only, so clearing, removing or
    rebuilding another index changes none of them. */
module Framing {
  import opened Options
  import opened ByteOrder
  import opened Utf8
  import opened Document
  import opened Store
  import opened Install
  import opened Lookup
  import opened Range

  /** The two states hold the same entries under the index. */
  ghost predicate SameUnder(a: set<Bytes>, b: set<Bytes>, prefix: Bytes) {
    forall k :: StartsWith(k, prefix) ==> (k in a <==> k in b)
  }

  lemma {:induction false} SameIds(a: set<Bytes>, b: set<Bytes>, prefix: Bytes, encoded: seq<Bytes>)
    requires SameUnder(a, b, prefix)
    ensures IdsOfKeys(a, prefix, encoded) == IdsOfKeys(b, prefix, encoded)
    decreases |encoded|
  {
    hide PrefixScan;
    if encoded != [] {
      var longer := prefix + encoded[|encoded| - 1];
      SameIds(a, b, prefix, encoded[..|encoded| - 1]);
      PrefixScanExact(a, longer);
      PrefixScanExact(b, longer);
      assert Under(a, longer) == Under(b, longer) by {
        assert forall k :: StartsWith(k, longer) ==> StartsWith(k, prefix);
      }
    }
  }

  lemma SameRangeKeys(a: set<Bytes>, b: set<Bytes>, prefix: Bytes, r: ClassRange)
    requires SameUnder(a, b, prefix) && r.tag < 255
    ensures RangeKeys(a, prefix, r) == RangeKeys(b, prefix, r)
  {
    hide RangeKeys;
    forall k ensures k in RangeKeys(a, prefix, r) <==> k in RangeKeys(b, prefix, r) {
      RangeKeysMembers(a, prefix, r, k);
      RangeKeysMembers(b, prefix, r, k);
      if InBytes(prefix, r, k) { InBytesIsUnder(prefix, r, k); }
    }
    RangeKeysMembers(a, prefix, r, []);
    RangeKeysMembers(b, prefix, r, []);
    AscendingIsUnique(RangeKeys(a, prefix, r), RangeKeys(b, prefix, r));
  }

  lemma {:induction false} SameRanges(a: set<Bytes>, b: set<Bytes>, prefix: Bytes, ranges: seq<ClassRange>)
    requires SameUnder(a, b, prefix) && forall r :: r in ranges ==> Tagged(r)
    ensures IdsOfRanges(a, prefix, ranges) == IdsOfRanges(b, prefix, ranges)
    decreases |ranges|
  {
    hide RangeKeys;
    hide SameUnder;
    if ranges != [] {
      assert ranges[|ranges| - 1] in ranges;
      assert Tagged(ranges[|ranges| - 1]);
      SameRanges(a, b, prefix, ranges[..|ranges| - 1]);
      SameRangeKeys(a, b, prefix, ranges[|ranges| - 1]);
    }
  }

  /** States with the same entries under an index answer its reads alike. */
  lemma ReadsAreOwn(env: Env, s: State, t: State, def: IndexDef, probe: Value, lower: Option<Value>, upper: Option<Value>)
    requires SameUnder(s.entries, t.entries, def.EntryPrefix())
    ensures EqualIds(env, s, def, probe) == EqualIds(env, t, def, probe)
    ensures RangeIds(env, s, def, lower, upper) == RangeIds(env, t, def, lower, upper)
  {
    hide SameUnder;
    hide RangeClasses;
    hide EncodeCoercible;
    SameIds(s.entries, t.entries, def.EntryPrefix(), EncodeCoercible(env, FoldCase(env, def, probe)));
    ClassesAreTagged(env, def, lower, upper);
    SameRanges(s.entries, t.entries, def.EntryPrefix(), RangeClasses(env, def, lower, upper));
  }

  ghost predicate Apart(a: IndexDef, b: IndexDef) {
    a.collection != b.collection || a.name != b.name
  }

  /** Removing one index leaves every read of another as it was. */
  lemma RemovalLeavesReads(env: Env, s: State, name: Ident, other: IndexDef, probe: Value, lower: Option<Value>, upper: Option<Value>)
    requires TwoViews(s) && name in s.defs && Apart(s.defs[name], other)
    ensures EqualIds(env, RemoveDef(s, name), other, probe) == EqualIds(env, s, other, probe)
    ensures RangeIds(env, RemoveDef(s, name), other, lower, upper) == RangeIds(env, s, other, lower, upper)
  {
    hide TwoViews;
    hide RemoveDef;
    hide EqualIds;
    hide RangeIds;
    var t := RemoveDef(s, name);
    forall k | StartsWith(k, other.EntryPrefix()) ensures k in t.entries <==> k in s.entries {
      RemoveDefShows(s, name, k);
      if k in s.entries { EntryUnder(s, other, k); }
    }
    ReadsAreOwn(env, t, s, other, probe, lower, upper);
  }

  /** So does building or rebuilding it. */
  lemma InstallLeavesReads(env: Env, s: State, def: IndexDef, rows: seq<Listed>, other: IndexDef,
                           probe: Value, lower: Option<Value>, upper: Option<Value>)
    requires TwoViews(s) && KeepsCollection(s, def) && Apart(def, other)
    ensures EqualIds(env, Installed(env, s, def, rows), other, probe) == EqualIds(env, s, other, probe)
    ensures RangeIds(env, Installed(env, s, def, rows), other, lower, upper) == RangeIds(env, s, other, lower, upper)
  {
    hide TwoViews;
    hide Installed;
    hide EqualIds;
    hide RangeIds;
    var t := Installed(env, s, def, rows);
    forall k | StartsWith(k, other.EntryPrefix()) ensures k in t.entries <==> k in s.entries {
      InstalledShows(env, s, def, rows, k);
      if k in s.entries { EntryUnder(s, other, k); }
      if k in t.entries { EntryUnder(t, other, k); }
    }
    ReadsAreOwn(env, t, s, other, probe, lower, upper);
  }
}
