/** Equality reads: candidates by key, then confirmed on the rows. */
module Lookup {
  import opened Options
  import opened ByteOrder
  import opened Utf8
  import opened Key
  import opened Document
  import opened Store
  import opened Maintain
  import opened Install
  import Fields
  import Unique

  /** The document ids of `keys`, read under `indexPrefix`. */
  function DocIds(keys: seq<Bytes>, indexPrefix: Bytes): seq<Text> {
    if keys == [] then []
    else
      var rest := DocIds(keys[..|keys| - 1], indexPrefix);
      match EntryDocId(keys[|keys| - 1], indexPrefix)
      case Some(id) => rest + [id]
      case None => rest
  }

  /** A prefix scan, reduced to ids. */
  function IdsUnder(entries: set<Bytes>, indexPrefix: Bytes, prefix: Bytes): seq<Text> {
    DocIds(PrefixScan(entries, prefix), indexPrefix)
  }

  /** Repeats dropped. */
  function Dedup(ids: seq<Text>): seq<Text> {
    if ids == [] then []
    else
      var rest := Dedup(ids[..|ids| - 1]);
      if ids[|ids| - 1] in rest then rest else rest + [ids[|ids| - 1]]
  }

  function IdsOfKeys(entries: set<Bytes>, indexPrefix: Bytes, encoded: seq<Bytes>): seq<Text> {
    if encoded == [] then []
    else IdsOfKeys(entries, indexPrefix, encoded[..|encoded| - 1])
         + IdsUnder(entries, indexPrefix, indexPrefix + encoded[|encoded| - 1])
  }

  /** The candidates for a probe, over all the keys it may be stored under. */
  function EqualIds(env: Env, s: State, def: IndexDef, probe: Value): seq<Text> {
    Dedup(IdsOfKeys(s.entries, def.EntryPrefix(), EncodeCoercible(env, FoldCase(env, def, probe))))
  }

  // ── Exactness ─────────────────────────────────────────────────────────────

  lemma {:induction false} DocIdsOf(keys: seq<Bytes>, indexPrefix: Bytes, id: Text)
    ensures id in DocIds(keys, indexPrefix) <==> exists k :: k in keys && EntryDocId(k, indexPrefix) == Some(id)
    decreases |keys|
  {
    hide EntryDocId;
    if keys != [] {
      var init, last := keys[..|keys| - 1], keys[|keys| - 1];
      DocIdsOf(init, indexPrefix, id);
      assert forall k :: k in keys <==> k in init || k == last;
    }
  }

  lemma {:induction false} DedupExact(ids: seq<Text>)
    ensures forall id :: id in Dedup(ids) <==> id in ids
    ensures forall i, j :: 0 <= i < j < |Dedup(ids)| ==> Dedup(ids)[i] != Dedup(ids)[j]
    decreases |ids|
  {
    if ids != [] {
      DedupExact(ids[..|ids| - 1]);
      assert forall id :: id in ids <==> id in ids[..|ids| - 1] || id == ids[|ids| - 1];
    }
  }

  lemma ValueUnder(prefix: Bytes, value: Bytes, docId: Text, encoded: Bytes)
    requires IsEncoded(value) && IsEncoded(encoded)
    ensures StartsWith(EntryKey(prefix, value, docId), prefix + encoded) <==> value == encoded
  {
    hide IsEncoded;
    var k := EntryKey(prefix, value, docId);
    EntryKeySplits(prefix, value, docId);
    if StartsWith(k, prefix + encoded) {
      var tail := k[|prefix + encoded|..];
      assert k == (prefix + encoded) + tail == prefix + (encoded + tail);
      assert value + docId == k[|prefix|..] == encoded + tail;
      EncodedSplitsUniquely(value, docId, encoded, tail);
    }
  }

  lemma OtherIndexElsewhere(s: State, def: IndexDef, encoded: Bytes, k: Bytes)
    requires TwoViews(s) && k in s.entries && !Names(ParseEntry(k).value, def)
    ensures !StartsWith(k, def.EntryPrefix() + encoded)
  {
    EntryUnder(s, def, k);
    assert def.EntryPrefix() <= def.EntryPrefix() + encoded;
  }

  /** Under an index's prefix and one encoded value lie exactly the entries of
      that value. */
  lemma EntryUnderValue(s: State, def: IndexDef, encoded: Bytes, k: Bytes)
    requires TwoViews(s) && k in s.entries && IsEncoded(encoded)
    ensures ParseEntry(k).Some?
    ensures StartsWith(k, def.EntryPrefix() + encoded)
       <==> Names(ParseEntry(k).value, def) && ParseEntry(k).value.value == encoded
    ensures Names(ParseEntry(k).value, def) ==> EntryDocId(k, def.EntryPrefix()) == Some(ParseEntry(k).value.docId)
  {
    EntryUnder(s, def, k);
    hide IsEncoded;
    hide EntryDocId;
    ParsedRebuilds(k);
    var p := ParseEntry(k).value;
    if Names(p, def) {
      hide ParseEntry;
      EntryDocIdReads(def.EntryPrefix(), p.value, p.docId);
      ValueUnder(def.EntryPrefix(), p.value, p.docId, encoded);
    } else {
      OtherIndexElsewhere(s, def, encoded, k);
    }
  }

  lemma IdsUnderExact(s: State, def: IndexDef, encoded: Bytes, id: Text)
    requires TwoViews(s) && IsEncoded(encoded)
    ensures id in IdsUnder(s.entries, def.EntryPrefix(), def.EntryPrefix() + encoded)
       <==> EntryKey(def.EntryPrefix(), encoded, id) in s.entries
  {
    var prefix := def.EntryPrefix();
    var keys := PrefixScan(s.entries, prefix + encoded);
    PrefixScanExact(s.entries, prefix + encoded);
    assert forall k :: k in keys <==> k in s.entries && StartsWith(k, prefix + encoded);
    DocIdsOf(keys, prefix, id);
    hide PrefixScan;
    var key := EntryKey(prefix, encoded, id);
    if key in s.entries {
      EntryParses(def.collection, def.name, encoded, id);
      EntryUnderValue(s, def, encoded, key);
    }
    if id in DocIds(keys, prefix) {
      var k :| k in keys && EntryDocId(k, prefix) == Some(id);
      EntryUnderValue(s, def, encoded, k);
      ParsedRebuilds(k);
    }
  }

  lemma {:induction false} IdsOfKeysExact(s: State, def: IndexDef, encoded: seq<Bytes>, id: Text)
    requires TwoViews(s) && forall e :: e in encoded ==> IsEncoded(e)
    ensures id in IdsOfKeys(s.entries, def.EntryPrefix(), encoded)
       <==> exists e :: e in encoded && EntryKey(def.EntryPrefix(), e, id) in s.entries
    decreases |encoded|
  {
    hide TwoViews;
    hide IdsUnder;
    hide IsEncoded;
    if encoded != [] {
      var init, last := encoded[..|encoded| - 1], encoded[|encoded| - 1];
      assert forall e :: e in encoded <==> e in init || e == last;
      IdsOfKeysExact(s, def, init, id);
      IdsUnderExact(s, def, last, id);
    }
  }

  /** An equality read returns exactly the documents with an entry under a key
      of the probe, each once. */
  lemma EqualIdsExact(env: Env, s: State, def: IndexDef, probe: Value, id: Text)
    requires TwoViews(s)
    ensures id in EqualIds(env, s, def, probe)
       <==> exists e :: e in EncodeCoercible(env, FoldCase(env, def, probe)) && EntryKey(def.EntryPrefix(), e, id) in s.entries
    ensures forall i, j :: 0 <= i < j < |EqualIds(env, s, def, probe)| ==>
      EqualIds(env, s, def, probe)[i] != EqualIds(env, s, def, probe)[j]
  {
    var encoded := EncodeCoercible(env, FoldCase(env, def, probe));
    forall e | e in encoded ensures IsEncoded(e) {
      var _ := KeyHasForm(env, FoldCase(env, def, probe), e);
    }
    IdsOfKeysExact(s, def, encoded, id);
    DedupExact(IdsOfKeys(s.entries, def.EntryPrefix(), encoded));
  }

  // ── An equality read, confirmed, is a scan ────────────────────────────────

  /** The rows of `ids`, in order, that satisfy the probe. */
  function Confirmed(env: Env, def: IndexDef, rows: Rows, ids: seq<Text>, probe: Value): seq<Text> {
    if ids == [] then []
    else
      var rest := Confirmed(env, def, rows, ids[..|ids| - 1], probe);
      var ref := (def.collection, ids[|ids| - 1]);
      if ref in rows && MatchesProbe(env, def, rows[ref], probe) then rest + [ref.1] else rest
  }

  lemma {:induction false} ConfirmedKeeps(env: Env, def: IndexDef, rows: Rows, ids: seq<Text>, probe: Value)
    requires forall i, j :: 0 <= i < j < |ids| ==> ids[i] != ids[j]
    ensures forall id :: id in Confirmed(env, def, rows, ids, probe) <==>
      (id in ids && (def.collection, id) in rows && MatchesProbe(env, def, rows[(def.collection, id)], probe))
    ensures forall i, j :: 0 <= i < j < |Confirmed(env, def, rows, ids, probe)| ==>
      Confirmed(env, def, rows, ids, probe)[i] != Confirmed(env, def, rows, ids, probe)[j]
    decreases |ids|
  {
    hide MatchesProbe;
    if ids != [] {
      var init, last := ids[..|ids| - 1], ids[|ids| - 1];
      ConfirmedKeeps(env, def, rows, init, probe);
      assert forall id :: id in ids <==> id in init || id == last;
      assert last !in init;
    }
  }

  /** Confirming keeps the order of the candidates. */
  lemma {:induction false} ConfirmedInOrder(env: Env, def: IndexDef, rows: Rows, first: seq<Text>, rest: seq<Text>, probe: Value)
    ensures Confirmed(env, def, rows, first + rest, probe)
         == Confirmed(env, def, rows, first, probe) + Confirmed(env, def, rows, rest, probe)
    decreases |rest|
  {
    hide MatchesProbe;
    if rest == [] {
      assert first + rest == first;
    } else {
      var n := |rest| - 1;
      ConfirmedInOrder(env, def, rows, first, rest[..n], probe);
      assert (first + rest)[..|first + rest| - 1] == first + rest[..n];
    }
  }

  /** A row satisfying the comparison shares an encoded value with the probe. */
  lemma ScannedRowSharesKey(env: Env, def: IndexDef, row: Value, probe: Value) returns (e: Bytes)
    requires Lawful(env) && Indexable(probe) && Covers(env, def, row) && MatchesProbe(env, def, row, probe)
    ensures e in EncodedValues(env, def, row) && e in EncodeCoercible(env, FoldCase(env, def, probe))
  {
    hide EncodeCoercible;
    hide ShareReading;
    var field, folded := FoldCase(env, def, FieldAt(row, def.path).value), FoldCase(env, def, probe);
    assert Indexable(folded);
    assert ShareReading(env, field, folded);
    e := SharedReadingGivesKey(env, field, folded);
    ReadingNeedsScalar(env, field, folded);
    assert IndexValues(env, def, row) == [field];
    assert field in IndexValues(env, def, row);
  }

  lemma ReadingNeedsScalar(env: Env, a: Value, b: Value)
    requires ShareReading(env, a, b)
    ensures Indexable(a)
  {
    var r :| r in Readings(env, a) && r in Readings(env, b);
    assert Forms(env, a) != [];
  }

  /** A row a scan finds has an entry the lookup finds. */
  lemma ScannedRowIsFound(env: Env, s: State, def: IndexDef, rows: Rows, id: Text, probe: Value)
    requires Lawful(env) && Indexable(probe) && TwoViews(s)
    requires def.name in s.defs && s.defs[def.name] == def && Agrees(env, s, rows)
    requires (def.collection, id) in rows && Covers(env, def, rows[(def.collection, id)])
    requires MatchesProbe(env, def, rows[(def.collection, id)], probe)
    ensures id in EqualIds(env, s, def, probe)
  {
    hide Lawful;
    hide TwoViews;
    hide EncodedValues;
    hide EncodeCoercible;
    hide MatchesProbe;
    var row := rows[(def.collection, id)];
    var e := ScannedRowSharesKey(env, def, row, probe);
    EncodedValuesAreEncoded(env, def, row, e);
    EntryParses(def.collection, def.name, e, id);
    assert AgreesOn(env, s, rows, EntryKey(def.EntryPrefix(), e, id));
    EqualIdsExact(env, s, def, probe, id);
  }

  /** What a lookup finds, the index's predicate covers. */
  lemma FoundRowIsCovered(env: Env, s: State, def: IndexDef, rows: Rows, id: Text, probe: Value)
    requires TwoViews(s) && def.name in s.defs && s.defs[def.name] == def && Agrees(env, s, rows)
    requires id in EqualIds(env, s, def, probe)
    ensures (def.collection, id) in rows && Covers(env, def, rows[(def.collection, id)])
  {
    EqualIdsExact(env, s, def, probe, id);
    var e :| e in EncodeCoercible(env, FoldCase(env, def, probe)) && EntryKey(def.EntryPrefix(), e, id) in s.entries;
    var _ := KeyHasForm(env, FoldCase(env, def, probe), e);
    EntryParses(def.collection, def.name, e, id);
    assert AgreesOn(env, s, rows, EntryKey(def.EntryPrefix(), e, id));
  }

  /** For every scalar probe, looking up and confirming gives exactly the rows
      in the index that a full scan with the same comparison finds, each once. */
  lemma LookupRefinesScan(env: Env, s: State, def: IndexDef, rows: Rows, probe: Value)
    requires Lawful(env) && Indexable(probe) && TwoViews(s)
    requires def.name in s.defs && s.defs[def.name] == def && Agrees(env, s, rows)
    ensures var found := Confirmed(env, def, rows, EqualIds(env, s, def, probe), probe);
      && (forall id :: id in found <==>
            && (def.collection, id) in rows
            && Covers(env, def, rows[(def.collection, id)])
            && MatchesProbe(env, def, rows[(def.collection, id)], probe))
      && (forall i, j :: 0 <= i < j < |found| ==> found[i] != found[j])
  {
    hide TwoViews;
    hide Agrees;
    hide Lawful;
    hide MatchesProbe;
    hide Covers;
    hide EqualIds;
    EqualIdsExact(env, s, def, probe, []);
    ConfirmedKeeps(env, def, rows, EqualIds(env, s, def, probe), probe);
    forall id | (def.collection, id) in rows && Covers(env, def, rows[(def.collection, id)])
                && MatchesProbe(env, def, rows[(def.collection, id)], probe)
      ensures id in EqualIds(env, s, def, probe)
    {
      ScannedRowIsFound(env, s, def, rows, id, probe);
    }
    forall id | id in EqualIds(env, s, def, probe)
      ensures (def.collection, id) in rows && Covers(env, def, rows[(def.collection, id)])
    {
      FoundRowIsCovered(env, s, def, rows, id, probe);
    }
  }

  // ── What the comparison of a scan compares ────────────────────────────────

  /** A scan finds a scalar equal to a field exactly when the field's value, as
      the index holds it whatever its predicate, equals the folded probe. An
      absent field and an array never match. */
  lemma ScanComparesEntries(env: Env, def: IndexDef, row: Value, probe: Value)
    requires Lawful(env) && Indexable(probe)
    ensures MatchesProbe(env, def, row, probe)
       <==> && FieldAt(row, def.path).Some? && !FieldAt(row, def.path).value.Array?
            && Unique.HeldBy(env, def.(partial := None), FoldCase(env, def, probe), row)
  {
    hide ShareReading;
    hide FieldAt;
    var field, folded := FieldAt(row, def.path), FoldCase(env, def, probe);
    if field.Some? {
      if env.eq(FoldCase(env, def, field.value), folded) {
        assert ShareReading(env, FoldCase(env, def, field.value), folded);
        ReadingNeedsScalar(env, FoldCase(env, def, field.value), folded);
      }
      if !field.value.Array? && Indexable(field.value) {
        assert IndexValues(env, def.(partial := None), row) == [FoldCase(env, def, field.value)];
        assert FoldCase(env, def, field.value) in IndexValues(env, def.(partial := None), row);
      }
    }
  }

  /** So a lookup, confirmed, finds exactly the rows the predicate lets in whose
      scalar field equals the probe. */
  lemma LookupFindsHolders(env: Env, s: State, def: IndexDef, rows: Rows, probe: Value, id: Text)
    requires Lawful(env) && Indexable(probe) && TwoViews(s)
    requires def.name in s.defs && s.defs[def.name] == def && Agrees(env, s, rows)
    ensures id in Confirmed(env, def, rows, EqualIds(env, s, def, probe), probe)
       <==> && (def.collection, id) in rows
            && var row := rows[(def.collection, id)];
            && Fields.Passes(env, def, row) && FieldAt(row, def.path).Some? && !FieldAt(row, def.path).value.Array?
            && Unique.HeldBy(env, def, FoldCase(env, def, probe), row)
  {
    hide TwoViews;
    hide Agrees;
    hide Lawful;
    hide MatchesProbe;
    hide EqualIds;
    hide FieldAt;
    LookupRefinesScan(env, s, def, rows, probe);
    if (def.collection, id) in rows {
      ScanComparesEntries(env, def, rows[(def.collection, id)], probe);
    }
  }
}
