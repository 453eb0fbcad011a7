/** Installing, dropping and clearing indexes, and how each keeps the entries in
    agreement with the rows. */
module Install {
  import opened Options
  import opened ByteOrder
  import opened Utf8
  import opened Key
  import opened Document
  import opened Store
  import opened Maintain

  /** A row as a build lists it. */
  type Listed = (Text, Value)

  // ── Resync keeps agreement ────────────────────────────────────────────────

  function LiveRows(s: State, rows: Rows): Rows {
    rows - s.tombstoned
  }

  /** Every entry belongs to a declared index. */
  ghost predicate Owned(s: State) {
    forall k :: k in s.entries ==>
      ParseEntry(k).Some? && ToldDef(s.defs, Some((ParseEntry(k).value.collection, ParseEntry(k).value.index))).Some?
  }

  lemma AgreementOwns(env: Env, s: State, rows: Rows)
    requires Agrees(env, s, rows)
    ensures Owned(s)
  {
    forall k | k in s.entries
      ensures ParseEntry(k).Some?
      ensures ToldDef(s.defs, Some((ParseEntry(k).value.collection, ParseEntry(k).value.index))).Some?
    {
      assert AgreesOn(env, s, rows, k);
    }
  }

  ghost predicate Untouched(key: Bytes, collection: Ident, ids: seq<Text>) {
    RefOf(key).Some? ==> RefOf(key).value.0 != collection || RefOf(key).value.1 !in ids
  }

  /** Resyncing the rows that changed restores agreement on all of them. */
  lemma ResyncAgrees(env: Env, s: State, collection: Ident, ids: seq<Text>, rows: Rows)
    requires TwoViews(s) && Owned(s) && OneEngine(s.defs, collection, DocumentRows)
    requires forall k :: Untouched(k, collection, ids) ==> AgreesOn(env, s, LiveRows(s, rows), k)
    ensures Agrees(env, Resync(env, s, collection, ids, rows), LiveRows(s, rows))
  {
    forall k ensures AgreesOn(env, Resync(env, s, collection, ids, rows), LiveRows(s, rows), k) {
      ResyncAgreesOn(env, s, collection, ids, rows, k);
    }
  }

  lemma ResyncAgreesOn(env: Env, s: State, collection: Ident, ids: seq<Text>, rows: Rows, k: Bytes)
    requires TwoViews(s) && Owned(s) && OneEngine(s.defs, collection, DocumentRows)
    requires Untouched(k, collection, ids) ==> AgreesOn(env, s, LiveRows(s, rows), k)
    ensures AgreesOn(env, Resync(env, s, collection, ids, rows), LiveRows(s, rows), k)
  {
    hide AgreesOn;
    hide ResyncAll;
    hide RefOf;
    hide TwoViews;
    hide Owned;
    var names := DefsOn(s.defs, collection, DocumentRows);
    if names == {} {
      assert forall n :: n in s.defs && s.defs[n].collection == collection ==> n in names;
      OrphanAgrees(env, s, LiveRows(s, rows), k, collection);
    } else {
      ResyncAllAgreesOn(env, s, names, collection, ids, rows, k);
    }
  }

  lemma ResyncAllAgreesOn(env: Env, s: State, names: set<Ident>, collection: Ident, ids: seq<Text>, rows: Rows, k: Bytes)
    requires TwoViews(s) && names == set n | n in s.defs && s.defs[n].collection == collection
    requires Untouched(k, collection, ids) ==> AgreesOn(env, s, LiveRows(s, rows), k)
    ensures AgreesOn(env, ResyncAll(env, s, names, collection, ids, rows), LiveRows(s, rows), k)
  {
    hide AgreesOn;
    hide ResyncAll;
    hide RefOf;
    hide TwoViews;
    var t := ResyncAll(env, s, names, collection, ids, rows);
    ResyncAllMoves(env, s, names, collection, ids, rows);
    if RefOf(k).Some? {
      var ref := RefOf(k).value;
      assert RowOf(LiveRows(s, rows), ref) == LiveRow(s, rows, ref);
      SettledAgrees(env, s, t, LiveRows(s, rows), k, set n | n in s.defs && s.defs[n].collection == ref.0);
    } else {
      NoDocumentAgrees(env, t, LiveRows(s, rows), k);
    }
  }

  lemma NoDocumentAgrees(env: Env, s: State, rows: Rows, k: Bytes)
    requires TwoViews(s) && RefOf(k) == None
    ensures AgreesOn(env, s, rows, k)
  {
  }

  lemma SettledAgrees(env: Env, s: State, t: State, rows: Rows, k: Bytes, names: set<Ident>)
    requires TwoViews(s) && TwoViews(t) && s.defs == t.defs && RefOf(k).Some?
    requires names == set n | n in s.defs && s.defs[n].collection == RefOf(k).value.0
    requires Held(t, RefOf(k).value) == NewKeys(env, s.defs, names, RefOf(k).value.1, RowOf(rows, RefOf(k).value))
          || (Held(t, RefOf(k).value) == Held(s, RefOf(k).value) && AgreesOn(env, s, rows, k))
    ensures AgreesOn(env, t, rows, k)
  {
    hide AgreesOn;
    hide TwoViews;
    hide RefOf;
    PostingAgrees(env, s, rows, k, names);
    PostingAgrees(env, t, rows, k, names);
  }

  lemma OrphanAgrees(env: Env, s: State, rows: Rows, k: Bytes, collection: Ident)
    requires Owned(s) && forall n :: n in s.defs ==> s.defs[n].collection != collection
    ensures AgreesOn(env, s, rows, k) || (RefOf(k).Some? ==> RefOf(k).value.0 != collection)
  {
  }

  // ── Install ───────────────────────────────────────────────────────────────

  function PutRow(env: Env, s: State, def: IndexDef, row: Listed): State {
    Apply(s, (def.collection, row.0), Puts(Ascending(EntryKeys(env, def, row.0, row.1))))
  }

  function PutRows(env: Env, s: State, def: IndexDef, rows: seq<Listed>): State {
    if rows == [] then s else PutRow(env, PutRows(env, s, def, rows[..|rows| - 1]), def, rows[|rows| - 1])
  }

  function Cleared(s: State, def: IndexDef): State {
    var s := if def.name in s.defs then ClearPrefix(s, s.defs[def.name].EntryPrefix()) else s;
    ClearPrefix(s, def.EntryPrefix())
  }

  /** The state an accepted install leaves. */
  function Installed(env: Env, s: State, def: IndexDef, rows: seq<Listed>): State {
    PutRows(env, PutDef(Cleared(s, def), def), def, rows)
  }

  /** A row listed holds entry `p` of `def`. */
  ghost predicate ListedHolds(env: Env, def: IndexDef, rows: seq<Listed>, p: ParsedEntry) {
    exists i :: 0 <= i < |rows| && rows[i].0 == p.docId && p.value in EncodedValues(env, def, rows[i].1)
  }

  predicate Names(p: ParsedEntry, def: IndexDef) {
    p.collection == def.collection && p.index == def.name
  }

  function WithRow(env: Env, s: State, def: IndexDef, row: Listed, ref: DocRef): set<Bytes> {
    if ref == (def.collection, row.0) then Held(s, ref) + EntryKeys(env, def, row.0, row.1) else Held(s, ref)
  }

  lemma PutRowAdds(env: Env, s: State, def: IndexDef, row: Listed)
    requires TwoViews(s)
    ensures TwoViews(PutRow(env, s, def, row)) && SameCatalog(s, PutRow(env, s, def, row))
    ensures forall ref :: Held(PutRow(env, s, def, row), ref) == WithRow(env, s, def, row, ref)
  {
    hide TwoViews;
    hide EntryKeys;
    hide Apply;
    hide Ascending;
    hide After;
    var ref := (def.collection, row.0);
    RowPutsStayOn(env, def, row);
    ApplyMovesPosting(s, ref, Puts(Ascending(EntryKeys(env, def, row.0, row.1))));
    AfterPutting(Held(s, ref), EntryKeys(env, def, row.0, row.1));
  }

  lemma RowPutsStayOn(env: Env, def: IndexDef, row: Listed)
    ensures AllOn(Puts(Ascending(EntryKeys(env, def, row.0, row.1))), (def.collection, row.0))
  {
    var keys := Ascending(EntryKeys(env, def, row.0, row.1));
    forall i | 0 <= i < |keys| ensures RefOf(keys[i]) == Some((def.collection, row.0)) {
      assert keys[i] in keys;
      EntryKeysParse(env, def, row.0, row.1, keys[i]);
    }
  }

  lemma {:induction false} PutRowsAdds(env: Env, s: State, def: IndexDef, rows: seq<Listed>, k: Bytes)
    requires TwoViews(s)
    ensures TwoViews(PutRows(env, s, def, rows)) && SameCatalog(s, PutRows(env, s, def, rows))
    ensures k in PutRows(env, s, def, rows).entries
       <==> k in s.entries
            || (ParseEntry(k).Some? && Names(ParseEntry(k).value, def) && ListedHolds(env, def, rows, ParseEntry(k).value))
    decreases |rows|
  {
    hide TwoViews;
    assert rows == [] && ParseEntry(k).Some? ==> !ListedHolds(env, def, rows, ParseEntry(k).value);
    hide ParseEntry;
    hide ListedHolds;
    hide EncodedValues;
    if rows != [] {
      var init, last := rows[..|rows| - 1], rows[|rows| - 1];
      PutRowsAdds(env, s, def, init, k);
      var t := PutRows(env, s, def, init);
      PutRowAdds(env, t, def, last);
      PutRowShows(env, t, def, last, k);
      if ParseEntry(k).Some? { ListedGrows(env, def, rows, ParseEntry(k).value); }
    }
  }

  lemma ListedGrows(env: Env, def: IndexDef, rows: seq<Listed>, p: ParsedEntry)
    requires rows != []
    ensures ListedHolds(env, def, rows, p)
       <==> || ListedHolds(env, def, rows[..|rows| - 1], p)
            || (rows[|rows| - 1].0 == p.docId && p.value in EncodedValues(env, def, rows[|rows| - 1].1))
  {
    hide EncodedValues;
    var init := rows[..|rows| - 1];
    if ListedHolds(env, def, init, p) {
      var i :| 0 <= i < |init| && init[i].0 == p.docId && p.value in EncodedValues(env, def, init[i].1);
      assert rows[i] == init[i];
    }
    if ListedHolds(env, def, rows, p) {
      var i :| 0 <= i < |rows| && rows[i].0 == p.docId && p.value in EncodedValues(env, def, rows[i].1);
      if i < |init| { assert rows[i] == init[i]; }
    }
  }

  lemma PutRowShows(env: Env, s: State, def: IndexDef, row: Listed, k: Bytes)
    requires TwoViews(s)
    ensures k in PutRow(env, s, def, row).entries
       <==> k in s.entries
            || (ParseEntry(k).Some? && Names(ParseEntry(k).value, def) && ParseEntry(k).value.docId == row.0
                && ParseEntry(k).value.value in EncodedValues(env, def, row.1))
  {
    PutRowAdds(env, s, def, row);
    HeldIsListed(s, k);
    HeldIsListed(PutRow(env, s, def, row), k);
    EntryKeysParse(env, def, row.0, row.1, k);
  }

  lemma ClearPrefixShows(s: State, prefix: Bytes, k: Bytes)
    requires TwoViews(s)
    ensures k in ClearPrefix(s, prefix).entries <==> k in s.entries && !StartsWith(k, prefix)
  {
    hide RefOf;
    hide ClearPrefix;
    ClearPrefixRemoves(s, prefix);
    HeldIsListed(s, k);
    HeldIsListed(ClearPrefix(s, prefix), k);
  }

  /** Clearing before an install removes exactly the replaced index's entries. */
  lemma ClearedShows(s: State, def: IndexDef, k: Bytes)
    requires TwoViews(s) && KeepsCollection(s, def)
    ensures TwoViews(Cleared(s, def)) && SameCatalog(s, Cleared(s, def))
    ensures k in Cleared(s, def).entries
       <==> k in s.entries && !(ParseEntry(k).Some? && Names(ParseEntry(k).value, def))
  {
    hide RefOf;
    hide ClearPrefix;
    var first := if def.name in s.defs then ClearPrefix(s, s.defs[def.name].EntryPrefix()) else s;
    if def.name in s.defs {
      assert s.defs[def.name].EntryPrefix() == def.EntryPrefix();
      ClearPrefixRemoves(s, def.EntryPrefix());
      ClearPrefixShows(s, def.EntryPrefix(), k);
    }
    ClearPrefixRemoves(first, def.EntryPrefix());
    ClearPrefixShows(first, def.EntryPrefix(), k);
    EntryUnder(s, def, k);
  }

  lemma EntryUnder(s: State, def: IndexDef, k: Bytes)
    requires TwoViews(s)
    ensures k in s.entries ==> ParseEntry(k).Some?
    ensures k in s.entries ==> (StartsWith(k, def.EntryPrefix()) <==> Names(ParseEntry(k).value, def))
  {
    if k in s.entries {
      UnderOwnPrefixOnly(k, def.collection, def.name);
    }
  }

  /** An install leaves, under the index's prefix, exactly what the listed rows
      hold and nothing of the version it replaces; every other entry stays. */
  lemma InstalledShows(env: Env, s: State, def: IndexDef, rows: seq<Listed>, k: Bytes)
    requires TwoViews(s) && KeepsCollection(s, def)
    ensures TwoViews(Installed(env, s, def, rows))
    ensures Installed(env, s, def, rows).defs == s.defs[def.name := def]
    ensures Installed(env, s, def, rows).tombstoned == s.tombstoned
    ensures k in Installed(env, s, def, rows).entries
       <==> if ParseEntry(k).Some? && Names(ParseEntry(k).value, def)
            then ListedHolds(env, def, rows, ParseEntry(k).value)
            else k in s.entries
  {
    hide Cleared;
    hide TwoViews;
    hide ParseEntry;
    hide ListedHolds;
    ClearedShows(s, def, k);
    PutDefKeepsViews(Cleared(s, def), def);
    PutRowsAdds(env, PutDef(Cleared(s, def), def), def, rows, k);
  }

  /** Whatever index the name had before, an install adds only entries of the
      rows listed. */
  lemma InstallAddsListed(env: Env, s: State, def: IndexDef, rows: seq<Listed>, k: Bytes)
    requires TwoViews(s)
    ensures TwoViews(Installed(env, s, def, rows)) && Installed(env, s, def, rows).tombstoned == s.tombstoned
    ensures k in Installed(env, s, def, rows).entries ==>
      k in s.entries || (ParseEntry(k).Some? && Names(ParseEntry(k).value, def) && ListedHolds(env, def, rows, ParseEntry(k).value))
  {
    hide TwoViews;
    hide ParseEntry;
    hide ListedHolds;
    hide ClearPrefix;
    var first := if def.name in s.defs then ClearPrefix(s, s.defs[def.name].EntryPrefix()) else s;
    if def.name in s.defs {
      ClearPrefixRemoves(s, s.defs[def.name].EntryPrefix());
      ClearPrefixShows(s, s.defs[def.name].EntryPrefix(), k);
    }
    ClearPrefixRemoves(first, def.EntryPrefix());
    ClearPrefixShows(first, def.EntryPrefix(), k);
    PutDefKeepsViews(Cleared(s, def), def);
    PutRowsAdds(env, PutDef(Cleared(s, def), def), def, rows, k);
  }

  /** An install under a name another collection's index has takes that index's
      entries away: none stays under the old definition, whatever it was. */
  lemma InstallReplaces(env: Env, s: State, def: IndexDef, rows: seq<Listed>, k: Bytes)
    requires TwoViews(s) && def.name in s.defs
    requires ParseEntry(k).Some? && Names(ParseEntry(k).value, s.defs[def.name]) && !Names(ParseEntry(k).value, def)
    ensures k !in Installed(env, s, def, rows).entries
  {
    var there := s.defs[def.name];
    var once := ClearPrefix(s, there.EntryPrefix());
    ClearPrefixRemoves(s, there.EntryPrefix());
    ClearPrefixShows(s, there.EntryPrefix(), k);
    UnderOwnPrefixOnly(k, there.collection, there.name);
    hide ClearPrefix;
    hide ParseEntry;
    ClearPrefixRemoves(once, def.EntryPrefix());
    ClearPrefixShows(once, def.EntryPrefix(), k);
    var cleared := Cleared(s, def);
    PutDefKeepsViews(cleared, def);
    hide PutRows;
    PutRowsAdds(env, PutDef(cleared, def), def, rows, k);
  }

  lemma {:induction false} PutRowsKeepsMirror(env: Env, stored: Cells, s: State, def: IndexDef, rows: seq<Listed>)
    requires Mirrors(stored, s)
    ensures Mirrors(stored, PutRows(env, s, def, rows))
    decreases |rows|
  {
    hide Mirrors;
    if rows != [] {
      PutRowsKeepsMirror(env, stored, s, def, rows[..|rows| - 1]);
      RowPutsStayOn(env, def, rows[|rows| - 1]);
      var ref := (def.collection, rows[|rows| - 1].0);
      ApplyKeepsMirror(stored, PutRows(env, s, def, rows[..|rows| - 1]), ref,
                       Puts(Ascending(EntryKeys(env, def, rows[|rows| - 1].0, rows[|rows| - 1].1))));
    }
  }

  lemma InstalledKeepsMirror(env: Env, stored: Cells, s: State, def: IndexDef, rows: seq<Listed>)
    requires TwoViews(s) && Mirrors(stored, s) && KeepsCollection(s, def)
    ensures Mirrors(stored, Installed(env, s, def, rows))
  {
    hide TwoViews;
    hide Mirrors;
    hide ClearPrefix;
    var first := if def.name in s.defs then ClearPrefix(s, s.defs[def.name].EntryPrefix()) else s;
    if def.name in s.defs {
      ClearPrefixRemoves(s, s.defs[def.name].EntryPrefix());
      ClearPrefixKeepsMirror(stored, s, s.defs[def.name].EntryPrefix());
    }
    ClearPrefixRemoves(first, def.EntryPrefix());
    ClearPrefixKeepsMirror(stored, first, def.EntryPrefix());
    PutDefMirror(stored, Cleared(s, def), def);
    PutRowsKeepsMirror(env, stored, PutDef(Cleared(s, def), def), def, rows);
  }

  /** `listed` are the rows of `collection`. */
  ghost predicate ListsAll(listed: seq<Listed>, rows: Rows, collection: Ident) {
    && (forall i :: 0 <= i < |listed| ==>
          (collection, listed[i].0) in rows && rows[(collection, listed[i].0)] == listed[i].1)
    && (forall ref :: ref in rows && ref.0 == collection ==> exists i :: 0 <= i < |listed| && listed[i].0 == ref.1)
  }

  /** Building an index from all its collection's rows keeps agreement. */
  lemma InstalledAgrees(env: Env, s: State, def: IndexDef, listed: seq<Listed>, rows: Rows)
    requires TwoViews(s) && KeepsCollection(s, def)
    requires Agrees(env, s, rows) && ListsAll(listed, rows, def.collection)
    ensures Agrees(env, Installed(env, s, def, listed), rows)
  {
    hide Installed;
    hide ParseEntry;
    hide TwoViews;
    hide ListsAll;
    hide ListedHolds;
    hide ImpliedBy;
    forall k ensures AgreesOn(env, Installed(env, s, def, listed), rows, k) {
      InstalledShows(env, s, def, listed, k);
      assert AgreesOn(env, s, rows, k);
      if ParseEntry(k).Some? && Names(ParseEntry(k).value, def) {
        ListedIsImplied(env, def, listed, rows, ParseEntry(k).value);
      }
    }
  }

  lemma ListedIsImplied(env: Env, def: IndexDef, listed: seq<Listed>, rows: Rows, p: ParsedEntry)
    requires ListsAll(listed, rows, def.collection) && Names(p, def)
    ensures ListedHolds(env, def, listed, p) <==> ImpliedBy(env, Some(DefCell(def)), rows, p)
  {
    if ImpliedBy(env, Some(DefCell(def)), rows, p) {
      var i :| 0 <= i < |listed| && listed[i].0 == p.docId;
    }
  }

  /** Dropping an index keeps agreement. */
  lemma RemovedAgrees(env: Env, s: State, name: Ident, rows: Rows)
    requires TwoViews(s) && Agrees(env, s, rows) && name in s.defs
    ensures Agrees(env, RemoveDef(s, name), rows)
  {
    var def := s.defs[name];
    RemoveDefRemoves(s, name);
    hide RemoveDef;
    hide ParseEntry;
    hide TwoViews;
    hide ImpliedBy;
    forall k ensures AgreesOn(env, RemoveDef(s, name), rows, k) {
      RemoveDefShows(s, name, k);
      assert AgreesOn(env, s, rows, k);
    }
  }

  lemma RemoveDefShows(s: State, name: Ident, k: Bytes)
    requires TwoViews(s) && name in s.defs
    ensures TwoViews(RemoveDef(s, name))
    ensures k in RemoveDef(s, name).entries
       <==> k in s.entries && !(ParseEntry(k).Some? && Names(ParseEntry(k).value, s.defs[name]))
  {
    hide RemoveDef;
    RemoveDefRemoves(s, name);
    HeldIsListed(s, k);
    HeldIsListed(RemoveDef(s, name), k);
    EntryUnder(s, s.defs[name], k);
  }

  // ── How many entries an install writes ────────────────────────────────────

  /** What an install reports: entries row by row. */
  function EntryCount(env: Env, def: IndexDef, rows: seq<Listed>): nat {
    if rows == [] then 0
    else EntryCount(env, def, rows[..|rows| - 1]) + |EntryKeys(env, def, rows[|rows| - 1].0, rows[|rows| - 1].1)|
  }

  /** Every entry key the listed rows hold. */
  function KeysOf(env: Env, def: IndexDef, rows: seq<Listed>): set<Bytes> {
    if rows == [] then {}
    else KeysOf(env, def, rows[..|rows| - 1]) + EntryKeys(env, def, rows[|rows| - 1].0, rows[|rows| - 1].1)
  }

  ghost predicate DistinctRows(rows: seq<Listed>) {
    forall i, j :: 0 <= i < j < |rows| ==> rows[i].0 != rows[j].0
  }

  lemma {:induction false} KeysOfShows(env: Env, def: IndexDef, rows: seq<Listed>, k: Bytes)
    ensures k in KeysOf(env, def, rows)
       <==> ParseEntry(k).Some? && Names(ParseEntry(k).value, def) && ListedHolds(env, def, rows, ParseEntry(k).value)
    decreases |rows|
  {
    if rows == [] {
      assert ParseEntry(k).Some? ==> !ListedHolds(env, def, rows, ParseEntry(k).value);
    } else {
      var last := rows[|rows| - 1];
      KeysOfShows(env, def, rows[..|rows| - 1], k);
      EntryKeysParse(env, def, last.0, last.1, k);
      if ParseEntry(k).Some? { ListedGrows(env, def, rows, ParseEntry(k).value); }
      hide ParseEntry;
      hide ListedHolds;
      hide EntryKeys;
    }
  }

  /** For distinct ids the count is the number of entries under the index. */
  lemma {:induction false} CountIsEntries(env: Env, def: IndexDef, rows: seq<Listed>)
    requires DistinctRows(rows)
    ensures |KeysOf(env, def, rows)| == EntryCount(env, def, rows)
    decreases |rows|
  {
    if rows != [] {
      var init, last := rows[..|rows| - 1], rows[|rows| - 1];
      CountIsEntries(env, def, init);
      forall k | k in KeysOf(env, def, init) ensures k !in EntryKeys(env, def, last.0, last.1) {
        KeysOfShows(env, def, init, k);
        EntryKeysParse(env, def, last.0, last.1, k);
        var i :| 0 <= i < |init| && init[i].0 == ParseEntry(k).value.docId;
        assert rows[i] == init[i];
      }
      assert KeysOf(env, def, init) !! EntryKeys(env, def, last.0, last.1);
    }
  }

  /** The entries under an installed index are the keys of the listed rows. */
  lemma InstalledEntries(env: Env, s: State, def: IndexDef, rows: seq<Listed>)
    requires TwoViews(s) && KeepsCollection(s, def)
    ensures Under(Installed(env, s, def, rows).entries, def.EntryPrefix()) == KeysOf(env, def, rows)
    ensures DistinctRows(rows) ==> |Under(Installed(env, s, def, rows).entries, def.EntryPrefix())| == EntryCount(env, def, rows)
  {
    hide Installed;
    hide KeysOf;
    hide TwoViews;
    var t := Installed(env, s, def, rows);
    forall k ensures k in Under(t.entries, def.EntryPrefix()) <==> k in KeysOf(env, def, rows) {
      InstalledShows(env, s, def, rows, k);
      KeysOfShows(env, def, rows, k);
      EntryUnder(t, def, k);
    }
    assert Under(t.entries, def.EntryPrefix()) == KeysOf(env, def, rows);
    if DistinctRows(rows) { CountIsEntries(env, def, rows); }
  }
}
