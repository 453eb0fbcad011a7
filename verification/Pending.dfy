/** Changes stored at once while older marks wait: what a move of document
    indexes leaves pending, and when the writes and builds that follow it stay in
    step with storage. */
module Pending {
  import opened Options
  import opened ByteOrder
  import opened Utf8
  import opened Key
  import opened Document
  import opened Store
  import opened Maintain
  import opened Install
  import opened Traces
  import opened Durable
  import opened Ddl

  // ── What a move leaves pending ────────────────────────────────────────────

  /** The listed indexes are those of the collection, all over documents. */
  ghost predicate AllIndexes(s: State, collection: Ident, defs: seq<IndexDef>) {
    && DistinctNames(defs) && defs != []
    && (forall d :: d in defs ==> d.name in s.defs && s.defs[d.name] == d && d.collection == collection && !IsDurable(d))
    && (forall n :: n in s.defs && s.defs[n].collection == collection ==> s.defs[n] in defs)
  }

  ghost predicate DefKeyOf(defs: seq<IndexDef>, k: Bytes) {
    exists d :: d in defs && k == d.Key()
  }

  lemma {:induction false} ClearAllDeletes(s: State, doomed: seq<Bytes>, k: Bytes)
    requires s.sink.None? && k in doomed
    ensures ClearAll(s, doomed).sink.None? && k in ClearAll(s, doomed).dirty && ClearAll(s, doomed).dirty[k].cell == None
    decreases |doomed|
  {
    hide RefOf;
    var init, last := doomed[..|doomed| - 1], doomed[|doomed| - 1];
    ClearAllHasNoSink(s, init);
    if k != last {
      assert k in init;
      ClearAllDeletes(s, init, k);
    }
  }

  lemma {:induction false} ClearAllHasNoSink(s: State, doomed: seq<Bytes>)
    requires s.sink.None?
    ensures ClearAll(s, doomed).sink.None?
    decreases |doomed|
  {
    hide RefOf;
    if doomed != [] {
      ClearAllHasNoSink(s, doomed[..|doomed| - 1]);
    }
  }

  lemma MoveOneMarks(s: State, engine: Engine, def: IndexDef, k: Bytes)
    requires Ready(s) && !IsDurable(def) && engine != DocumentRows && k != def.Key()
    ensures var t := MoveOne(s, def, engine).state;
      && (k in t.dirty <==> k in s.dirty || (k in s.entries && StartsWith(k, def.EntryPrefix())))
      && (k in s.entries && StartsWith(k, def.EntryPrefix()) ==> t.dirty[k].cell == None)
      && (k in s.dirty && !(k in s.entries && StartsWith(k, def.EntryPrefix())) ==> t.dirty[k] == s.dirty[k])
  {
    hide PrefixScan;
    var doomed := PrefixScan(s.entries, def.EntryPrefix());
    assert k in doomed <==> k in s.entries && StartsWith(k, def.EntryPrefix()) by { PrefixScanExact(s.entries, def.EntryPrefix()); }
    if k in doomed {
      ClearAllDeletes(s, doomed, k);
    } else {
      ClearAllMarks(s, doomed, k);
    }
  }

  /** After a move every entry it cleared has a deletion waiting, and nothing else
      of the entries is newly marked. */
  lemma {:induction false} MoveMarks(s: State, engine: Engine, defs: seq<IndexDef>, k: Bytes)
    requires Ready(s) && DistinctNames(defs) && engine != DocumentRows && !DefKeyOf(defs, k)
    requires forall d :: d in defs ==> d.name in s.defs && s.defs[d.name] == d && !IsDurable(d)
    ensures var t := ChangeAll(s, Move(engine), defs).state;
      && (k in t.dirty <==> k in s.dirty || (k in s.entries && Selected(defs, k)))
      && (k in s.entries && Selected(defs, k) ==> t.dirty[k].cell == None)
    decreases |defs|
  {
    hide Ready;
    hide MoveOne;
    if defs != [] {
      var init, last := defs[..|defs| - 1], defs[|defs| - 1];
      assert forall d :: d in init ==> d in defs;
      assert last in defs;
      LastIsApart(defs);
      MoveMarks(s, engine, init, k);
      ChangeAllApart(s, Move(engine), init, last);
      var before := ChangeAll(s, Move(engine), init).state;
      MoveOneMarks(before, engine, last, k);
      SelectedGrows(defs, k);
      assert k in Under(before.entries, last.EntryPrefix()) <==> k in Under(s.entries, last.EntryPrefix());
    }
  }

  lemma {:induction false} MoveShows(s: State, engine: Engine, defs: seq<IndexDef>, k: Bytes)
    requires Ready(s) && DistinctNames(defs)
    requires forall d :: d in defs ==> d.name in s.defs && s.defs[d.name] == d
    ensures Ready(ChangeAll(s, Move(engine), defs).state)
    ensures k in ChangeAll(s, Move(engine), defs).state.entries <==> k in s.entries && !Selected(defs, k)
    decreases |defs|
  {
    hide TwoViews;
    hide ChangeOne;
    if defs != [] {
      var init, last := defs[..|defs| - 1], defs[|defs| - 1];
      assert forall d :: d in init ==> d in defs;
      assert last in defs;
      LastIsApart(defs);
      MoveShows(s, engine, init, k);
      ChangeAllApart(s, Move(engine), init, last);
      var before := ChangeAll(s, Move(engine), init).state;
      ChangeOneApart(before, Move(engine), last);
      ApartShows(before, ChangeOne(before, Move(engine), last).state, Move(engine), last, k);
      SelectedGrows(defs, k);
      hide Selected;
    } else {
      assert !Selected(defs, k);
    }
  }

  /** Nothing of the collection's indexes is left in memory. */
  lemma MovedHoldsNothing(s: State, engine: Engine, collection: Ident, defs: seq<IndexDef>, k: Bytes)
    requires Ready(s) && Owned(s) && AllIndexes(s, collection, defs) && RefOf(k).Some? && RefOf(k).value.0 == collection
    ensures k in s.entries ==> Selected(defs, k)
    ensures Ready(ChangeAll(s, Move(engine), defs).state) && k !in ChangeAll(s, Move(engine), defs).state.entries
  {
    MoveShows(s, engine, defs, k);
    hide ChangeAll;
    hide TwoViews;
    if k in s.entries {
      var p := ParseEntry(k).value;
      var d := s.defs[p.index];
      assert d in defs;
      EntryUnder(s, d, k);
    }
  }

  // ── A write after a move ──────────────────────────────────────────────────

  /** The write gives a touched document the entry `k` under one of the indexes. */
  ghost predicate GivesEntry(env: Env, defs: seq<IndexDef>, images: seq<RowImage>, rows: Rows, k: Bytes) {
    && RefOf(k).Some? && Touches(images, RefOf(k).value)
    && var row := RowOf(ApplyImages(rows, images), RefOf(k).value);
    && row.Some? && exists d :: d in defs && k in EntryKeys(env, d, RefOf(k).value.1, row.value)
  }

  lemma EngineIsNoMatter(env: Env, def: IndexDef, engine: Engine, id: Text, row: Value)
    ensures EntryKeys(env, def.(engine := engine), id, row) == EntryKeys(env, def, id, row)
  {
    var moved := def.(engine := engine);
    match FieldAt(row, def.path) {
      case Some(Array(items)) => FoldsAlike(env, def, engine, items);
      case _ =>
    }
    assert IndexValues(env, moved, row) == IndexValues(env, def, row);
    hide IndexValues;
    hide EncodeCoercible;
    assert EncodedValues(env, moved, row) == EncodedValues(env, def, row);
  }

  lemma {:induction false} FoldsAlike(env: Env, def: IndexDef, engine: Engine, items: seq<Value>)
    ensures FoldItems(env, def.(engine := engine), items) == FoldItems(env, def, items)
    decreases |items|
  {
    if items != [] {
      FoldsAlike(env, def, engine, items[1..]);
    }
  }

  /** The indexes of the collection after the move are the listed ones. */
  lemma MovedDefs(s: State, engine: Engine, collection: Ident, defs: seq<IndexDef>, n: Ident)
    requires Ready(s) && AllIndexes(s, collection, defs)
    ensures var t := ChangeAll(s, Move(engine), defs).state;
      && (n in DefsOn(t.defs, collection, engine) ==> exists d :: d in defs && d.name == n && t.defs[n] == d.(engine := engine))
      && (forall d :: d in defs ==> d.name in DefsOn(t.defs, collection, engine) && t.defs[d.name] == d.(engine := engine))
  {
    hide ChangeAll;
    hide RefOf;
    var t := ChangeAll(s, Move(engine), defs).state;
    forall d | d in defs ensures d.name in t.defs && t.defs[d.name] == d.(engine := engine) {
      MovedIsDeclared(s, engine, defs, d);
    }
    if n in DefsOn(t.defs, collection, engine) && forall d :: d in defs ==> d.name != n {
      ChangeAllApart(s, Move(engine), defs, t.defs[n].(name := n));
    }
  }

  lemma GivenIsNew(env: Env, s: State, engine: Engine, collection: Ident, defs: seq<IndexDef>, images: seq<RowImage>, rows: Rows, k: Bytes)
    requires Ready(s) && AllIndexes(s, collection, defs) && RefOf(k).Some? && RefOf(k).value.0 == collection && Touches(images, RefOf(k).value)
    ensures k in LastKeys(env, ChangeAll(s, Move(engine), defs).state, engine, images, rows, RefOf(k).value)
       <==> GivesEntry(env, defs, images, rows, k)
  {
    hide ChangeAll;
    hide EntryKeys;
    hide RefOf;
    hide Touches;
    hide ApplyImages;
    hide Ready;
    hide AllIndexes;
    hide DefsOn;
    var t, ref := ChangeAll(s, Move(engine), defs).state, RefOf(k).value;
    var row := RowOf(ApplyImages(rows, images), ref);
    if row.Some? { MovedKeys(env, s, engine, collection, defs, ref.1, row.value, k); }
  }

  /** The moved indexes imply for a row what they did before the move. */
  lemma MovedKeys(env: Env, s: State, engine: Engine, collection: Ident, defs: seq<IndexDef>, id: Text, row: Value, k: Bytes)
    requires Ready(s) && AllIndexes(s, collection, defs)
    ensures var t := ChangeAll(s, Move(engine), defs).state;
      k in NewKeys(env, t.defs, DefsOn(t.defs, collection, engine), id, Some(row))
      <==> exists d :: d in defs && k in EntryKeys(env, d, id, row)
  {
    hide ChangeAll;
    hide EntryKeys;
    hide Ready;
    hide AllIndexes;
    var t := ChangeAll(s, Move(engine), defs).state;
    var names := DefsOn(t.defs, collection, engine);
    if n :| n in names && k in EntryKeys(env, t.defs[n], id, row) {
      MovedDefs(s, engine, collection, defs, n);
      var d :| d in defs && d.name == n && t.defs[n] == d.(engine := engine);
      EngineIsNoMatter(env, d, engine, id, row);
    }
    if d :| d in defs && k in EntryKeys(env, d, id, row) {
      MovedDefs(s, engine, collection, defs, d.name);
      EngineIsNoMatter(env, d, engine, id, row);
      assert d.name in names && k in EntryKeys(env, t.defs[d.name], id, row);
    }
  }

  ghost predicate OnCollection(images: seq<RowImage>, collection: Ident) {
    forall i :: 0 <= i < |images| ==> images[i].collection == collection
  }

  /** No entry the write gives is one the indexes held before the move or had a
      mark on: its key's deletion still waits. */
  ghost predicate NoneReturns(env: Env, s: State, defs: seq<IndexDef>, images: seq<RowImage>, rows: Rows) {
    forall k :: k in s.entries || k in s.dirty ==> !GivesEntry(env, defs, images, rows, k)
  }

  /** Documents moved to a durable engine and then written as rows with no flush
      between: memory and storage stay in step exactly when no row gets back an
      entry key the move cleared or one still marked from before. */
  lemma MoveThenWriteMirrorsIff(env: Env, cells: Cells, s: State, engine: Engine, collection: Ident, defs: seq<IndexDef>,
                                images: seq<RowImage>, rows: Rows)
    requires Ready(s) && Owned(s) && Mirrors(cells, s) && AllIndexes(s, collection, defs) && engine != DocumentRows
    requires OnCollection(images, collection) && forall d :: d in defs ==> d.Key() !in s.dirty
    ensures var moved := ChangeAll(s, Move(engine), defs);
      var t := SettleImages(env, Collecting(moved.state), engine, images);
      Mirrors(ApplyAll(ApplyAll(cells, moved.ops), Collected(t)), Closed(t)) <==> NoneReturns(env, s, defs, images, rows)
  {
    hide Mirrors;
    hide TwoViews;
    hide SettleImages;
    hide Owned;
    hide ChangeAll;
    MoveMirrorsIff(cells, s, engine, defs);
    var moved := ChangeAll(s, Move(engine), defs);
    MovedHoldsNothingAt(s, engine, collection, defs);
    RowsMirrorIff(env, ApplyAll(cells, moved.ops), moved.state, engine, images, rows);
    hide ApplyAll;
    MarkedStayIff(env, s, engine, collection, defs, images, rows);
  }

  lemma MovedHoldsNothingAt(s: State, engine: Engine, collection: Ident, defs: seq<IndexDef>)
    requires Ready(s) && AllIndexes(s, collection, defs)
    ensures Ready(ChangeAll(s, Move(engine), defs).state)
  {
    hide TwoViews;
    MoveShows(s, engine, defs, FormatKey());
  }

  lemma MarkedStayIff(env: Env, s: State, engine: Engine, collection: Ident, defs: seq<IndexDef>, images: seq<RowImage>, rows: Rows)
    requires Ready(s) && Owned(s) && AllIndexes(s, collection, defs) && engine != DocumentRows && OnCollection(images, collection)
    ensures MarkedEntriesStay(env, ChangeAll(s, Move(engine), defs).state, engine, images, rows) <==> NoneReturns(env, s, defs, images, rows)
  {
    hide ChangeAll;
    hide RefOf;
    hide LastKeys;
    hide EntryKeys;
    hide TwoViews;
    hide Owned;
    hide ApplyImages;
    hide AllIndexes;
    var t := ChangeAll(s, Move(engine), defs).state;
    forall k ensures
      (k in t.dirty && RefOf(k).Some? && Touches(images, RefOf(k).value) && DefsOn(t.defs, RefOf(k).value.0, engine) != {} ==>
         (k in Held(t, RefOf(k).value) <==> k in LastKeys(env, t, engine, images, rows, RefOf(k).value)))
      <==> (k in s.entries || k in s.dirty ==> !GivesEntry(env, defs, images, rows, k))
    {
      MarkedKeyStays(env, s, engine, collection, defs, images, rows, k);
    }
  }

  lemma MarkedKeyStays(env: Env, s: State, engine: Engine, collection: Ident, defs: seq<IndexDef>, images: seq<RowImage>, rows: Rows, k: Bytes)
    requires Ready(s) && Owned(s) && AllIndexes(s, collection, defs) && engine != DocumentRows && OnCollection(images, collection)
    ensures var t := ChangeAll(s, Move(engine), defs).state;
      (k in t.dirty && RefOf(k).Some? && Touches(images, RefOf(k).value) && DefsOn(t.defs, RefOf(k).value.0, engine) != {} ==>
         (k in Held(t, RefOf(k).value) <==> k in LastKeys(env, t, engine, images, rows, RefOf(k).value)))
      <==> (k in s.entries || k in s.dirty ==> !GivesEntry(env, defs, images, rows, k))
  {
    hide ChangeAll;
    hide LastKeys;
    hide EntryKeys;
    hide TwoViews;
    hide Owned;
    hide ApplyImages;
    hide RefOf;
    var t := ChangeAll(s, Move(engine), defs).state;
    if RefOf(k).Some? && Touches(images, RefOf(k).value) {
      var ref := RefOf(k).value;
      assert ref.0 == collection;
      MovedHoldsNothing(s, engine, collection, defs, k);
      MovedDefs(s, engine, collection, defs, defs[0].name);
      assert defs[0] in defs;
      EntryIsNoDefKey(defs, k);
      MoveMarks(s, engine, defs, k);
      HeldIsListed(t, k);
      GivenIsNew(env, s, engine, collection, defs, images, rows, k);
      hide Selected;
    }
  }

  lemma EntryIsNoDefKey(defs: seq<IndexDef>, k: Bytes)
    requires RefOf(k).Some?
    ensures !DefKeyOf(defs, k)
  {
    forall d | d in defs ensures k != d.Key() { DefKeyIsNoEntry(d); }
  }

  // ── A build while marks wait ──────────────────────────────────────────────

  /** No key of the index that has a mark changes by the build. */
  ghost predicate MarkedBuildStays(env: Env, s: State, def: IndexDef, rows: seq<Listed>) {
    && (def.Key() in s.dirty ==> def.name in s.defs && s.defs[def.name] == def)
    && (forall k :: k in s.dirty && StartsWith(k, def.EntryPrefix()) ==> (k in s.entries <==> k in KeysOf(env, def, rows)))
  }

  /** A durable build, stored, leaves memory and storage in step exactly when it
      changes no marked key of the index. */
  lemma BuildMirrorsIff(env: Env, cells: Cells, s: State, def: IndexDef, rows: seq<Listed>)
    requires Ready(s) && Mirrors(cells, s) && KeepsCollection(s, def)
    ensures var t := Installed(env, Collecting(s), def, rows);
      Mirrors(ApplyAll(cells, Collected(t)), Closed(t)) <==> MarkedBuildStays(env, s, def, rows)
  {
    hide Mirrors;
    hide TwoViews;
    hide Installed;
    hide KeysOf;
    hide StartsWith;
    var t := Installed(env, Collecting(s), def, rows);
    SinkIsIgnored(s, Some([]));
    CollectingKeepsMirror(cells, s);
    InstalledShows(env, Collecting(s), def, rows, FormatKey());
    InstalledKeepsMirror(env, cells, Collecting(s), def, rows);
    InstalledTraced(env, Collecting(s), def, rows);
    StoredMirrorsIff(cells, s, t);
    forall k | k != FormatKey()
      ensures Told(t, k) == Told(s, k)
         <==> (k == def.Key() ==> def.name in s.defs && s.defs[def.name] == def)
              && (StartsWith(k, def.EntryPrefix()) ==> (k in s.entries <==> k in KeysOf(env, def, rows)))
    {
      BuiltTold(env, s, def, rows, k);
    }
    EntryPrefixIsNoFormat(def);
    DefKeyIsNoEntry(def);
    hide Told;
  }

  lemma EntryPrefixIsNoDef(def: IndexDef, k: Bytes)
    requires StartsWith(k, def.EntryPrefix())
    ensures ParseDef(k) == None && k != def.Key()
  {
    assert EntriesPrefix()[4] == ENTRY && DefsPrefix()[4] == DEF;
    assert EntriesPrefix() <= def.EntryPrefix() && def.EntryPrefix()[4] == ENTRY;
    assert k[4] == ENTRY;
    if ParseDef(k).Some? { ParsedDefRebuilds(k); }
  }

  lemma BuiltTold(env: Env, s: State, def: IndexDef, rows: seq<Listed>, k: Bytes)
    requires Ready(s) && KeepsCollection(s, def) && k != FormatKey()
    ensures var t := Installed(env, Collecting(s), def, rows);
      (Told(t, k) == Told(s, k)) <==>
        ((k == def.Key() ==> def.name in s.defs && s.defs[def.name] == def)
         && (StartsWith(k, def.EntryPrefix()) ==> (k in s.entries <==> k in KeysOf(env, def, rows))))
  {
    hide TwoViews;
    hide Installed;
    hide KeysOf;
    hide ParseEntry;
    hide ParseDef;
    var t := Installed(env, Collecting(s), def, rows);
    BuiltInMemory(env, s, def, rows, k);
    SinkIsIgnored(s, Some([]));
    InstalledEntries(env, Collecting(s), def, rows);
    if StartsWith(k, def.EntryPrefix()) {
      EntryPrefixIsNoDef(def, k);
      assert k in Under(t.entries, def.EntryPrefix()) <==> k in KeysOf(env, def, rows);
    } else {
      ElsewhereStays(env, s, def, rows, k);
      OnlyOwnKey(def, k);
      DefKeyIsNoEntry(def);
      NoEntryAtDefKey(s, def);
    }
  }

  lemma NoEntryAtDefKey(s: State, def: IndexDef)
    requires Ready(s)
    ensures def.Key() !in s.entries
  {
    DefKeyIsNoEntry(def);
    HeldIsListed(s, def.Key());
  }

  /** Moved and then rebuilt with no flush between: in step exactly when no row
      listed has an entry the index held before the move or had a mark on. */
  lemma MoveThenBuildMirrorsIff(env: Env, cells: Cells, s: State, engine: Engine, collection: Ident, defs: seq<IndexDef>,
                                def: IndexDef, listed: seq<Listed>)
    requires Ready(s) && Owned(s) && Mirrors(cells, s) && AllIndexes(s, collection, defs) && engine != DocumentRows
    requires def in defs && forall d :: d in defs ==> d.Key() !in s.dirty
    ensures var moved := ChangeAll(s, Move(engine), defs);
      var t := Installed(env, Collecting(moved.state), def.(engine := engine), listed);
      Mirrors(ApplyAll(ApplyAll(cells, moved.ops), Collected(t)), Closed(t)) <==>
        (forall k :: k in s.entries || k in s.dirty ==> k !in KeysOf(env, def.(engine := engine), listed))
  {
    hide Mirrors;
    hide TwoViews;
    hide Installed;
    hide Owned;
    hide ChangeAll;
    hide KeysOf;
    hide StartsWith;
    MoveMirrorsIff(cells, s, engine, defs);
    var moved, next := ChangeAll(s, Move(engine), defs), def.(engine := engine);
    MovedHoldsNothingAt(s, engine, collection, defs);
    MovedDefs(s, engine, collection, defs, def.name);
    BuildMirrorsIff(env, ApplyAll(cells, moved.ops), moved.state, next, listed);
    hide ApplyAll;
    forall k ensures
      (k in moved.state.dirty && StartsWith(k, next.EntryPrefix()) ==> (k in moved.state.entries <==> k in KeysOf(env, next, listed)))
      <==> (k in s.entries || k in s.dirty ==> k !in KeysOf(env, next, listed))
    {
      MarkedBuildKey(env, s, engine, collection, defs, def, listed, k);
    }
  }

  lemma MarkedBuildKey(env: Env, s: State, engine: Engine, collection: Ident, defs: seq<IndexDef>, def: IndexDef, listed: seq<Listed>, k: Bytes)
    requires Ready(s) && Owned(s) && AllIndexes(s, collection, defs) && engine != DocumentRows && def in defs
    ensures var t, next := ChangeAll(s, Move(engine), defs).state, def.(engine := engine);
      (k in t.dirty && StartsWith(k, next.EntryPrefix()) ==> (k in t.entries <==> k in KeysOf(env, next, listed)))
      <==> (k in s.entries || k in s.dirty ==> k !in KeysOf(env, next, listed))
  {
    hide ChangeAll;
    hide TwoViews;
    hide Owned;
    hide KeysOf;
    hide StartsWith;
    hide Selected;
    var t, next := ChangeAll(s, Move(engine), defs).state, def.(engine := engine);
    if k in KeysOf(env, next, listed) {
      ListedKey(env, next, listed, k);
      ForeignOrMoved(s, engine, collection, defs, k);
    } else if k in t.entries && StartsWith(k, next.EntryPrefix()) {
      MovedUnderNone(s, engine, collection, defs, def, k);
    }
  }

  lemma ForeignOrMoved(s: State, engine: Engine, collection: Ident, defs: seq<IndexDef>, k: Bytes)
    requires Ready(s) && Owned(s) && AllIndexes(s, collection, defs) && engine != DocumentRows
    requires RefOf(k).Some? && RefOf(k).value.0 == collection
    ensures var t := ChangeAll(s, Move(engine), defs).state;
      k !in t.entries && (k in t.dirty <==> k in s.dirty || k in s.entries)
  {
    hide ChangeAll;
    hide RefOf;
    hide TwoViews;
    hide Owned;
    MovedHoldsNothing(s, engine, collection, defs, k);
    EntryIsNoDefKey(defs, k);
    MoveMarks(s, engine, defs, k);
  }

  lemma {:induction false} ListedKey(env: Env, def: IndexDef, listed: seq<Listed>, k: Bytes)
    requires k in KeysOf(env, def, listed)
    ensures RefOf(k).Some? && RefOf(k).value.0 == def.collection && StartsWith(k, def.EntryPrefix())
    decreases |listed|
  {
    hide EntryKeys;
    KeysOfShows(env, def, listed, k);
    ParsedRebuilds(k);
    UnderOwnPrefixOnly(k, def.collection, def.name);
  }

  lemma MovedUnderNone(s: State, engine: Engine, collection: Ident, defs: seq<IndexDef>, def: IndexDef, k: Bytes)
    requires Ready(s) && Owned(s) && AllIndexes(s, collection, defs) && def in defs && StartsWith(k, def.EntryPrefix())
    ensures k !in ChangeAll(s, Move(engine), defs).state.entries
  {
    MoveShows(s, engine, defs, k);
    hide ChangeAll;
    hide TwoViews;
  }
}
