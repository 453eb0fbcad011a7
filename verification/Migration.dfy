/** Opening a store written in another format: what it holds of entries is
    marked for removal, and the indexes are built again from their rows. */
module Migration {
  import opened Options
  import opened ByteOrder
  import opened Utf8
  import opened Key
  import opened Document
  import opened Store
  import opened Maintain
  import opened Install
  import opened Views
  import opened Traces
  import opened Durable
  import opened Ddl
  import opened Pending

  /** The rows each collection lists. */
  type Lists = Ident -> seq<Listed>

  // ── Loading another format ────────────────────────────────────────────────

  /** A store whose definitions can be read, each under its own key and no name
      twice, and whose entries may be any cells at all. */
  ghost predicate OtherFormat(cells: Cells) {
    && !IsCurrent(cells) && DefsKeyed(cells)
    && (forall a, b :: OneName(Bare(cells), a, b))
    && (forall k :: k in cells && k != FormatKey() && !StartsWith(k, EntriesPrefix()) ==>
          StartsWith(k, DefsPrefix()) && cells[k].DefCell?)
  }

  lemma {:induction false} UnreadMarks(s: State, keys: seq<Bytes>, k: Bytes)
    requires s.sink.None?
    ensures var t := LoadEntries(s, false, keys);
      && t == s.(dirty := t.dirty, nextSeq := t.nextSeq)
      && (k in t.dirty <==> k in s.dirty || k in keys)
      && (k in keys ==> t.dirty[k].cell == None)
    decreases |keys|
  {
    hide RefOf;
    if keys != [] {
      var init, last := keys[..|keys| - 1], keys[|keys| - 1];
      assert forall x :: x in keys <==> x in init || x == last;
      UnreadMarks(s, init, k);
    }
  }

  /** What loading leaves: the definitions, no entry, and the removals. */
  lemma LoadedUnread(cells: Cells)
    requires !IsCurrent(cells)
    ensures var s, keys := Loaded(cells), PrefixScan(cells.Keys, EntriesPrefix());
      && s == EMPTY.(defs := LoadDefs(cells, PrefixScan(cells.Keys, DefsPrefix())), dirty := s.dirty, nextSeq := s.nextSeq)
      && (forall k :: k != FormatKey() ==> (k in s.dirty <==> k in keys))
      && (forall k :: k != FormatKey() && k in s.dirty ==> s.dirty[k].cell == None)
  {
    hide PrefixScan;
    hide LoadEntries;
    hide LoadDefs;
    var defs, keys := LoadDefs(cells, PrefixScan(cells.Keys, DefsPrefix())), PrefixScan(cells.Keys, EntriesPrefix());
    var t := LoadEntries(EMPTY.(defs := defs), false, keys);
    UnreadMarks(EMPTY.(defs := defs), keys, FormatKey());
    forall k ensures (k in t.dirty <==> k in keys) && (k in t.dirty ==> t.dirty[k].cell == None) {
      UnreadMarks(EMPTY.(defs := defs), keys, k);
    }
  }

  lemma LoadedNames(cells: Cells)
    ensures var defs := LoadDefs(cells, PrefixScan(cells.Keys, DefsPrefix())); forall n :: n in defs ==> defs[n].name == n
  {
    hide PrefixScan;
    var keys := PrefixScan(cells.Keys, DefsPrefix());
    forall n | n in LoadDefs(cells, keys) ensures LoadDefs(cells, keys)[n].name == n { LoadDefsFinds(cells, keys, n); }
  }

  /** Opened in another format, memory holds no entry and is in step. */
  lemma LoadedOther(cells: Cells, k: Bytes)
    requires OtherFormat(cells)
    ensures var s := Loaded(cells);
      && Ready(s) && s.entries == {}
      && (k != FormatKey() ==> (k in s.dirty <==> k in cells && StartsWith(k, EntriesPrefix())))
      && (k != FormatKey() && k in s.dirty ==> s.dirty[k].cell == None)
      && (k != FormatKey() ==> Shown(cells, s, k) == Told(s, k))
  {
    hide PrefixScan;
    hide Loaded;
    hide LoadDefs;
    hide RefOf;
    hide ParseDef;
    hide StartsWith;
    hide Key.EntriesPrefix;
    hide Key.DefsPrefix;
    hide DefsKeyed;
    LoadedUnread(cells);
    LoadedNames(cells);
    PrefixScanExact(cells.Keys, EntriesPrefix());
    if k != FormatKey() {
      if k in Loaded(cells).dirty { StoredEntryIsNoDef(k); } else { LoadedDefTold(cells, k); }
    }
  }

  lemma StoredEntryIsNoDef(k: Bytes)
    requires StartsWith(k, EntriesPrefix())
    ensures ParseDef(k) == None
  {
    assert EntriesPrefix()[4] == ENTRY && DefsPrefix()[4] == DEF;
    assert k[4] == ENTRY;
    if ParseDef(k).Some? { ParsedDefRebuilds(k); }
  }

  // ── Building again ────────────────────────────────────────────────────────

  function RebuildOne(env: Env, s: State, def: IndexDef, rows: seq<Listed>): Outcome {
    if IsDurable(def) then Harvest(s, Installed(env, Collecting(s), def, rows))
    else Outcome(Installed(env, s, def, rows), [])
  }

  function RebuildAll(env: Env, s: State, defs: seq<IndexDef>, lists: Lists): Outcome {
    if defs == [] then Outcome(s, [])
    else
      var before := RebuildAll(env, s, defs[..|defs| - 1], lists);
      var last := RebuildOne(env, before.state, defs[|defs| - 1], lists(defs[|defs| - 1].collection));
      Outcome(last.state, before.ops + last.ops)
  }

  ghost predicate Declared(s: State, defs: seq<IndexDef>) {
    forall d :: d in defs ==> d.name in s.defs && s.defs[d.name] == d
  }

  /** Some index of `defs` has `k` for the listed rows. */
  ghost predicate Rebuilt(env: Env, defs: seq<IndexDef>, lists: Lists, k: Bytes) {
    exists d :: d in defs && k in KeysOf(env, d, lists(d.collection))
  }

  lemma RebuildOneShows(env: Env, s: State, def: IndexDef, rows: seq<Listed>, k: Bytes)
    requires Ready(s) && def.name in s.defs && s.defs[def.name] == def
    ensures var t := RebuildOne(env, s, def, rows).state;
      && Ready(t) && t.defs == s.defs
      && (k in t.entries <==> k in KeysOf(env, def, rows) || (k in s.entries && !StartsWith(k, def.EntryPrefix())))
  {
    hide TwoViews;
    hide Installed;
    hide ParseEntry;
    hide StartsWith;
    hide KeysOf;
    assert s.defs[def.name := def] == s.defs;
    var from := if IsDurable(def) then Collecting(s) else s;
    SinkIsIgnored(s, Some([]));
    InstalledShows(env, from, def, rows, k);
    InstalledTraced(env, from, def, rows);
    SinkIsIgnored(Installed(env, from, def, rows), None);
    KeysOfShows(env, def, rows, k);
    EntryUnder(s, def, k);
    hide Traced;
  }

  lemma RebuildOneMarks(env: Env, s: State, def: IndexDef, rows: seq<Listed>, k: Bytes)
    requires Ready(s) && def.name in s.defs && s.defs[def.name] == def
    requires IsDurable(def) || CollectionOf(k) != Some(def.collection)
    ensures var t := RebuildOne(env, s, def, rows).state;
      (k in t.dirty <==> k in s.dirty) && (k in s.dirty ==> t.dirty[k] == s.dirty[k])
  {
    hide Installed;
    hide CollectionOf;
    SinkIsIgnored(s, Some([]));
    hide TwoViews;
    InstalledTraced(env, if IsDurable(def) then Collecting(s) else s, def, rows);
  }

  /** Memory after the builds: exactly what the indexes have for the rows. */
  lemma {:induction false} MigratedEntries(env: Env, s: State, defs: seq<IndexDef>, lists: Lists, k: Bytes)
    requires Ready(s) && s.entries == {} && Declared(s, defs)
    ensures var t := RebuildAll(env, s, defs, lists).state;
      Ready(t) && t.defs == s.defs && (k in t.entries <==> Rebuilt(env, defs, lists, k))
    decreases |defs|
  {
    hide TwoViews;
    hide RebuildOne;
    hide KeysOf;
    if defs != [] {
      var init, last := defs[..|defs| - 1], defs[|defs| - 1];
      assert forall d :: d in defs <==> d in init || d == last;
      assert last in defs;
      MigratedEntries(env, s, init, lists, k);
      RebuildOneShows(env, RebuildAll(env, s, init, lists).state, last, lists(last.collection), k);
      if Rebuilt(env, init, lists, k) && StartsWith(k, last.EntryPrefix()) { SameIndex(env, s, defs, lists, last, k); }
    }
  }

  lemma SameIndex(env: Env, s: State, defs: seq<IndexDef>, lists: Lists, def: IndexDef, k: Bytes)
    requires Declared(s, defs) && def in defs && Rebuilt(env, defs, lists, k) && StartsWith(k, def.EntryPrefix())
    ensures k in KeysOf(env, def, lists(def.collection))
  {
    hide KeysOf;
    hide StartsWith;
    var d :| d in defs && k in KeysOf(env, d, lists(d.collection));
    ListedKey(env, d, lists(d.collection), k);
    PrefixesApart(k, d.collection, d.name, def.collection, def.name);
  }

  predicate IsStoredDirectly(assign: Assignment, k: Bytes) {
    CollectionOf(k).Some? && assign(CollectionOf(k).value) != DocumentRows
  }

  /** Marks on keys of collections stored directly wait through the builds. */
  lemma {:induction false} MarksWait(env: Env, assign: Assignment, s: State, defs: seq<IndexDef>, lists: Lists, k: Bytes)
    requires Ready(s) && s.entries == {} && Declared(s, defs) && Engines(s.defs, assign)
    requires IsStoredDirectly(assign, k)
    ensures var t := RebuildAll(env, s, defs, lists).state;
      (k in t.dirty <==> k in s.dirty) && (k in s.dirty ==> t.dirty[k] == s.dirty[k])
    decreases |defs|
  {
    hide TwoViews;
    hide RebuildOne;
    hide KeysOf;
    hide CollectionOf;
    if defs != [] {
      var init, last := defs[..|defs| - 1], defs[|defs| - 1];
      assert forall d :: d in defs <==> d in init || d == last;
      assert last in defs;
      MarksWait(env, assign, s, init, lists, k);
      MigratedEntries(env, s, init, lists, k);
      RebuildOneMarks(env, RebuildAll(env, s, init, lists).state, last, lists(last.collection), k);
    }
  }

  // ── In step ───────────────────────────────────────────────────────────────

  /** No index stored directly gets back a key that has a mark. */
  ghost predicate NoneMarked(env: Env, s: State, defs: seq<IndexDef>, lists: Lists) {
    forall d, k :: d in defs && IsDurable(d) && k in KeysOf(env, d, lists(d.collection)) ==> k !in s.dirty
  }

  lemma {:induction false} BuildsInStep(env: Env, assign: Assignment, cells: Cells, s: State, defs: seq<IndexDef>, lists: Lists)
    requires Ready(s) && s.entries == {} && Declared(s, defs) && Engines(s.defs, assign)
    requires Mirrors(cells, s) && NoneMarked(env, s, defs, lists)
    ensures var m := RebuildAll(env, s, defs, lists); Mirrors(ApplyAll(cells, m.ops), m.state)
    decreases |defs|
  {
    hide Mirrors;
    hide TwoViews;
    hide KeysOf;
    hide Installed;
    if defs == [] {
      assert ApplyAll(cells, []) == cells;
    } else {
      var init, last := defs[..|defs| - 1], defs[|defs| - 1];
      assert forall d :: d in defs <==> d in init || d == last;
      assert last in defs;
      BuildsInStep(env, assign, cells, s, init, lists);
      var before := RebuildAll(env, s, init, lists);
      MigratedEntries(env, s, init, lists, FormatKey());
      var rows := lists(last.collection);
      if IsDurable(last) {
        MarkedStayAtBuild(env, assign, s, init, lists, last);
        BuildMirrorsIff(env, ApplyAll(cells, before.ops), before.state, last, rows);
      } else {
        InstalledKeepsMirror(env, ApplyAll(cells, before.ops), before.state, last, rows);
      }
      BatchesJoin(cells, before.ops, RebuildOne(env, before.state, last, rows).ops);
    }
  }

  lemma MarkedStayAtBuild(env: Env, assign: Assignment, s: State, init: seq<IndexDef>, lists: Lists, def: IndexDef)
    requires Ready(s) && s.entries == {} && Declared(s, init + [def]) && Engines(s.defs, assign) && IsDurable(def)
    requires NoneMarked(env, s, init + [def], lists)
    ensures MarkedBuildStays(env, RebuildAll(env, s, init, lists).state, def, lists(def.collection))
  {
    hide TwoViews;
    hide KeysOf;
    hide RebuildAll;
    hide StartsWith;
    hide RefOf;
    var t := RebuildAll(env, s, init, lists).state;
    assert def in init + [def] && Declared(s, init);
    MigratedEntries(env, s, init, lists, def.Key());
    forall k | k in t.dirty && StartsWith(k, def.EntryPrefix())
      ensures k !in t.entries && k !in KeysOf(env, def, lists(def.collection))
    {
      if Rebuilt(env, init + [def], lists, k) {
        SameIndex(env, s, init + [def], lists, def, k);
        ListedKey(env, def, lists(def.collection), k);
        MarksWait(env, assign, s, init, lists, k);
      }
      MigratedEntries(env, s, init, lists, k);
    }
  }

  /** Opened in another format and built again, in whole or in part: memory and
      storage are in step exactly when no entry stored before is one an index
      stored directly has now. */
  lemma MigrationMirrorsIff(env: Env, assign: Assignment, cells: Cells, defs: seq<IndexDef>, lists: Lists)
    requires OtherFormat(cells) && Engines(Loaded(cells).defs, assign) && Declared(Loaded(cells), defs)
    ensures var m := RebuildAll(env, Loaded(cells), defs, lists);
      Mirrors(ApplyAll(cells, m.ops), m.state) <==>
        (forall d, k :: d in defs && IsDurable(d) && k in KeysOf(env, d, lists(d.collection)) ==> k !in cells)
  {
    hide TwoViews;
    hide KeysOf;
    hide RebuildAll;
    hide Loaded;
    hide OtherFormat;
    hide Told;
    var s := Loaded(cells);
    LoadedOther(cells, FormatKey());
    forall k | k != FormatKey() ensures Shown(cells, s, k) == Told(s, k) { LoadedOther(cells, k); }
    forall d, k | d in defs && IsDurable(d) && k in KeysOf(env, d, lists(d.collection))
      ensures k in s.dirty <==> k in cells
    {
      RebuiltKey(env, d, lists, k);
      LoadedOther(cells, k);
    }
    if NoneMarked(env, s, defs, lists) {
      BuildsInStep(env, assign, cells, s, defs, lists);
    } else {
      var d, k :| d in defs && IsDurable(d) && k in KeysOf(env, d, lists(d.collection)) && k in s.dirty;
      LostAtFlush(env, assign, cells, defs, lists, d, k);
    }
  }

  lemma RebuiltKey(env: Env, def: IndexDef, lists: Lists, k: Bytes)
    requires k in KeysOf(env, def, lists(def.collection))
    ensures RefOf(k).Some? && RefOf(k).value.0 == def.collection && k != FormatKey() && StartsWith(k, EntriesPrefix())
  {
    ListedKey(env, def, lists(def.collection), k);
    KindsAreDisjoint(k);
    hide KeysOf;
    EntryKeyIsUnder(k);
  }

  /** And a key stored before and built again is removed from storage by the next
      flush while memory keeps it. */
  lemma LostAtFlush(env: Env, assign: Assignment, cells: Cells, defs: seq<IndexDef>, lists: Lists, d: IndexDef, k: Bytes)
    requires OtherFormat(cells) && Engines(Loaded(cells).defs, assign) && Declared(Loaded(cells), defs)
    requires d in defs && IsDurable(d) && k in KeysOf(env, d, lists(d.collection)) && k in cells
    ensures var m := RebuildAll(env, Loaded(cells), defs, lists);
      && k in m.state.entries && Visible(ApplyAll(cells, m.ops), m.state.dirty, k) == None
      && !Mirrors(ApplyAll(cells, m.ops), m.state)
  {
    hide TwoViews;
    hide KeysOf;
    hide RebuildAll;
    hide Loaded;
    hide RefOf;
    hide ApplyAll;
    RebuiltKey(env, d, lists, k);
    LoadedOther(cells, k);
    MigratedEntries(env, Loaded(cells), defs, lists, k);
    MarksWait(env, assign, Loaded(cells), defs, lists, k);
    var m := RebuildAll(env, Loaded(cells), defs, lists);
    assert Shown(ApplyAll(cells, m.ops), m.state, k) == None && Told(m.state, k) == Some(EntryCell);
  }

  // ── Opened again before a flush ───────────────────────────────────────────

  lemma {:induction false} BuildsWrite(env: Env, assign: Assignment, s: State, defs: seq<IndexDef>, lists: Lists, k: Bytes)
    requires Ready(s) && s.entries == {} && Declared(s, defs) && Engines(s.defs, assign) && !IsStoredDirectly(assign, k)
    ensures !WritesKey(RebuildAll(env, s, defs, lists).ops, k)
    decreases |defs|
  {
    hide TwoViews;
    hide RebuildOne;
    hide KeysOf;
    hide CollectionOf;
    if defs != [] {
      var init, last := defs[..|defs| - 1], defs[|defs| - 1];
      assert forall d :: d in defs <==> d in init || d == last;
      assert last in defs;
      BuildsWrite(env, assign, s, init, lists, k);
      MigratedEntries(env, s, init, lists, k);
      BuildWrites(env, assign, RebuildAll(env, s, init, lists).state, last, lists(last.collection), k);
    }
  }

  lemma BuildWrites(env: Env, assign: Assignment, s: State, def: IndexDef, rows: seq<Listed>, k: Bytes)
    requires Ready(s) && def.name in s.defs && s.defs[def.name] == def && Engines(s.defs, assign) && !IsStoredDirectly(assign, k)
    ensures !WritesKey(RebuildOne(env, s, def, rows).ops, k)
  {
    hide Installed;
    hide CollectionOf;
    SinkIsIgnored(s, Some([]));
    hide TwoViews;
    if IsDurable(def) {
      InstalledTraced(env, Collecting(s), def, rows);
      var ops := Collected(Installed(env, Collecting(s), def, rows));
      assert ops[0..] == ops;
      forall i | 0 <= i < |ops| ensures ops[i].key != k { assert Within(ops[i].key, {def.collection}); }
    }
  }

  /** The builds leave storage as it was outside the entries. */
  lemma BuildsLeaveDefs(env: Env, assign: Assignment, cells: Cells, defs: seq<IndexDef>, lists: Lists, k: Bytes)
    requires OtherFormat(cells) && Engines(Loaded(cells).defs, assign) && Declared(Loaded(cells), defs)
    requires var m := RebuildAll(env, Loaded(cells), defs, lists); Mirrors(ApplyAll(cells, m.ops), m.state)
    requires !StartsWith(k, EntriesPrefix())
    ensures var m := RebuildAll(env, Loaded(cells), defs, lists); Seen(ApplyAll(cells, m.ops), k) == Seen(cells, k)
  {
    hide TwoViews;
    hide KeysOf;
    hide RebuildAll;
    hide Loaded;
    hide OtherFormat;
    hide CollectionOf;
    hide ParseDef;
    var s, m := Loaded(cells), RebuildAll(env, Loaded(cells), defs, lists);
    LoadedOther(cells, k);
    MigratedEntries(env, s, defs, lists, k);
    if IsStoredDirectly(assign, k) {
      FormatIsNowhere();
      MarksWait(env, assign, s, defs, lists, k);
      if k in m.state.entries { EntryIsUnder(m.state, k); }
      assert Shown(ApplyAll(cells, m.ops), m.state, k) == Told(m.state, k);
    } else {
      BuildsWrite(env, assign, s, defs, lists, k);
      BatchShows(cells, m.ops, k);
      LatestOfOthers(m.ops, k, Seen(cells, k));
    }
  }

  lemma FormatIsNowhere()
    ensures CollectionOf(FormatKey()) == None
  {
    KindsAreDisjoint(FormatKey());
  }

  lemma EntryIsUnder(s: State, k: Bytes)
    requires TwoViews(s) && k in s.entries
    ensures StartsWith(k, EntriesPrefix())
  {
    HeldIsListed(s, k);
    EntryKeyIsUnder(k);
  }

  lemma StillOtherFormat(cells: Cells, later: Cells)
    requires OtherFormat(cells) && forall k :: !StartsWith(k, EntriesPrefix()) ==> Seen(later, k) == Seen(cells, k)
    ensures OtherFormat(later) && Loaded(later).defs == Loaded(cells).defs
  {
    hide Loaded;
    hide LoadDefs;
    hide PrefixScan;
    hide StartsWith;
    hide Key.DefsPrefix;
    hide Key.EntriesPrefix;
    FormatKeyIsNoEntry();
    forall k | StartsWith(k, DefsPrefix()) ensures Seen(later, k) == Seen(cells, k) { DefIsNoEntry(k); }
    forall a, b ensures OneName(Bare(later), a, b) {
      DefKeyIsUnder(a);
      DefKeyIsUnder(b);
      assert OneName(Bare(cells), a, b);
    }
    forall k | k in later && !StartsWith(k, EntriesPrefix()) ensures k in cells && cells[k] == later[k] {
      assert Seen(later, k) == Seen(cells, k);
    }
    forall k | k in later && StartsWith(k, DefsPrefix()) ensures k in cells && cells[k] == later[k] { DefIsNoEntry(k); }
    LoadedUnread(cells);
    LoadedUnread(later);
    SameDefs(cells, later);
  }

  lemma FormatKeyIsNoEntry()
    ensures !StartsWith(FormatKey(), EntriesPrefix())
  {
    assert EntriesPrefix()[4] == ENTRY && FormatKey()[4] == FORMAT;
  }

  lemma DefIsNoEntry(k: Bytes)
    requires StartsWith(k, DefsPrefix())
    ensures !StartsWith(k, EntriesPrefix())
  {
    assert EntriesPrefix()[4] == ENTRY && DefsPrefix()[4] == DEF;
    assert k[4] == DEF;
  }

  lemma SameDefs(cells: Cells, later: Cells)
    requires forall k :: StartsWith(k, DefsPrefix()) ==> Seen(later, k) == Seen(cells, k)
    ensures LoadDefs(later, PrefixScan(later.Keys, DefsPrefix())) == LoadDefs(cells, PrefixScan(cells.Keys, DefsPrefix()))
  {
    hide PrefixScan;
    hide LoadDefs;
    hide Key.DefsPrefix;
    hide StartsWith;
    assert Under(later.Keys, DefsPrefix()) == Under(cells.Keys, DefsPrefix()) by {
      forall k | StartsWith(k, DefsPrefix()) ensures k in later <==> k in cells { assert Seen(later, k) == Seen(cells, k); }
    }
    PrefixScanExact(cells.Keys, DefsPrefix());
    PrefixScanExact(later.Keys, DefsPrefix());
    SameCellsSameDefs(cells, later, PrefixScan(cells.Keys, DefsPrefix()));
  }

  lemma {:induction false} SameCellsSameDefs(cells: Cells, later: Cells, keys: seq<Bytes>)
    requires forall k :: k in keys ==> Seen(later, k) == Seen(cells, k)
    ensures LoadDefs(later, keys) == LoadDefs(cells, keys)
    decreases |keys|
  {
    if keys != [] {
      assert forall k :: k in keys[..|keys| - 1] ==> k in keys;
      SameCellsSameDefs(cells, later, keys[..|keys| - 1]);
    }
  }

  lemma {:induction false} StoredKeys(ops: seq<EntryOp>, k: Bytes)
    requires forall i :: 0 <= i < |ops| ==> ops[i].key != k
    ensures !WritesKey(StoreOps(ops), k)
    decreases |ops|
  {
    if ops != [] { StoredKeys(ops[..|ops| - 1], k); }
  }

  lemma {:induction false} PutRowsWrite(env: Env, s: State, def: IndexDef, rows: seq<Listed>, k: Bytes)
    requires s.sink.Some? && !WritesKey(s.sink.value, k) && k !in KeysOf(env, def, rows)
    ensures PutRows(env, s, def, rows).sink.Some? && !WritesKey(PutRows(env, s, def, rows).sink.value, k)
    decreases |rows|
  {
    hide EntryKeys;
    hide Apply;
    if rows != [] {
      var last := rows[|rows| - 1];
      PutRowsWrite(env, s, def, rows[..|rows| - 1], k);
      var puts := Puts(Ascending(EntryKeys(env, def, last.0, last.1)));
      forall i | 0 <= i < |puts| ensures puts[i].key != k {
        assert puts[i].key in Ascending(EntryKeys(env, def, last.0, last.1));
      }
      hide Ascending;
      StoredKeys(puts, k);
      hide StoreOps;
      ApplySinks(PutRows(env, s, def, rows[..|rows| - 1]), (def.collection, last.0), puts);
    }
  }

  lemma ClearPrefixWrites(s: State, prefix: Bytes, k: Bytes)
    requires s.sink.Some? && !WritesKey(s.sink.value, k) && k !in s.entries
    ensures ClearPrefix(s, prefix).sink.Some? && !WritesKey(ClearPrefix(s, prefix).sink.value, k)
  {
    PrefixScanExact(s.entries, prefix);
    assert k !in PrefixScan(s.entries, prefix);
    hide PrefixScan;
    hide ClearAll;
    DeletesOnly(PrefixScan(s.entries, prefix), k);
    hide DeleteOps;
    ClearAllSinks(s, PrefixScan(s.entries, prefix));
  }

  /** A build writes its definition, the entries it clears and those it puts. */
  lemma InstallWrites(env: Env, s: State, def: IndexDef, rows: seq<Listed>, k: Bytes)
    requires Ready(s) && k != def.Key() && k !in s.entries && k !in KeysOf(env, def, rows)
    ensures !WritesKey(Collected(Installed(env, Collecting(s), def, rows)), k)
  {
    hide KeysOf;
    hide PutRows;
    hide ClearPrefix;
    var from := Collecting(s);
    SinkIsIgnored(s, Some([]));
    var first := if def.name in s.defs then ClearPrefix(from, s.defs[def.name].EntryPrefix()) else from;
    if def.name in s.defs {
      ClearPrefixWrites(from, s.defs[def.name].EntryPrefix(), k);
      ClearPrefixShows(from, s.defs[def.name].EntryPrefix(), k);
    }
    ClearPrefixWrites(first, def.EntryPrefix(), k);
    hide TwoViews;
    PutRowsWrite(env, PutDef(Cleared(from, def), def), def, rows, k);
  }

  lemma {:induction false} UnbuiltIsUnwritten(env: Env, s: State, defs: seq<IndexDef>, lists: Lists, k: Bytes)
    requires Ready(s) && s.entries == {} && Declared(s, defs) && RefOf(k).Some? && !Rebuilt(env, defs, lists, k)
    ensures !WritesKey(RebuildAll(env, s, defs, lists).ops, k)
    decreases |defs|
  {
    hide TwoViews;
    hide Installed;
    hide KeysOf;
    hide RefOf;
    if defs != [] {
      var init, last := defs[..|defs| - 1], defs[|defs| - 1];
      assert forall d :: d in defs <==> d in init || d == last;
      assert last in defs;
      UnbuiltIsUnwritten(env, s, init, lists, k);
      MigratedEntries(env, s, init, lists, k);
      DefKeyIsNoEntry(last);
      if IsDurable(last) { InstallWrites(env, RebuildAll(env, s, init, lists).state, last, lists(last.collection), k); }
    }
  }

  /** Of an index stored directly, an open leaves stored what was stored before
      and what it built. */
  lemma StoredAfterOpen(env: Env, assign: Assignment, cells: Cells, defs: seq<IndexDef>, lists: Lists, k: Bytes)
    requires OtherFormat(cells) && Engines(Loaded(cells).defs, assign) && Declared(Loaded(cells), defs)
    requires var m := RebuildAll(env, Loaded(cells), defs, lists); Mirrors(ApplyAll(cells, m.ops), m.state)
    requires RefOf(k).Some? && assign(RefOf(k).value.0) != DocumentRows
    ensures k in ApplyAll(cells, RebuildAll(env, Loaded(cells), defs, lists).ops) <==> k in cells || Rebuilt(env, defs, lists, k)
  {
    hide Mirrors;
    hide KeysOf;
    hide RebuildAll;
    hide Loaded;
    hide OtherFormat;
    hide ApplyAll;
    var ops := RebuildAll(env, Loaded(cells), defs, lists).ops;
    if Rebuilt(env, defs, lists, k) {
      var d :| d in defs && k in KeysOf(env, d, lists(d.collection));
      RebuiltKey(env, d, lists, k);
      BuiltIsStored(env, assign, cells, defs, lists, d, k);
    } else {
      LoadedOther(cells, k);
      UnbuiltIsUnwritten(env, Loaded(cells), defs, lists, k);
      BatchShows(cells, ops, k);
      LatestOfOthers(ops, k, Seen(cells, k));
    }
  }

  /** Opened in step, and opened again before any flush, with other rows perhaps:
      the format is still not recorded, so what the first open stored is marked
      for removal. The second open is in step exactly when no index stored
      directly gets an entry that was stored before or by the first. */
  lemma SecondOpenMirrorsIff(env: Env, assign: Assignment, cells: Cells, defs: seq<IndexDef>, lists: Lists,
                             again: seq<IndexDef>, next: Lists)
    requires OtherFormat(cells) && Engines(Loaded(cells).defs, assign)
    requires Declared(Loaded(cells), defs) && Declared(Loaded(cells), again)
    requires var m := RebuildAll(env, Loaded(cells), defs, lists); Mirrors(ApplyAll(cells, m.ops), m.state)
    ensures var later := ApplyAll(cells, RebuildAll(env, Loaded(cells), defs, lists).ops);
      var m := RebuildAll(env, Loaded(later), again, next);
      Mirrors(ApplyAll(later, m.ops), m.state) <==>
        (forall d, k :: d in again && IsDurable(d) && k in KeysOf(env, d, next(d.collection)) ==>
           k !in cells && !Rebuilt(env, defs, lists, k))
  {
    hide Mirrors;
    hide KeysOf;
    hide RebuildAll;
    hide Loaded;
    hide OtherFormat;
    hide ApplyAll;
    hide Rebuilt;
    var later := ApplyAll(cells, RebuildAll(env, Loaded(cells), defs, lists).ops);
    forall k | !StartsWith(k, EntriesPrefix()) ensures Seen(later, k) == Seen(cells, k) {
      BuildsLeaveDefs(env, assign, cells, defs, lists, k);
    }
    StillOtherFormat(cells, later);
    MigrationMirrorsIff(env, assign, later, again, next);
    forall d, k | d in again && IsDurable(d) && k in KeysOf(env, d, next(d.collection))
      ensures k in later <==> k in cells || Rebuilt(env, defs, lists, k)
    {
      RebuiltKey(env, d, next, k);
      StoredAfterOpen(env, assign, cells, defs, lists, k);
    }
  }

  lemma BuiltIsStored(env: Env, assign: Assignment, cells: Cells, defs: seq<IndexDef>, lists: Lists, d: IndexDef, k: Bytes)
    requires OtherFormat(cells) && Engines(Loaded(cells).defs, assign) && Declared(Loaded(cells), defs)
    requires var m := RebuildAll(env, Loaded(cells), defs, lists); Mirrors(ApplyAll(cells, m.ops), m.state)
    requires d in defs && IsDurable(d) && k in KeysOf(env, d, lists(d.collection))
    ensures k in ApplyAll(cells, RebuildAll(env, Loaded(cells), defs, lists).ops)
  {
    hide TwoViews;
    hide KeysOf;
    hide RebuildAll;
    hide Loaded;
    hide OtherFormat;
    hide ApplyAll;
    var m := RebuildAll(env, Loaded(cells), defs, lists);
    RebuiltKey(env, d, lists, k);
    LoadedOther(cells, k);
    MigratedEntries(env, Loaded(cells), defs, lists, k);
    MarksWait(env, assign, Loaded(cells), defs, lists, k);
    assert Shown(ApplyAll(cells, m.ops), m.state, k) == Told(m.state, k);
    hide RefOf;
  }

  lemma OneDefStore(def: IndexDef)
    ensures var cells := map[def.Key() := DefCell(def)]; OtherFormat(cells) && Loaded(cells).defs == map[def.name := def]
  {
    hide PrefixScan;
    hide LoadDefs;
    hide Loaded;
    hide StartsWith;
    var cells: Cells := map[def.Key() := DefCell(def)];
    DefKeyIsNoEntry(def);
    DefKeyIsUnder(def);
    forall a, b ensures OneName(Bare(cells), a, b) { }
    LoadedUnread(cells);
    OneDefLoads(def);
  }

  lemma DefKeyIsUnder(def: IndexDef)
    ensures StartsWith(def.Key(), DefsPrefix())
  {
  }

  lemma OneDefLoads(def: IndexDef)
    ensures var cells := map[def.Key() := DefCell(def)];
      LoadDefs(cells, PrefixScan(cells.Keys, DefsPrefix())) == map[def.name := def]
  {
    hide PrefixScan;
    hide StartsWith;
    hide LoadDefs;
    var cells: Cells := map[def.Key() := DefCell(def)];
    var keys := PrefixScan(cells.Keys, DefsPrefix());
    PrefixScanExact(cells.Keys, DefsPrefix());
    DefKeyIsUnder(def);
    assert def.Key() in keys;
    forall n ensures n in LoadDefs(cells, keys) <==> n == def.name
      ensures n in LoadDefs(cells, keys) ==> LoadDefs(cells, keys)[n] == def
    {
      LoadDefsFinds(cells, keys, n);
      assert Seen(cells, def.Key()) == Some(DefCell(def));
    }
  }

  /** So one directly stored index and a row it has an entry for are enough: the
      first open is in step, the next one is not, and its flush removes from
      storage the entry memory has. */
  lemma SecondOpenDiverges(env: Env, assign: Assignment, def: IndexDef, listed: seq<Listed>, k: Bytes)
    requires IsDurable(def) && def.engine == assign(def.collection) && k in KeysOf(env, def, listed)
    ensures var cells := map[def.Key() := DefCell(def)];
      var first := RebuildAll(env, Loaded(cells), [def], _ => listed);
      var later := ApplyAll(cells, first.ops);
      var second := RebuildAll(env, Loaded(later), [def], _ => listed);
      && Mirrors(later, first.state)
      && k in second.state.entries && Visible(ApplyAll(later, second.ops), second.state.dirty, k) == None
  {
    hide Mirrors;
    hide KeysOf;
    hide RebuildAll;
    hide Loaded;
    hide OtherFormat;
    hide ApplyAll;
    var cells, lists: Lists := map[def.Key() := DefCell(def)], _ => listed;
    OneDefStore(def);
    RebuiltKeysAreNew(env, def, lists);
    MigrationMirrorsIff(env, assign, cells, [def], lists);
    var later := ApplyAll(cells, RebuildAll(env, Loaded(cells), [def], lists).ops);
    forall x | !StartsWith(x, EntriesPrefix()) ensures Seen(later, x) == Seen(cells, x) {
      BuildsLeaveDefs(env, assign, cells, [def], lists, x);
    }
    StillOtherFormat(cells, later);
    assert def in [def];
    BuiltIsStored(env, assign, cells, [def], lists, def, k);
    LostAtFlush(env, assign, later, [def], lists, def, k);
  }

  lemma RebuiltKeysAreNew(env: Env, def: IndexDef, lists: Lists)
    ensures forall k :: k in KeysOf(env, def, lists(def.collection)) ==> k != def.Key()
  {
    hide KeysOf;
    DefKeyIsNoEntry(def);
    forall k | k in KeysOf(env, def, lists(def.collection)) ensures k != def.Key() { RebuiltKey(env, def, lists, k); }
  }
}
