/** Runs written out step by step: one that shows what a flush preserves, and
    the ones after which memory and storage part. */
module Scenarios {
  import opened Options
  import opened ByteOrder
  import opened Utf8
  import opened Key
  import opened Document
  import opened Store
  import opened Maintain
  import opened Install
  import opened Views
  import opened Durable
  import opened Runs
  import Ddl
  import Pending
  import Moves
  import Unique

  lemma {:induction false} RunsJoin(env: Env, assign: Assignment, sys: System, first: seq<Step>, rest: seq<Step>)
    requires Legal(env, assign, sys, first) && Legal(env, assign, End(env, assign, sys, first), rest)
    ensures Legal(env, assign, sys, first + rest)
    ensures End(env, assign, sys, first + rest) == End(env, assign, End(env, assign, sys, first), rest)
    decreases |first|
  {
    hide Enabled;
    hide Next;
    if first == [] {
      assert first + rest == rest;
    } else {
      RunsJoin(env, assign, Next(env, assign, sys, first[0]), first[1..], rest);
      assert (first + rest)[0] == first[0] && (first + rest)[1..] == first[1..] + rest;
    }
  }

  lemma OneStep(env: Env, assign: Assignment, sys: System, step: Step)
    requires Enabled(env, assign, sys, step)
    ensures Legal(env, assign, sys, [step]) && End(env, assign, sys, [step]) == Next(env, assign, sys, step)
  {
    hide Enabled;
    hide Next;
    assert [step][1..] == [];
  }

  // ── A run that shows the promise is kept ──────────────────────────────────

  /** Build an index, write rows, flush, and open the store again. */
  function BuildWriteFlushReopen(def: IndexDef, ids: seq<Text>, rows: Rows): seq<Step> {
    [BuildIndex(def, [])] + [WriteRows(def.collection, ids, rows)] + [Stage, Commit, Acknowledge] + [Reopen]
  }

  ghost predicate RowsOf(rows: Rows, collection: Ident, ids: seq<Text>) {
    forall ref :: ref in rows ==> ref.0 == collection && ref.1 in ids
  }

  lemma BuildsFirst(env: Env, assign: Assignment, def: IndexDef)
    requires IsDocument(assign, def.collection) && def.engine == DocumentRows
    ensures Enabled(env, assign, Start(), BuildIndex(def, []))
    ensures var sys := Next(env, assign, Start(), BuildIndex(def, []));
      Inv(env, assign, sys) && sys.s.defs == map[def.name := def] && sys.rows == map[] && sys.flight == None
  {
    hide Inv;
    hide Loaded;
    hide Stamped;
    hide Installed;
    LoadedFresh();
    StartIsSound(env, assign);
    assert Start().s == EMPTY;
    StepKeepsInv(env, assign, Start(), BuildIndex(def, []));
    assert TwoViews(EMPTY);
    InstalledShows(env, EMPTY, def, [], FormatKey());
  }

  lemma ThenWrites(env: Env, assign: Assignment, sys: System, def: IndexDef, ids: seq<Text>, rows: Rows)
    requires IsDocument(assign, def.collection) && Inv(env, assign, sys) && RowsOf(rows, def.collection, ids)
    requires sys.s.defs == map[def.name := def] && sys.rows == map[] && sys.flight == None
    ensures var step := WriteRows(def.collection, ids, rows);
      && Enabled(env, assign, sys, step)
      && var next := Next(env, assign, sys, step);
      && Inv(env, assign, next) && next.s.defs == map[def.name := def] && next.rows == rows && next.flight == None
  {
    hide Inv;
    hide ResyncAll;
    StepKeepsInv(env, assign, sys, WriteRows(def.collection, ids, rows));
  }

  /** With nothing pending, opening again gives the definitions memory had. */
  lemma ReopenKeepsDefs(env: Env, assign: Assignment, sys: System)
    requires Inv(env, assign, sys) && sys.s.dirty == map[]
    ensures Loaded(sys.cells).defs == sys.s.defs
  {
    hide Sound;
    hide Agrees;
    hide CollectionOf;
    hide Loaded;
    hide Told;
    hide TwoViews;
    LoadedExact(env, assign, sys.cells, sys.stored);
    forall k | k != FormatKey() ensures Told(sys.s, k) == Told(Loaded(sys.cells), k) {
      assert Shown(sys.cells, sys.s, k) == Told(sys.s, k) && Shown(sys.cells, Loaded(sys.cells), k) == Told(Loaded(sys.cells), k);
    }
    Ddl.SameTold(sys.s, Loaded(sys.cells));
  }

  /** After it the rows, the index and every entry of the rows are there, with
      nothing pending. */
  lemma FlushedRowsSurvive(env: Env, assign: Assignment, def: IndexDef, ids: seq<Text>, rows: Rows)
    requires IsDocument(assign, def.collection) && def.engine == DocumentRows && RowsOf(rows, def.collection, ids)
    ensures Legal(env, assign, Start(), BuildWriteFlushReopen(def, ids, rows))
    ensures var sys := End(env, assign, Start(), BuildWriteFlushReopen(def, ids, rows));
      && Inv(env, assign, sys) && sys.s.dirty == map[] && sys.flight == None
      && sys.stored == sys.rows && (forall ref :: RowOf(sys.rows, ref) == RowOf(rows, ref))
      && sys.s.defs == map[def.name := def]
      && (forall ref :: ref in rows ==> EntryKeys(env, def, ref.1, rows[ref]) <= sys.s.entries)
  {
    hide Inv;
    hide Enabled;
    hide Next;
    hide Legal;
    hide End;
    hide Start;
    hide EntryKeys;
    hide RowsOf;
    var (build, write) := (BuildIndex(def, []), WriteRows(def.collection, ids, rows));
    BuildsFirst(env, assign, def);
    OneStep(env, assign, Start(), build);
    var built := End(env, assign, Start(), [build]);
    ThenWrites(env, assign, built, def, ids, rows);
    OneStep(env, assign, built, write);
    RunsJoin(env, assign, Start(), [build], [write]);
    var written := End(env, assign, Start(), [build] + [write]);
    var flush := [Stage, Commit, Acknowledge];
    FlushCatchesUp(env, assign, written);
    FlushKeepsDefs(env, assign, written);
    RunsJoin(env, assign, Start(), [build] + [write], flush);
    var flushed := End(env, assign, Start(), [build] + [write] + flush);
    Reopens(env, assign, flushed, def, ids, rows);
    OneStep(env, assign, flushed, Reopen);
    RunsJoin(env, assign, Start(), [build] + [write] + flush, [Reopen]);
  }

  lemma FlushKeepsDefs(env: Env, assign: Assignment, sys: System)
    requires Inv(env, assign, sys) && sys.flight.None? && Legal(env, assign, sys, [Stage, Commit, Acknowledge])
    ensures var after := End(env, assign, sys, [Stage, Commit, Acknowledge]);
      Inv(env, assign, after) && after.s.defs == sys.s.defs && after.rows == sys.rows
  {
    hide Inv;
    hide Merge;
    hide Written;
    var steps := [Stage, Commit, Acknowledge];
    assert steps[1..] == [Commit, Acknowledge] && steps[1..][1..] == [Acknowledge] && steps[1..][1..][1..] == [];
    RunKeepsInv(env, assign, sys, [Stage, Commit, Acknowledge]);
  }

  lemma Reopens(env: Env, assign: Assignment, sys: System, def: IndexDef, ids: seq<Text>, rows: Rows)
    requires Inv(env, assign, sys) && sys.s.dirty == map[] && sys.s.defs == map[def.name := def]
    requires RowsOf(rows, def.collection, ids) && forall ref :: RowOf(sys.stored, ref) == RowOf(rows, ref)
    ensures Enabled(env, assign, sys, Reopen)
    ensures var next := Next(env, assign, sys, Reopen);
      && Inv(env, assign, next) && next.s.dirty == map[] && next.flight == None
      && next.stored == next.rows && (forall ref :: RowOf(next.rows, ref) == RowOf(rows, ref))
      && next.s.defs == map[def.name := def]
      && (forall ref :: ref in rows ==> EntryKeys(env, def, ref.1, rows[ref]) <= next.s.entries)
  {
    hide Inv;
    hide Loaded;
    hide TwoViews;
    ReopenKeepsDefs(env, assign, sys);
    ReopenAgrees(env, assign, sys);
    StepKeepsInv(env, assign, sys, Reopen);
    var next := Next(env, assign, sys, Reopen);
    forall ref | ref in rows ensures EntryKeys(env, def, ref.1, rows[ref]) <= next.s.entries {
      forall k | k in EntryKeys(env, def, ref.1, rows[ref]) ensures k in next.s.entries {
        EntryKeysParse(env, def, ref.1, rows[ref], k);
        assert RowOf(next.rows, ref) == Some(rows[ref]);
        assert AgreesOn(env, next.s, next.rows, k);
      }
    }
  }

  lemma ReopenAgrees(env: Env, assign: Assignment, sys: System)
    requires Inv(env, assign, sys)
    ensures Agrees(env, Loaded(sys.cells), sys.stored) && Loaded(sys.cells).dirty == map[]
  {
    hide Loaded;
    hide Sound;
    hide Agrees;
    LoadedExact(env, assign, sys.cells, sys.stored);
  }

  // ── A collection dropped ──────────────────────────────────────────────────

  /** Definitions of one collection as memory declares them. */
  ghost predicate DeclaredOn(assign: Assignment, s: State, collection: Ident, list: seq<IndexDef>) {
    && Ddl.DistinctNames(list)
    && (forall d :: d in list ==> d.name in s.defs && s.defs[d.name] == d)
    && (forall d :: d in list ==> d.collection == collection && d.engine == assign(collection))
  }

  ghost function DropEach(assign: Assignment, list: seq<IndexDef>): seq<Step> {
    if list == [] then []
    else
      DropEach(assign, list[..|list| - 1]) + [DropStepOf(assign, list[|list| - 1])]
  }

  ghost function DropStepOf(assign: Assignment, def: IndexDef): Step {
    if IsDocument(assign, def.collection) then DropIndex(def.name) else DropStored(def.name)
  }

  lemma DropStepIs(env: Env, assign: Assignment, sys: System, def: IndexDef)
    requires sys.s.sink.None? && def.name in sys.s.defs && sys.s.defs[def.name] == def && def.engine == assign(def.collection)
    ensures Enabled(env, assign, sys, DropStepOf(assign, def))
    ensures var dropped := Ddl.DropOne(sys.s, def);
      Next(env, assign, sys, DropStepOf(assign, def)) == sys.(s := dropped.state, cells := ApplyAll(sys.cells, dropped.ops))
  {
    hide RemoveDef;
    assert ApplyAll(sys.cells, []) == sys.cells;
    hide ApplyAll;
  }

  lemma {:induction false} DropEachRuns(env: Env, assign: Assignment, sys: System, collection: Ident, list: seq<IndexDef>)
    requires Ddl.Ready(sys.s) && DeclaredOn(assign, sys.s, collection, list)
    ensures Legal(env, assign, sys, DropEach(assign, list))
    ensures var dropped := Ddl.ChangeAll(sys.s, Ddl.Drop, list);
      End(env, assign, sys, DropEach(assign, list))
        == sys.(s := dropped.state, cells := ApplyAll(sys.cells, dropped.ops))
    decreases |list|
  {
    hide TwoViews;
    hide Ddl.DropOne;
    hide Enabled;
    hide Next;
    if list == [] {
      assert ApplyAll(sys.cells, []) == sys.cells;
    } else {
      hide ApplyAll;
      var init, last := list[..|list| - 1], list[|list| - 1];
      assert forall d :: d in init ==> d in list;
      assert last in list;
      DropEachRuns(env, assign, sys, collection, init);
      Ddl.LastIsApart(list);
      Ddl.ChangeAllApart(sys.s, Ddl.Drop, init, last);
      var before := End(env, assign, sys, DropEach(assign, init));
      DropStepIs(env, assign, before, last);
      OneStep(env, assign, before, DropStepOf(assign, last));
      RunsJoin(env, assign, sys, DropEach(assign, init), [DropStepOf(assign, last)]);
      var dropped := Ddl.ChangeAll(sys.s, Ddl.Drop, init);
      Ddl.BatchesJoin(sys.cells, dropped.ops, Ddl.DropOne(dropped.state, last).ops);
    }
  }

  ghost function RemoveRows(assign: Assignment, collection: Ident, removals: seq<RowImage>): Step {
    if IsDocument(assign, collection) then ClearRows(collection) else StoreRows(removals)
  }

  /** With no index left, removing the rows touches nothing else. */
  lemma RemoveRowsIs(env: Env, assign: Assignment, sys: System, collection: Ident, removals: seq<RowImage>)
    requires sys.s.sink.None? && Pending.OnCollection(removals, collection)
    requires forall n :: n in sys.s.defs ==> sys.s.defs[n].collection != collection
    ensures Enabled(env, assign, sys, RemoveRows(assign, collection, removals))
    ensures Next(env, assign, sys, RemoveRows(assign, collection, removals)) ==
      if IsDocument(assign, collection) then sys.(rows := Ddl.WithoutCollection(sys.rows, collection))
      else sys.(rows := ApplyImages(sys.rows, removals), stored := ApplyImages(sys.stored, removals))
  {
    hide SettleImages;
    hide ApplyImages;
    if IsDocument(assign, collection) {
      assert DefsOn(sys.s.defs, collection, DocumentRows) == {};
    } else {
      assert ImagesOn(removals, assign, assign(collection));
      UnindexedStays(env, sys.s, EngineOf(removals, assign), removals, collection);
      assert ApplyAll(sys.cells, []) == sys.cells;
    }
  }

  /** Dropping a collection, its indexes and rows in one change, ends where a run
      of the steps above ends: drop each index, then remove the rows. */
  lemma DropCollectionIsARun(env: Env, assign: Assignment, sys: System, collection: Ident, list: seq<IndexDef>, removals: seq<RowImage>)
    requires Ddl.Ready(sys.s) && DeclaredOn(assign, sys.s, collection, list)
    requires forall n :: n in sys.s.defs && sys.s.defs[n].collection == collection ==> sys.s.defs[n] in list
    requires Pending.OnCollection(removals, collection)
    ensures var steps := DropEach(assign, list) + [RemoveRows(assign, collection, removals)];
      var dropped := Ddl.ChangeAll(sys.s, Ddl.Drop, list);
      var gone := sys.(s := dropped.state, cells := ApplyAll(sys.cells, dropped.ops));
      && Legal(env, assign, sys, steps)
      && End(env, assign, sys, steps) ==
           if IsDocument(assign, collection) then gone.(rows := Ddl.WithoutCollection(sys.rows, collection))
           else gone.(rows := ApplyImages(sys.rows, removals), stored := ApplyImages(sys.stored, removals))
  {
    hide TwoViews;
    hide Enabled;
    hide Next;
    hide Ddl.ChangeAll;
    hide DropEach;
    hide ApplyAll;
    hide ApplyImages;
    DropEachRuns(env, assign, sys, collection, list);
    var before, last := End(env, assign, sys, DropEach(assign, list)), RemoveRows(assign, collection, removals);
    var t := Ddl.ChangeAll(sys.s, Ddl.Drop, list).state;
    assert Ddl.Ready(t) by { Dropped(sys.s, list, collection); }
    forall n | n in t.defs ensures t.defs[n].collection != collection { Dropped(sys.s, list, n); }
    RemoveRowsIs(env, assign, before, collection, removals);
    OneStep(env, assign, before, last);
    RunsJoin(env, assign, sys, DropEach(assign, list), [last]);
  }

  lemma {:induction false} Dropped(s: State, list: seq<IndexDef>, n: Ident)
    requires Ddl.Ready(s) && Ddl.DistinctNames(list) && forall d :: d in list ==> d.name in s.defs && s.defs[d.name] == d
    ensures var t := Ddl.ChangeAll(s, Ddl.Drop, list).state;
      && Ddl.Ready(t)
      && (n in t.defs <==> n in s.defs && s.defs[n] !in list)
      && (n in t.defs ==> t.defs[n] == s.defs[n])
    decreases |list|
  {
    assert n in s.defs ==> s.defs[n].name == n;
    hide TwoViews;
    hide Ddl.ChangeOne;
    if list != [] {
      var init, last := list[..|list| - 1], list[|list| - 1];
      assert forall d :: d in list <==> d in init || d == last;
      assert last in list;
      Ddl.LastIsApart(list);
      Dropped(s, init, n);
      Dropped(s, init, last.name);
      Ddl.ChangeOneApart(Ddl.ChangeAll(s, Ddl.Drop, init).state, Ddl.Drop, last);
    }
  }

  lemma {:induction false} UnindexedStays(env: Env, s: State, engine: Engine, images: seq<RowImage>, collection: Ident)
    requires s.sink.None? && Pending.OnCollection(images, collection) && forall n :: n in s.defs ==> s.defs[n].collection != collection
    ensures SettleImages(env, Collecting(s), engine, images) == Collecting(s)
    decreases |images|
  {
    if images != [] {
      UnindexedStays(env, s, engine, images[..|images| - 1], collection);
      assert DefsOn(s.defs, collection, engine) == {};
    }
  }

  // ── A name dropped and stored again elsewhere ─────────────────────────────

  /** A document index built and flushed, dropped, its name given to a strict or
      key-value index before the next flush, and the store opened again. */
  function DropAndReuse(a: IndexDef, b: IndexDef): seq<Step> {
    [BuildIndex(a, [])] + [Stage, Commit, Acknowledge] + [DropIndex(a.name)] + [BuildStored(b, [])] + [Reopen]
  }

  lemma LoadedDefUnmarked(cells: Cells, def: IndexDef)
    requires IsCurrent(cells)
    ensures Loaded(cells).sink.None? && def.Key() !in Loaded(cells).dirty
  {
    hide LoadEntries;
    hide LoadDefs;
    hide PrefixScan;
    var keys := PrefixScan(cells.Keys, EntriesPrefix());
    assert def.Key() !in keys by {
      PrefixScanExact(cells.Keys, EntriesPrefix());
      assert EntriesPrefix()[4] == ENTRY && DefsPrefix()[4] == DEF;
      assert DefsPrefix() <= def.Key() && def.Key()[4] == DEF;
    }
    LoadEntriesSort(EMPTY.(defs := LoadDefs(cells, PrefixScan(cells.Keys, DefsPrefix()))), true, keys, def.Key());
  }

  /** Two stored definitions of one name: no loaded catalog shows them both. */
  lemma TwoOfOneName(cells: Cells, a: IndexDef, b: IndexDef)
    requires IsCurrent(cells) && a.name == b.name && a.collection != b.collection
    requires Seen(cells, a.Key()) == Some(DefCell(a)) && Seen(cells, b.Key()) == Some(DefCell(b))
    ensures !Mirrors(cells, Loaded(cells))
  {
    hide Loaded;
    var s := Loaded(cells);
    LoadedDefUnmarked(cells, a);
    LoadedDefUnmarked(cells, b);
    DefKeyIsNoEntry(a);
    DefKeyIsNoEntry(b);
    hide ParseDef;
    hide RefOf;
    if Mirrors(cells, s) {
      ToldHere(cells, s, a);
      ToldHere(cells, s, b);
    }
  }

  lemma ToldHere(cells: Cells, s: State, d: IndexDef)
    requires Mirrors(cells, s) && s.sink.None? && d.Key() !in s.dirty && Seen(cells, d.Key()) == Some(DefCell(d))
    requires d.Key() != FormatKey() && ParseDef(d.Key()) == Some((d.collection, d.name))
    ensures d.name in s.defs && s.defs[d.name] == d
  {
    assert Shown(cells, s, d.Key()) == Told(s, d.Key());
  }

  lemma DropsFlushed(env: Env, assign: Assignment, sys: System, a: IndexDef)
    requires Inv(env, assign, sys) && sys.s.dirty == map[] && sys.s.defs == map[a.name := a] && IsDocument(assign, a.collection)
    ensures Enabled(env, assign, sys, DropIndex(a.name))
    ensures var next := Next(env, assign, sys, DropIndex(a.name));
      && Inv(env, assign, next) && next.s.defs == map[] && next.rows == sys.rows
      && Seen(next.cells, a.Key()) == Some(DefCell(a))
  {
    hide Sound;
    hide Agrees;
    hide CollectionOf;
    hide RemoveDef;
    StepKeepsInv(env, assign, sys, DropIndex(a.name));
    RemoveDefRemoves(sys.s, a.name);
    hide TwoViews;
    DefKeyIsNoEntry(a);
    HeldIsListed(sys.s, a.Key());
    assert Shown(sys.cells, sys.s, a.Key()) == Told(sys.s, a.Key());
  }

  lemma ReusesName(env: Env, assign: Assignment, sys: System, a: IndexDef, b: IndexDef)
    requires Inv(env, assign, sys) && sys.s.defs == map[] && sys.rows == map[]
    requires IsDocument(assign, a.collection) && Seen(sys.cells, a.Key()) == Some(DefCell(a))
    requires !IsDocument(assign, b.collection) && b.engine == assign(b.collection) && a.name == b.name
    ensures Enabled(env, assign, sys, BuildStored(b, [])) && !NameIsFree(sys, BuildStored(b, []))
    ensures var next := Next(env, assign, sys, BuildStored(b, []));
      && IsCurrent(next.cells)
      && Seen(next.cells, a.Key()) == Some(DefCell(a)) && Seen(next.cells, b.Key()) == Some(DefCell(b))
  {
    hide Inv;
    hide Installed;
    hide ApplyAll;
    hide Mirrors;
    hide TwoViews;
    hide Agrees;
    hide CollectionOf;
    assert ListsAll([], sys.rows, b.collection);
    BuiltMemory(env, assign, sys, b, []);
    var next := Next(env, assign, sys, BuildStored(b, []));
    OtherStaysShown(env, assign, sys, Collected(Installed(env, Collecting(sys.s), b, [])), b, map[], a);
    DirectDefShown(env, assign, next, map[], b);
    assert Bare(sys.cells).At(a.Key()) == Some(DefCell(a));
  }

  /** The program accepts the run. At its end storage holds two definitions of
      one name, and the catalog loaded from it does not show what is stored. */
  lemma DroppedNameDiverges(env: Env, assign: Assignment, a: IndexDef, b: IndexDef)
    requires IsDocument(assign, a.collection) && a.engine == DocumentRows && a.name == b.name
    requires !IsDocument(assign, b.collection) && b.engine == assign(b.collection)
    ensures Legal(env, assign, Start(), DropAndReuse(a, b))
    ensures var sys := End(env, assign, Start(), DropAndReuse(a, b));
      && Seen(sys.cells, a.Key()) == Some(DefCell(a)) && Seen(sys.cells, b.Key()) == Some(DefCell(b))
      && !Mirrors(sys.cells, sys.s)
  {
    hide Inv;
    hide Enabled;
    hide Legal;
    hide End;
    hide Start;
    hide Mirrors;
    hide NameIsFree;
    var flush := [Stage, Commit, Acknowledge];
    BuildsFirst(env, assign, a);
    OneStep(env, assign, Start(), BuildIndex(a, []));
    var built := End(env, assign, Start(), [BuildIndex(a, [])]);
    FlushCatchesUp(env, assign, built);
    FlushKeepsDefs(env, assign, built);
    RunsJoin(env, assign, Start(), [BuildIndex(a, [])], flush);
    var flushed := End(env, assign, Start(), [BuildIndex(a, [])] + flush);
    DropsFlushed(env, assign, flushed, a);
    OneStep(env, assign, flushed, DropIndex(a.name));
    RunsJoin(env, assign, Start(), [BuildIndex(a, [])] + flush, [DropIndex(a.name)]);
    var dropped := Next(env, assign, flushed, DropIndex(a.name));
    hide Next;
    ReusesName(env, assign, dropped, a, b);
    OneStep(env, assign, dropped, BuildStored(b, []));
    RunsJoin(env, assign, Start(), [BuildIndex(a, [])] + flush + [DropIndex(a.name)], [BuildStored(b, [])]);
    var reused := Next(env, assign, dropped, BuildStored(b, []));
    ReopensAs(env, assign, reused);
    OneStep(env, assign, reused, Reopen);
    RunsJoin(env, assign, Start(), [BuildIndex(a, [])] + flush + [DropIndex(a.name)] + [BuildStored(b, [])], [Reopen]);
    TwoOfOneName(reused.cells, a, b);
  }

  lemma ReopensAs(env: Env, assign: Assignment, sys: System)
    ensures Enabled(env, assign, sys, Reopen)
    ensures Next(env, assign, sys, Reopen).s == Loaded(sys.cells) && Next(env, assign, sys, Reopen).cells == sys.cells
  {
    hide Loaded;
  }

  // ── Documents converted to rows before a flush ────────────────────────────

  function One(): Text {
    AsciiIsValid([0x31]);
    [0x31]
  }

  function ThirtyOne(): Text {
    AsciiIsValid([0x33, 0x31]);
    [0x33, 0x31]
  }

  /** The row converted from document `1` is keyed by the byte of `1`, and its
      document id is that byte in hex. */
  lemma HexOfOne()
    ensures DocIdOfKey(One()) == ThirtyOne()
  {
    assert DocIdOfKey([0x31][1..]) == [];
  }

  /** Both documents hold `row`. */
  function TwoDocuments(collection: Ident, row: Value): Rows {
    map[(collection, One()) := row, (collection, ThirtyOne()) := row]
  }

  lemma ReturnedRowDiverges(env: Env, assign: Assignment, def: IndexDef, row: Value, engine: Engine)
    requires IsDocument(assign, def.collection) && def.engine == DocumentRows && engine != DocumentRows
    requires EncodedValues(env, def, row) != {}
    ensures Legal(env, assign, Start(), BuildWriteFlushReopen(def, [One(), ThirtyOne()], TwoDocuments(def.collection, row)))
    ensures var sys := End(env, assign, Start(), BuildWriteFlushReopen(def, [One(), ThirtyOne()], TwoDocuments(def.collection, row)));
      var moved := Ddl.ChangeAll(sys.s, Ddl.Move(engine), [def]);
      var cells := ApplyAll(sys.cells, moved.ops);
      var t := SettleImages(env, Collecting(moved.state), engine, [RowImage(def.collection, ThirtyOne(), Some(row))]);
      Mirrors(cells, moved.state) && !Mirrors(ApplyAll(cells, Collected(t)), Closed(t))
  {
    hide Legal;
    hide End;
    hide Start;
    hide Inv;
    hide Mirrors;
    hide EntryKeys;
    hide EncodedValues;
    hide SettleImages;
    hide Ddl.ChangeAll;
    var rows := TwoDocuments(def.collection, row);
    FlushedRowsSurvive(env, assign, def, [One(), ThirtyOne()], rows);
    var sys := End(env, assign, Start(), BuildWriteFlushReopen(def, [One(), ThirtyOne()], rows));
    var e :| e in EncodedValues(env, def, row);
    var k := EntryKey(def.EntryPrefix(), e, ThirtyOne());
    EncodedValuesAreEncoded(env, def, row, e);
    EntryParses(def.collection, def.name, e, ThirtyOne());
    EntryKeysParse(env, def, ThirtyOne(), row, k);
    assert rows[(def.collection, ThirtyOne())] == row;
    MemoryFacts(env, assign, sys);
    RowReturns(env, sys.cells, sys.s, def, row, engine, k);
  }

  /** Documents `1` and `31` share an indexed value. Moving their index to
      another engine clears both entries, and writing document `1` as a row gives
      back the entry of document `31`, whose deletion still waits. The move keeps
      memory and storage in step, the write does not. */
  lemma ConvertedRowDiverges(env: Env, assign: Assignment, def: IndexDef, row: Value, engine: Engine, id: Text)
    requires IsDocument(assign, def.collection) && def.engine == DocumentRows && engine != DocumentRows
    requires id == DocIdOfKey(One()) && EncodedValues(env, def, row) != {}
    ensures Legal(env, assign, Start(), BuildWriteFlushReopen(def, [One(), ThirtyOne()], TwoDocuments(def.collection, row)))
    ensures var sys := End(env, assign, Start(), BuildWriteFlushReopen(def, [One(), ThirtyOne()], TwoDocuments(def.collection, row)));
      var moved := Ddl.ChangeAll(sys.s, Ddl.Move(engine), [def]);
      var cells := ApplyAll(sys.cells, moved.ops);
      var t := SettleImages(env, Collecting(moved.state), engine, [RowImage(def.collection, id, Some(row))]);
      Mirrors(cells, moved.state) && !Mirrors(ApplyAll(cells, Collected(t)), Closed(t))
  {
    hide *;
    HexOfOne();
    ReturnedRowDiverges(env, assign, def, row, engine);
  }

  lemma MemoryFacts(env: Env, assign: Assignment, sys: System)
    requires Inv(env, assign, sys)
    ensures Ddl.Ready(sys.s) && Mirrors(sys.cells, sys.s)
  {
    hide Sound;
    hide Mirrors;
    hide TwoViews;
    hide Agrees;
    hide CollectionOf;
  }

  lemma RowReturns(env: Env, cells: Cells, s: State, def: IndexDef, row: Value, engine: Engine, k: Bytes)
    requires Ddl.Ready(s) && Mirrors(cells, s) && s.dirty == map[] && def.name in s.defs && s.defs[def.name] == def
    requires def.engine == DocumentRows && engine != DocumentRows
    requires k in s.entries && k in EntryKeys(env, def, ThirtyOne(), row) && RefOf(k) == Some((def.collection, ThirtyOne()))
    requires StartsWith(k, def.EntryPrefix())
    ensures var moved := Ddl.ChangeAll(s, Ddl.Move(engine), [def]);
      var after := ApplyAll(cells, moved.ops);
      var t := SettleImages(env, Collecting(moved.state), engine, [RowImage(def.collection, ThirtyOne(), Some(row))]);
      Mirrors(after, moved.state) && !Mirrors(ApplyAll(after, Collected(t)), Closed(t))
  {
    hide Mirrors;
    hide TwoViews;
    hide EntryKeys;
    hide SettleImages;
    hide Ddl.ChangeAll;
    hide RefOf;
    hide StartsWith;
    var defs, images := [def], [RowImage(def.collection, ThirtyOne(), Some(row))];
    var moved := Ddl.ChangeAll(s, Ddl.Move(engine), defs);
    assert def in defs;
    Ddl.MoveMirrorsIff(cells, s, engine, defs);
    Pending.MoveShows(s, engine, defs, k);
    assert Ddl.Selected(defs, k);
    Pending.EntryIsNoDefKey(defs, k);
    Pending.MoveMarks(s, engine, defs, k);
    Ddl.MovedIsDeclared(s, engine, defs, def);
    Pending.EngineIsNoMatter(env, def, engine, ThirtyOne(), row);
    HeldIsListed(moved.state, k);
    GivenBack(env, moved.state, def.(engine := engine), images, row, k);
    RowsMirrorIff(env, ApplyAll(cells, moved.ops), moved.state, engine, images, map[]);
  }

  lemma GivenBack(env: Env, s: State, def: IndexDef, images: seq<RowImage>, row: Value, k: Bytes)
    requires def.name in s.defs && s.defs[def.name] == def && images == [RowImage(def.collection, ThirtyOne(), Some(row))]
    requires RefOf(k) == Some((def.collection, ThirtyOne())) && k in EntryKeys(env, def, ThirtyOne(), row)
    requires k in s.dirty && k !in Held(s, (def.collection, ThirtyOne()))
    ensures !MarkedEntriesStay(env, s, def.engine, images, map[])
  {
    hide EntryKeys;
    hide RefOf;
    var ref := (def.collection, ThirtyOne());
    assert images[0].Ref() == ref && images[..0] == [];
    assert Touches(images, ref);
    assert RowOf(ApplyImages(map[], images), ref) == Some(row);
    assert def.name in DefsOn(s.defs, ref.0, def.engine);
    assert k in LastKeys(env, s, def.engine, images, map[], ref);
  }

  // ── A crash between a move and its flush ──────────────────────────────────

  /** Documents flushed and their index moved to another engine: a crash before
      the next flush brings their entries back under the moved definition, for
      rows the engine does not have. */
  lemma MovedDocumentsCrash(env: Env, assign: Assignment, def: IndexDef, ids: seq<Text>, rows: Rows, engine: Engine, ref: DocRef, k: Bytes)
    requires IsDocument(assign, def.collection) && def.engine == DocumentRows && engine != DocumentRows
    requires RowsOf(rows, def.collection, ids) && ref in rows && k in EntryKeys(env, def, ref.1, rows[ref])
    ensures Legal(env, assign, Start(), BuildWriteFlushReopen(def, ids, rows))
    ensures var sys := End(env, assign, Start(), BuildWriteFlushReopen(def, ids, rows));
      var t, there := Loaded(Moves.Moved(sys, engine, [def])), Moves.CrashRows(assign, sys.stored, def.collection, engine);
      && def.name in t.defs && t.defs[def.name] == def.(engine := engine)
      && k in t.entries && ref !in there && !Agrees(env, t, there)
  {
    hide Legal;
    hide End;
    hide Start;
    hide Inv;
    hide EntryKeys;
    FlushedRowsSurvive(env, assign, def, ids, rows);
    var sys := End(env, assign, Start(), BuildWriteFlushReopen(def, ids, rows));
    EntryKeysParse(env, def, ref.1, rows[ref], k);
    FlushedMoveLoads(env, assign, sys, def, engine, k);
    assert !AgreesOn(env, Loaded(Moves.Moved(sys, engine, [def])), Moves.CrashRows(assign, sys.stored, def.collection, engine), k);
  }

  lemma FlushedMoveLoads(env: Env, assign: Assignment, sys: System, def: IndexDef, engine: Engine, k: Bytes)
    requires Inv(env, assign, sys) && sys.s.dirty == map[] && sys.s.defs == map[def.name := def] && IsDocument(assign, def.collection)
    requires engine != DocumentRows && k in sys.s.entries && RefOf(k).Some?
    ensures var t := Loaded(Moves.Moved(sys, engine, [def]));
      && def.name in t.defs && t.defs[def.name] == def.(engine := engine) && k in t.entries
  {
    hide Inv;
    hide Loaded;
    hide Moves.Moved;
    hide Moves.DefsReady;
    hide RefOf;
    assert Moves.IndexesOf(sys.s, def.collection, [def]);
    hide Moves.IndexesOf;
    assert def in [def];
    Moves.FlushedIsReady(env, assign, sys, def.collection, [def]);
    Moves.RenamedLoads(env, assign, sys, def.collection, engine, [def], def, k);
    FlushedIsSeen(env, assign, sys, k);
    Moves.StaysStored(env, assign, sys, def.collection, engine, [def], k);
  }

  lemma FlushedIsSeen(env: Env, assign: Assignment, sys: System, k: Bytes)
    requires Inv(env, assign, sys) && sys.s.dirty == map[] && k in sys.s.entries
    ensures Seen(sys.cells, k) == Some(EntryCell)
  {
    hide Sound;
    hide Agrees;
    hide CollectionOf;
    Ddl.EntryIsTold(sys.s, k);
    hide TwoViews;
    hide Told;
    assert Shown(sys.cells, sys.s, k) == Told(sys.s, k);
  }

  /** A strict or key-value index and one row of it. */
  function StoreOneRow(def: IndexDef, id: Text, row: Value): seq<Step> {
    [BuildStored(def, [])] + [StoreRows([RowImage(def.collection, id, Some(row))])]
  }

  lemma StoresFirst(env: Env, assign: Assignment, def: IndexDef)
    requires !IsDocument(assign, def.collection) && def.engine == assign(def.collection)
    ensures Enabled(env, assign, Start(), BuildStored(def, []))
    ensures var sys := Next(env, assign, Start(), BuildStored(def, []));
      Inv(env, assign, sys) && sys.s.defs == map[def.name := def] && sys.rows == map[] && sys.stored == map[]
  {
    hide Inv;
    hide Loaded;
    hide Installed;
    LoadedFresh();
    StartIsSound(env, assign);
    assert Start().s == EMPTY;
    StartHoldsNoDef();
    StepKeepsInv(env, assign, Start(), BuildStored(def, []));
    assert TwoViews(EMPTY);
    SinkIsIgnored(EMPTY, Some([]));
    InstalledShows(env, Collecting(EMPTY), def, [], FormatKey());
  }

  lemma StartHoldsNoDef()
    ensures Start().flight == None && forall d: IndexDef :: Seen(Start().cells, d.Key()) == None
  {
    hide Loaded;
    var none: Cells := map[];
    PrefixScanExact(none.Keys, DefsPrefix());
    PrefixScanExact(none.Keys, EntriesPrefix());
    assert Under(none.Keys, DefsPrefix()) == {} && Under(none.Keys, EntriesPrefix()) == {};
    hide PrefixScan;
    forall d: IndexDef ensures Seen(Start().cells, d.Key()) == None { DefKeyIsNoEntry(d); }
  }

  lemma ThenStores(env: Env, assign: Assignment, sys: System, def: IndexDef, id: Text, row: Value)
    requires Inv(env, assign, sys) && sys.s.defs == map[def.name := def] && sys.rows == map[] && sys.stored == map[]
    requires !IsDocument(assign, def.collection) && def.engine == assign(def.collection)
    ensures var step := StoreRows([RowImage(def.collection, id, Some(row))]);
      && Enabled(env, assign, sys, step)
      && var next := Next(env, assign, sys, step);
      && Inv(env, assign, next) && next.s.defs == map[def.name := def]
      && next.rows == map[(def.collection, id) := row] && next.stored == map[(def.collection, id) := row]
  {
    hide Inv;
    hide SettleImages;
    var image := RowImage(def.collection, id, Some(row));
    assert ImagesOn([image], assign, def.engine);
    assert [image][..0] == [];
    var none: Rows := map[];
    assert ApplyImages(none, [image][..0]) == none && ApplyImages(none, [image]) == ApplyImage(none, image);
    assert ApplyImage(none, image) == map[(def.collection, id) := row];
    StepKeepsInv(env, assign, sys, StoreRows([image]));
  }

  lemma StoresOneRow(env: Env, assign: Assignment, def: IndexDef, id: Text, row: Value)
    requires !IsDocument(assign, def.collection) && def.engine == assign(def.collection)
    ensures Legal(env, assign, Start(), StoreOneRow(def, id, row))
    ensures var sys := End(env, assign, Start(), StoreOneRow(def, id, row));
      && Inv(env, assign, sys) && sys.s.defs == map[def.name := def]
      && sys.rows == map[(def.collection, id) := row] && sys.stored == map[(def.collection, id) := row]
  {
    hide Legal;
    hide End;
    hide Start;
    hide Inv;
    hide Enabled;
    hide Next;
    var (build, store) := (BuildStored(def, []), StoreRows([RowImage(def.collection, id, Some(row))]));
    StoresFirst(env, assign, def);
    OneStep(env, assign, Start(), build);
    var built := Next(env, assign, Start(), build);
    ThenStores(env, assign, built, def, id, row);
    OneStep(env, assign, built, store);
    RunsJoin(env, assign, Start(), [build], [store]);
  }

  /** A stored row and its index moved to documents: the entries go from storage
      at once, the definition only with the flush. A crash in between leaves the
      index over its row without an entry, and opening does not build it again. */
  lemma MovedRowsCrash(env: Env, assign: Assignment, def: IndexDef, id: Text, row: Value, k: Bytes)
    requires !IsDocument(assign, def.collection) && def.engine == assign(def.collection) && k in EntryKeys(env, def, id, row)
    ensures Legal(env, assign, Start(), StoreOneRow(def, id, row))
    ensures var sys := End(env, assign, Start(), StoreOneRow(def, id, row));
      var t := Loaded(Moves.Moved(sys, DocumentRows, [def]));
      && sys.stored == map[(def.collection, id) := row] && Seen(sys.cells, k) == Some(EntryCell)
      && def.name in t.defs && t.defs[def.name] == def && k !in t.entries && !Agrees(env, t, sys.stored)
  {
    hide *;
    StoresOneRow(env, assign, def, id, row);
    MovedRowCrashes(env, assign, End(env, assign, Start(), StoreOneRow(def, id, row)), def, id, row, k);
  }

  lemma MovedRowCrashes(env: Env, assign: Assignment, sys: System, def: IndexDef, id: Text, row: Value, k: Bytes)
    requires Inv(env, assign, sys) && sys.s.defs == map[def.name := def] && !IsDocument(assign, def.collection)
    requires sys.rows == sys.stored == map[(def.collection, id) := row] && k in EntryKeys(env, def, id, row)
    ensures var t := Loaded(Moves.Moved(sys, DocumentRows, [def]));
      && Seen(sys.cells, k) == Some(EntryCell)
      && def.name in t.defs && t.defs[def.name] == def && k !in t.entries && !Agrees(env, t, sys.stored)
  {
    hide Inv;
    hide EntryKeys;
    hide Loaded;
    hide Moves.Moved;
    hide Agrees;
    hide AgreesOn;
    hide RefOf;
    EntryRef(env, def, id, row, k);
    MemoryAgrees(env, assign, sys, k);
    ImpliedHere(env, sys.s, sys.rows, def, id, row, k);
    assert Moves.IndexesOf(sys.s, def.collection, [def]);
    hide Moves.IndexesOf;
    Moves.DirectEntry(env, assign, sys, def.collection, [def], k);
    DirectMoveLoads(env, assign, sys, def, k);
    ImpliedHere(env, Loaded(Moves.Moved(sys, DocumentRows, [def])), sys.stored, def, id, row, k);
    DisagreeAt(env, Loaded(Moves.Moved(sys, DocumentRows, [def])), sys.stored, k);
  }

  lemma EntryRef(env: Env, def: IndexDef, id: Text, row: Value, k: Bytes)
    requires k in EntryKeys(env, def, id, row)
    ensures RefOf(k) == Some((def.collection, id))
  {
    EntryKeysParse(env, def, id, row, k);
  }

  /** A declared index and its row imply the entry. */
  lemma ImpliedHere(env: Env, s: State, rows: Rows, def: IndexDef, id: Text, row: Value, k: Bytes)
    requires def.name in s.defs && s.defs[def.name] == def && rows == map[(def.collection, id) := row] && k in EntryKeys(env, def, id, row)
    ensures AgreesOn(env, s, rows, k) <==> k in s.entries
  {
    EntryKeysParse(env, def, id, row, k);
    hide ParseEntry;
    hide EntryKeys;
  }

  lemma DisagreeAt(env: Env, s: State, rows: Rows, k: Bytes)
    requires !AgreesOn(env, s, rows, k)
    ensures !Agrees(env, s, rows)
  {
  }

  /** No entry of the collection is loaded. */
  lemma DirectMoveLoads(env: Env, assign: Assignment, sys: System, def: IndexDef, k: Bytes)
    requires Inv(env, assign, sys) && sys.s.defs == map[def.name := def] && !IsDocument(assign, def.collection)
    requires RefOf(k).Some? && RefOf(k).value.0 == def.collection
    ensures var t := Loaded(Moves.Moved(sys, DocumentRows, [def]));
      def.name in t.defs && t.defs[def.name] == def && k !in t.entries
  {
    hide Inv;
    hide Loaded;
    hide Moves.Moved;
    assert Moves.IndexesOf(sys.s, def.collection, [def]);
    hide Moves.IndexesOf;
    Moves.DirectDef(env, assign, sys, def);
    Moves.KeptLoads(env, assign, sys, def.collection, DocumentRows, [def], def, k);
    Moves.KeptCell(env, assign, sys, def.collection, DocumentRows, [def], k);
  }

  /** So a second row with the same value passes the unique check. */
  lemma MovedRowsTakenTwice(env: Env, assign: Assignment, def: IndexDef, id: Text, other: Text, row: Value, v: Value)
    requires !IsDocument(assign, def.collection) && def.engine == assign(def.collection)
    requires id != other && v in IndexValues(env, def, row) && env.eq(v, v)
    ensures Legal(env, assign, Start(), StoreOneRow(def, id, row))
    ensures var sys := End(env, assign, Start(), StoreOneRow(def, id, row));
      var t, writes := Loaded(Moves.Moved(sys, DocumentRows, [def])), [(other, Some(row))];
      && Unique.AcceptedBy(env, t, def, writes, sys.stored)
      && !Unique.UniqueIn(env, def, Unique.ApplyWrites(sys.stored, def.collection, writes))
  {
    hide Legal;
    hide End;
    hide Start;
    hide Inv;
    hide Loaded;
    hide Moves.Moved;
    hide EncodeCoercible;
    StoresOneRow(env, assign, def, id, row);
    var sys := End(env, assign, Start(), StoreOneRow(def, id, row));
    var t, writes: seq<Unique.RowWrite> := Loaded(Moves.Moved(sys, DocumentRows, [def])), [(other, Some(row))];
    forall value, o ensures !Unique.Candidate(env, t, def, writes, value, o) {
      forall e | e in EncodeCoercible(env, value) ensures EntryKey(def.EntryPrefix(), e, o) !in t.entries {
        CoercibleKeyParses(env, def, value, e, o);
        DirectMoveLoads(env, assign, sys, def, EntryKey(def.EntryPrefix(), e, o));
      }
    }
    TakenTwice(env, def, id, other, row, v, sys.stored);
  }

  lemma CoercibleKeyParses(env: Env, def: IndexDef, value: Value, e: Bytes, o: Text)
    requires e in EncodeCoercible(env, value)
    ensures RefOf(EntryKey(def.EntryPrefix(), e, o)) == Some((def.collection, o))
  {
    hide ParseEntry;
    hide EncodeCoercible;
    var _ := KeyHasForm(env, value, e);
    EntryParses(def.collection, def.name, e, o);
  }

  lemma TakenTwice(env: Env, def: IndexDef, id: Text, other: Text, row: Value, v: Value, stored: Rows)
    requires id != other && v in IndexValues(env, def, row) && env.eq(v, v) && stored == map[(def.collection, id) := row]
    ensures !Unique.UniqueIn(env, def, Unique.ApplyWrites(stored, def.collection, [(other, Some(row))]))
  {
    var writes: seq<Unique.RowWrite> := [(other, Some(row))];
    assert writes[..0] == [];
    var rows := Unique.ApplyWrites(stored, def.collection, writes);
    assert rows == Unique.ApplyWrites(stored, def.collection, writes[..0])[(def.collection, other) := row];
    assert Unique.ApplyWrites(stored, def.collection, writes[..0]) == stored;
    assert Unique.Collide(env, def, row, row);
    assert (def.collection, id) in rows && (def.collection, other) in rows && rows[(def.collection, id)] == row;
  }

  lemma MemoryAgrees(env: Env, assign: Assignment, sys: System, k: Bytes)
    requires Inv(env, assign, sys)
    ensures AgreesOn(env, sys.s, sys.rows, k)
  {
    hide Sound;
    hide Mirrors;
    hide TwoViews;
    hide CollectionOf;
    hide AgreesOn;
  }
}
