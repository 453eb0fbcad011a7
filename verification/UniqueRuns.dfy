/** Uniqueness over whole runs: when every row write passes the unique check and
    every unique build finds no two rows sharing a value, no unique index ever
    holds a value twice, in memory, in a staged flush, in storage or after a
    crash. */
module UniqueRuns {
  import opened Options
  import opened ByteOrder
  import opened Utf8
  import opened Key
  import opened Document
  import opened Store
  import opened Maintain
  import opened Install
  import opened Views
  import opened Traces
  import opened Durable
  import opened Unique
  import opened Runs
  import Ddl

  /** The rows after the step are those a write that passed the check gives. */
  ghost predicate PassedWrite(env: Env, sys: System, collection: Ident, rows: Rows, writes: seq<RowWrite>) {
    rows == ApplyWrites(sys.rows, collection, writes) && Accepted(env, sys.s, collection, DocumentRows, writes, sys.rows)
  }

  /** The step passed the checks the program makes before it. */
  ghost predicate Passed(env: Env, assign: Assignment, sys: System, step: Step)
    requires Enabled(env, assign, sys, step)
  {
    match step
    case WriteRows(collection, _, rows) => exists writes :: PassedWrite(env, sys, collection, rows, writes)
    case BuildIndex(def, listed) => !(def.unique && ClashListed(env, def, listed))
    case BuildStored(def, listed) => !(def.unique && ClashListed(env, def, listed))
    case StoreRows(images) => AcceptedImages(env, sys.s, EngineOf(images, assign), images, sys.rows)
    case _ => true
  }

  /** Every unique index among `defs` holds each value once. */
  ghost predicate AllUnique(env: Env, defs: map<Ident, IndexDef>, rows: Rows) {
    forall n :: n in defs && defs[n].unique ==> UniqueIn(env, defs[n], rows)
  }

  /** Every unique index the view shows holds each value once. */
  ghost predicate ShownUnique(env: Env, v: View, rows: Rows) {
    forall d: IndexDef :: v.At(d.Key()) == Some(DefCell(d)) && d.unique ==> UniqueIn(env, d, rows)
  }

  ghost predicate EverywhereUnique(env: Env, assign: Assignment, sys: System) {
    && AllUnique(env, sys.s.defs, sys.rows)
    && ShownUnique(env, Bare(sys.cells), sys.stored)
    && (sys.flight.Some? && !sys.flight.value.committed ==>
          ShownUnique(env, View(sys.cells, sys.flight.value.marks), Merge(assign, sys.flight.value.rows, sys.rows)))
  }

  // ── Uniqueness of one index depends on its collection's rows only ─────────

  ghost predicate SameRows(a: Rows, b: Rows, collection: Ident) {
    forall ref: DocRef :: ref.0 == collection ==> RowOf(a, ref) == RowOf(b, ref)
  }

  lemma UniqueElsewhere(env: Env, def: IndexDef, rows: Rows, later: Rows)
    requires UniqueIn(env, def, rows) && SameRows(rows, later, def.collection)
    ensures UniqueIn(env, def, later)
  {
    hide Collide;
    forall a, b | a in later && b in later && a.0 == def.collection && b.0 == def.collection && a != b
      ensures !Collide(env, def, later[a], later[b])
    {
      assert RowOf(rows, a) == RowOf(later, a) && RowOf(rows, b) == RowOf(later, b);
    }
  }

  lemma ShownElsewhere(env: Env, v: View, w: View, rows: Rows, later: Rows)
    requires ShownUnique(env, v, rows) && SameView(v, w) && forall ref: DocRef :: RowOf(rows, ref) == RowOf(later, ref)
    ensures ShownUnique(env, w, later)
  {
    hide UniqueIn;
    forall d: IndexDef | w.At(d.Key()) == Some(DefCell(d)) && d.unique ensures UniqueIn(env, d, later) {
      assert v.At(d.Key()) == w.At(d.Key());
      UniqueElsewhere(env, d, rows, later);
    }
  }

  // ── Changes left for the flush ────────────────────────────────────────────

  /** A document step leaves storage and the staged flush alone. */
  lemma DocumentUnique(env: Env, assign: Assignment, sys: System, t: State, rows: Rows)
    requires EverywhereUnique(env, assign, sys) && AllUnique(env, t.defs, rows)
    requires forall ref: DocRef :: !IsDocument(assign, ref.0) ==> RowOf(rows, ref) == RowOf(sys.rows, ref)
    ensures EverywhereUnique(env, assign, sys.(s := t, rows := rows))
  {
    hide UniqueIn;
    if sys.flight.Some? && !sys.flight.value.committed {
      var f := sys.flight.value;
      forall ref ensures RowOf(Merge(assign, f.rows, sys.rows), ref) == RowOf(Merge(assign, f.rows, rows), ref) {
        MergeRow(assign, f.rows, sys.rows, ref);
        MergeRow(assign, f.rows, rows, ref);
      }
      ShownElsewhere(env, View(sys.cells, f.marks), View(sys.cells, f.marks),
                     Merge(assign, f.rows, sys.rows), Merge(assign, f.rows, rows));
    }
  }

  /** An accepted write keeps each unique index unique, on its own collection by
      the check and on others because their rows stay. */
  lemma AcceptedKeeps(env: Env, assign: Assignment, sys: System, collection: Ident, engine: Engine, writes: seq<RowWrite>, def: IndexDef)
    requires Lawful(env) && MemoryOk(env, assign, sys) && assign(collection) == engine
    requires Accepted(env, sys.s, collection, engine, writes, sys.rows)
    requires def.name in sys.s.defs && sys.s.defs[def.name] == def && def.unique && def.collection == collection
    requires UniqueIn(env, def, sys.rows)
    ensures UniqueIn(env, def, ApplyWrites(sys.rows, collection, writes))
  {
    assert def.name in DefsOn(sys.s.defs, collection, engine);
    var later := ApplyWrites(sys.rows, collection, writes);
    assert LiveRows(sys.s, sys.rows) == sys.rows && LiveRows(sys.s, later) == later;
    assert AgreesOutside(env, sys.s, sys.rows, collection, writes);
    hide AcceptedBy;
    hide UniqueIn;
    hide TwoViews;
    hide Mirrors;
    hide CollectionOf;
    AcceptedKeepsUnique(env, sys.s, def, writes, sys.rows);
  }

  lemma WriteRowsUnique(env: Env, assign: Assignment, sys: System, step: Step)
    requires Lawful(env) && Inv(env, assign, sys) && EverywhereUnique(env, assign, sys)
    requires step.WriteRows? && Enabled(env, assign, sys, step) && Passed(env, assign, sys, step)
    ensures EverywhereUnique(env, assign, Next(env, assign, sys, step))
  {
    var (c, ids, rows) := (step.collection, step.ids, step.rows);
    var writes :| PassedWrite(env, sys, c, rows, writes);
    var t := Resync(env, sys.s, c, ids, rows);
    assert t.defs == sys.s.defs;
    hide Resync;
    hide Inv;
    hide UniqueIn;
    forall n | n in t.defs && t.defs[n].unique ensures UniqueIn(env, t.defs[n], rows) {
      MemoryIsOk(env, assign, sys);
      hide MemoryOk;
      NameIsKey(env, assign, sys, n);
      if t.defs[n].collection == c {
        AcceptedKeeps(env, assign, sys, c, DocumentRows, writes, t.defs[n]);
      } else {
        assert SameRows(sys.rows, rows, t.defs[n].collection);
        UniqueElsewhere(env, t.defs[n], sys.rows, rows);
      }
    }
    DocumentUnique(env, assign, sys, t, rows);
  }

  lemma MemoryIsOk(env: Env, assign: Assignment, sys: System)
    requires Inv(env, assign, sys)
    ensures MemoryOk(env, assign, sys)
  {
  }

  /** What the steps below need of the invariant. */
  lemma InvGives(env: Env, assign: Assignment, sys: System)
    requires Inv(env, assign, sys)
    ensures TwoViews(sys.s) && sys.s.sink.None? && TwoViews(Collecting(sys.s))
    ensures DirectRowsStored(assign, sys.rows, sys.stored)
    ensures IsCurrent(sys.cells) && forall k :: KeyedOn(Bare(sys.cells), assign, k)
  {
    SinkDoesNotMatter(env, sys.s, sys.rows);
    hide TwoViews;
    hide Mirrors;
    hide Agrees;
    hide DirectRowsStored;
    hide KeyedOn;
    hide OneName;
    hide FaithfulOn;
    hide FlightOk;
  }

  lemma NameIsKey(env: Env, assign: Assignment, sys: System, n: Ident)
    requires MemoryOk(env, assign, sys) && n in sys.s.defs
    ensures sys.s.defs[n].name == n
  {
  }

  lemma ClearRowsUnique(env: Env, assign: Assignment, sys: System, step: Step)
    requires Inv(env, assign, sys) && EverywhereUnique(env, assign, sys)
    requires step.ClearRows? && Enabled(env, assign, sys, step)
    ensures EverywhereUnique(env, assign, Next(env, assign, sys, step))
  {
    var c := step.collection;
    var rows := Ddl.WithoutCollection(sys.rows, c);
    hide TwoViews;
    Ddl.ClearEachShows(sys.s, Ddl.DocumentDefs(sys.s, c), FormatKey());
    hide Inv;
    hide Ddl.ClearEach;
    hide Ddl.DocumentDefs;
    hide Collide;
    forall n | n in sys.s.defs && sys.s.defs[n].unique ensures UniqueIn(env, sys.s.defs[n], rows) {
      assert UniqueIn(env, sys.s.defs[n], sys.rows);
    }
    DocumentUnique(env, assign, sys, Ddl.ClearDocuments(sys.s, c), rows);
  }

  /** A build that was not refused finds its index unique. */
  lemma InstalledUnique(env: Env, s: State, def: IndexDef, listed: seq<Listed>, rows: Rows)
    requires Lawful(env) && ListsAll(listed, rows, def.collection) && !(def.unique && ClashListed(env, def, listed))
    requires AllUnique(env, s.defs, rows)
    ensures AllUnique(env, s.defs[def.name := def], rows)
  {
    hide ListsAll;
    hide ClashListed;
    hide UniqueIn;
    BuildRefusedIff(env, def, listed, rows);
  }

  lemma BuildIndexUnique(env: Env, assign: Assignment, sys: System, step: Step)
    requires Lawful(env) && Inv(env, assign, sys) && EverywhereUnique(env, assign, sys)
    requires step.BuildIndex? && Enabled(env, assign, sys, step) && Passed(env, assign, sys, step)
    ensures EverywhereUnique(env, assign, Next(env, assign, sys, step))
  {
    hide ListsAll;
    hide ClashListed;
    hide UniqueIn;
    hide Installed;
    hide TwoViews;
    InstalledShows(env, sys.s, step.def, step.listed, FormatKey());
    hide Inv;
    InstalledUnique(env, sys.s, step.def, step.listed, sys.rows);
    DocumentUnique(env, assign, sys, Installed(env, sys.s, step.def, step.listed), sys.rows);
  }

  lemma DropIndexUnique(env: Env, assign: Assignment, sys: System, step: Step)
    requires Inv(env, assign, sys) && EverywhereUnique(env, assign, sys)
    requires step.DropIndex? && Enabled(env, assign, sys, step)
    ensures EverywhereUnique(env, assign, Next(env, assign, sys, step))
  {
    hide UniqueIn;
    hide RemoveDef;
    hide TwoViews;
    RemoveDefRemoves(sys.s, step.name);
    hide Inv;
    DocumentUnique(env, assign, sys, RemoveDef(sys.s, step.name), sys.rows);
  }

  // ── The flush and the crash ───────────────────────────────────────────────

  /** What memory shows over storage is what memory holds. */
  lemma MemoryShown(env: Env, assign: Assignment, sys: System)
    requires MemoryOk(env, assign, sys) && AllUnique(env, sys.s.defs, sys.rows)
    ensures ShownUnique(env, View(sys.cells, sys.s.dirty), sys.rows)
  {
    hide UniqueIn;
    hide Mirrors;
    hide TwoViews;
    hide CollectionOf;
    forall d: IndexDef | View(sys.cells, sys.s.dirty).At(d.Key()) == Some(DefCell(d)) && d.unique
      ensures UniqueIn(env, d, sys.rows)
    {
      StateNamesOnce(sys.cells, sys.s, d);
    }
  }

  lemma StageUnique(env: Env, assign: Assignment, sys: System)
    requires Inv(env, assign, sys) && EverywhereUnique(env, assign, sys) && Enabled(env, assign, sys, Stage)
    ensures EverywhereUnique(env, assign, Next(env, assign, sys, Stage))
  {
    hide UniqueIn;
    MemoryIsOk(env, assign, sys);
    hide Inv;
    MemoryShown(env, assign, sys);
    hide MemoryOk;
    forall ref ensures RowOf(sys.rows, ref) == RowOf(Merge(assign, sys.rows, sys.rows), ref) {
      MergeRow(assign, sys.rows, sys.rows, ref);
    }
    var v := View(sys.cells, sys.s.dirty);
    ShownElsewhere(env, v, v, sys.rows, Merge(assign, sys.rows, sys.rows));
  }

  lemma CommitUnique(env: Env, assign: Assignment, sys: System)
    requires Inv(env, assign, sys) && EverywhereUnique(env, assign, sys) && Enabled(env, assign, sys, Commit)
    ensures EverywhereUnique(env, assign, Next(env, assign, sys, Commit))
  {
    var f := sys.flight.value;
    var cells, stored := Written(sys.cells, f.marks), Merge(assign, f.rows, sys.stored);
    assert DirectRowsStored(assign, sys.rows, sys.stored);
    hide Inv;
    hide UniqueIn;
    forall k ensures Bare(cells).At(k) == View(sys.cells, f.marks).At(k) {
      WrittenShows(sys.cells, f.marks, k);
    }
    forall ref ensures RowOf(Merge(assign, f.rows, sys.rows), ref) == RowOf(stored, ref) {
      MergeRow(assign, f.rows, sys.rows, ref);
      MergeRow(assign, f.rows, sys.stored, ref);
    }
    ShownElsewhere(env, View(sys.cells, f.marks), Bare(cells), Merge(assign, f.rows, sys.rows), stored);
  }

  lemma ReopenUnique(env: Env, assign: Assignment, sys: System)
    requires Inv(env, assign, sys) && EverywhereUnique(env, assign, sys)
    ensures EverywhereUnique(env, assign, Next(env, assign, sys, Reopen))
  {
    hide Inv;
    hide UniqueIn;
    hide KeyedOn;
    hide PrefixScan;
    hide LoadDefs;
    hide TwoViews;
    hide DirectRowsStored;
    hide Loaded;
    InvGives(env, assign, sys);
    LoadedIsTidy(assign, sys.cells);
    KeyedDefs(assign, sys.cells);
    forall n | n in Loaded(sys.cells).defs && Loaded(sys.cells).defs[n].unique
      ensures UniqueIn(env, Loaded(sys.cells).defs[n], sys.stored)
    {
      LoadedDefs(sys.cells, n);
    }
  }

  // ── Changes stored at once ────────────────────────────────────────────────

  /** One view, under a change stored at once: indexes stored directly are the
      ones memory now holds, document indexes are as they were. */
  lemma StoredShown(env: Env, assign: Assignment, next: System, v: View, w: View, before: Rows, later: Rows)
    requires MemoryOk(env, assign, next) && AllUnique(env, next.s.defs, next.rows)
    requires Spliced(assign, v, w, View(next.cells, next.s.dirty)) && ShownUnique(env, v, before)
    requires forall ref: DocRef :: IsDocument(assign, ref.0) ==> RowOf(later, ref) == RowOf(before, ref)
    requires forall ref: DocRef :: !IsDocument(assign, ref.0) ==> RowOf(later, ref) == RowOf(next.rows, ref)
    ensures ShownUnique(env, w, later)
  {
    hide UniqueIn;
    hide CollectionOf;
    MemoryShown(env, assign, next);
    hide MemoryOk;
    forall d: IndexDef | w.At(d.Key()) == Some(DefCell(d)) && d.unique ensures UniqueIn(env, d, later) {
      DefKeyCollection(d);
      if DirectKey(assign, d.Key()) {
        UniqueElsewhere(env, d, next.rows, later);
      } else {
        UniqueElsewhere(env, d, before, later);
      }
    }
  }

  ghost predicate StoredChange(assign: Assignment, sys: System, next: System, collections: set<Ident>, ops: seq<WriteOp>) {
    && next.cells == ApplyAll(sys.cells, ops) && WithinAll(ops, collections) && AllDirect(assign, collections)
    && next.flight == sys.flight
    && (forall ref: DocRef :: IsDocument(assign, ref.0) ==>
          RowOf(next.rows, ref) == RowOf(sys.rows, ref) && RowOf(next.stored, ref) == RowOf(sys.stored, ref))
    && (forall ref: DocRef :: !IsDocument(assign, ref.0) ==> RowOf(next.rows, ref) == RowOf(next.stored, ref))
  }

  lemma StoredUnique(env: Env, assign: Assignment, sys: System, next: System, collections: set<Ident>, ops: seq<WriteOp>)
    requires Inv(env, assign, sys) && Inv(env, assign, next) && StoredChange(assign, sys, next, collections, ops)
    requires EverywhereUnique(env, assign, sys) && AllUnique(env, next.s.defs, next.rows)
    ensures EverywhereUnique(env, assign, next)
  {
    hide UniqueIn;
    MarksAreDocuments(env, assign, sys);
    MarksAreDocuments(env, assign, next);
    hide Inv;
    hide DocumentKey;
    DirectSplices(assign, sys.cells, ops, collections, map[], next.s.dirty);
    StoredShown(env, assign, next, Bare(sys.cells), Bare(next.cells), sys.stored, next.stored);
    if sys.flight.Some? && !sys.flight.value.committed {
      StagedUnique(env, assign, sys, next, collections, ops);
    }
  }

  lemma MarksAreDocuments(env: Env, assign: Assignment, sys: System)
    requires Inv(env, assign, sys)
    ensures MemoryOk(env, assign, sys) && forall k :: k in sys.s.dirty ==> DocumentKey(assign, k)
    ensures sys.flight.Some? ==> forall k :: k in sys.flight.value.marks ==> DocumentKey(assign, k)
  {
    hide Sound;
    hide Mirrors;
    hide TwoViews;
    hide Agrees;
    hide DocumentKey;
  }

  lemma StagedUnique(env: Env, assign: Assignment, sys: System, next: System, collections: set<Ident>, ops: seq<WriteOp>)
    requires MemoryOk(env, assign, next) && StoredChange(assign, sys, next, collections, ops)
    requires EverywhereUnique(env, assign, sys) && AllUnique(env, next.s.defs, next.rows)
    requires sys.flight.Some? && !sys.flight.value.committed
    requires forall k :: k in sys.flight.value.marks || k in next.s.dirty ==> DocumentKey(assign, k)
    ensures ShownUnique(env, View(next.cells, next.flight.value.marks), Merge(assign, next.flight.value.rows, next.rows))
  {
    hide UniqueIn;
    hide MemoryOk;
    hide DocumentKey;
    var f := sys.flight.value;
    DirectSplices(assign, sys.cells, ops, collections, f.marks, next.s.dirty);
    hide Spliced;
    forall ref: DocRef
      ensures RowOf(Merge(assign, f.rows, next.rows), ref)
        == (if IsDocument(assign, ref.0) then RowOf(Merge(assign, f.rows, sys.rows), ref) else RowOf(next.rows, ref))
    {
      MergeRow(assign, f.rows, next.rows, ref);
      MergeRow(assign, f.rows, sys.rows, ref);
    }
    StoredShown(env, assign, next, View(sys.cells, f.marks), View(next.cells, f.marks),
                Merge(assign, f.rows, sys.rows), Merge(assign, f.rows, next.rows));
  }

  lemma CollectedWithin(s: State, t: State, collections: set<Ident>)
    requires Traced(Collecting(s), t, collections)
    ensures WithinAll(Collected(t), collections)
  {
    assert t.sink.value[0..] == t.sink.value;
  }

  lemma StoreRowsUnique(env: Env, assign: Assignment, sys: System, step: Step)
    requires Lawful(env) && Inv(env, assign, sys) && EverywhereUnique(env, assign, sys)
    requires step.StoreRows? && Enabled(env, assign, sys, step) && Passed(env, assign, sys, step)
    ensures EverywhereUnique(env, assign, Next(env, assign, sys, step))
  {
    hide Inv;
    hide TwoViews;
    hide Traced;
    hide MemoryOk;
    hide SettleImages;
    hide ApplyAll;
    hide UniqueIn;
    hide AcceptedImages;
    var images, engine := step.images, EngineOf(step.images, assign);
    var s := Collecting(sys.s);
    var t := SettleImages(env, s, engine, images);
    var next := Next(env, assign, sys, step);
    StoreRowsStep(env, assign, sys, step);
    InvGives(env, assign, sys);
    SettleImagesTraced(env, s, engine, images, CollectionsOf(images));
    CollectedWithin(sys.s, t, CollectionsOf(images));
    SettledDefs(env, s, engine, images);
    MemoryIsOk(env, assign, sys);
    forall ref: DocRef
      ensures IsDocument(assign, ref.0) ==> RowOf(next.rows, ref) == RowOf(sys.rows, ref) && RowOf(next.stored, ref) == RowOf(sys.stored, ref)
      ensures !IsDocument(assign, ref.0) ==> RowOf(next.rows, ref) == RowOf(next.stored, ref)
    {
      ImagesSpareDocuments(assign, engine, images, sys.rows, sys.stored, ref);
    }
    forall n | n in t.defs && t.defs[n].unique ensures UniqueIn(env, t.defs[n], next.rows) {
      NameIsKey(env, assign, sys, n);
      ImagesKeepUnique(env, assign, sys, engine, images, t.defs[n]);
    }
    StoredUnique(env, assign, sys, next, CollectionsOf(images), Collected(t));
  }

  lemma {:induction false} SettledDefs(env: Env, s: State, engine: Engine, images: seq<RowImage>)
    requires TwoViews(s)
    ensures SettleImages(env, s, engine, images).defs == s.defs
  {
    hide TwoViews;
    SettleImagesMoves(env, s, engine, images, map[], ([], []));
  }

  lemma ImagesKeepUnique(env: Env, assign: Assignment, sys: System, engine: Engine, images: seq<RowImage>, def: IndexDef)
    requires Lawful(env) && MemoryOk(env, assign, sys) && ImagesOn(images, assign, engine)
    requires AcceptedImages(env, sys.s, engine, images, sys.rows)
    requires def.name in sys.s.defs && sys.s.defs[def.name] == def && def.unique && UniqueIn(env, def, sys.rows)
    ensures UniqueIn(env, def, ApplyImages(sys.rows, images))
  {
    hide UniqueIn;
    hide MemoryOk;
    var c, writes := def.collection, WritesOn(images, def.collection);
    if c in CollectionsOf(images) {
      AcceptedKeeps(env, assign, sys, c, engine, writes, def);
      forall ref: DocRef | ref.0 == c ensures RowOf(ApplyWrites(sys.rows, c, writes), ref) == RowOf(ApplyImages(sys.rows, images), ref) {
        WritesOnApply(sys.rows, images, c, ref.1);
      }
      UniqueElsewhere(env, def, ApplyWrites(sys.rows, c, writes), ApplyImages(sys.rows, images));
    } else {
      forall ref: DocRef | ref.0 == c ensures RowOf(sys.rows, ref) == RowOf(ApplyImages(sys.rows, images), ref) {
        UnlistedRowStays(sys.rows, images, ref);
      }
      UniqueElsewhere(env, def, sys.rows, ApplyImages(sys.rows, images));
    }
  }

  lemma {:induction false} UnlistedRowStays(rows: Rows, images: seq<RowImage>, ref: DocRef)
    requires ref.0 !in CollectionsOf(images)
    ensures RowOf(ApplyImages(rows, images), ref) == RowOf(rows, ref)
    decreases |images|
  {
    if images != [] {
      var init := images[..|images| - 1];
      assert forall i :: 0 <= i < |init| ==> init[i] == images[i];
      assert CollectionsOf(init) <= CollectionsOf(images);
      assert images[|images| - 1].collection in CollectionsOf(images);
      UnlistedRowStays(rows, init, ref);
      ImageRow(ApplyImages(rows, init), images[|images| - 1], ref);
    }
  }

  lemma BuildStoredUnique(env: Env, assign: Assignment, sys: System, step: Step)
    requires Lawful(env) && Inv(env, assign, sys) && EverywhereUnique(env, assign, sys)
    requires step.BuildStored? && Enabled(env, assign, sys, step) && Passed(env, assign, sys, step) && NameIsFree(sys, step)
    ensures EverywhereUnique(env, assign, Next(env, assign, sys, step))
  {
    hide Inv;
    hide TwoViews;
    hide Traced;
    hide Installed;
    hide ListsAll;
    hide ClashListed;
    hide UniqueIn;
    hide ApplyAll;
    hide NameFree;
    var def, listed, s := step.def, step.listed, Collecting(sys.s);
    BuildStoredStep(env, assign, sys, step);
    InvGives(env, assign, sys);
    InstalledTraced(env, s, def, listed);
    InstalledShows(env, s, def, listed, FormatKey());
    CollectedWithin(sys.s, Installed(env, s, def, listed), {def.collection});
    InstalledUnique(env, sys.s, def, listed, sys.rows);
    StoredUnique(env, assign, sys, Next(env, assign, sys, step), {def.collection}, Collected(Installed(env, s, def, listed)));
  }

  lemma DropStoredUnique(env: Env, assign: Assignment, sys: System, step: Step)
    requires Inv(env, assign, sys) && EverywhereUnique(env, assign, sys)
    requires step.DropStored? && Enabled(env, assign, sys, step)
    ensures EverywhereUnique(env, assign, Next(env, assign, sys, step))
  {
    hide Inv;
    hide TwoViews;
    hide Traced;
    hide RemoveDef;
    hide UniqueIn;
    hide ApplyAll;
    var s, c := Collecting(sys.s), sys.s.defs[step.name].collection;
    DropStoredStep(env, assign, sys, step);
    InvGives(env, assign, sys);
    RemoveDefTraced(s, step.name, {c});
    RemoveDefRemoves(s, step.name);
    CollectedWithin(sys.s, RemoveDef(s, step.name), {c});
    StoredUnique(env, assign, sys, Next(env, assign, sys, step), {c}, Collected(RemoveDef(s, step.name)));
  }

  // ── Whole runs ────────────────────────────────────────────────────────────

  lemma StepKeepsUnique(env: Env, assign: Assignment, sys: System, step: Step)
    requires Lawful(env) && Inv(env, assign, sys) && EverywhereUnique(env, assign, sys)
    requires Enabled(env, assign, sys, step) && Passed(env, assign, sys, step) && NameIsFree(sys, step)
    ensures EverywhereUnique(env, assign, Next(env, assign, sys, step))
  {
    hide Inv;
    hide Lawful;
    hide UniqueIn;
    match step
    case WriteRows(_, _, _) => WriteRowsUnique(env, assign, sys, step);
    case BuildIndex(_, _) => BuildIndexUnique(env, assign, sys, step);
    case ClearRows(_) => ClearRowsUnique(env, assign, sys, step);
    case DropIndex(_) => DropIndexUnique(env, assign, sys, step);
    case Stage => StageUnique(env, assign, sys);
    case Commit => CommitUnique(env, assign, sys);
    case FailCommit =>
    case Acknowledge =>
    case Reopen => ReopenUnique(env, assign, sys);
    case StoreRows(_) => StoreRowsUnique(env, assign, sys, step);
    case BuildStored(_, _) => BuildStoredUnique(env, assign, sys, step);
    case DropStored(_) => DropStoredUnique(env, assign, sys, step);
  }

  /** Every step of the run passed its checks. */
  ghost predicate PassedAll(env: Env, assign: Assignment, sys: System, steps: seq<Step>)
    requires Legal(env, assign, sys, steps)
    decreases |steps|
  {
    steps == [] || (Passed(env, assign, sys, steps[0]) && PassedAll(env, assign, Next(env, assign, sys, steps[0]), steps[1..]))
  }

  lemma {:induction false} RunKeepsUnique(env: Env, assign: Assignment, sys: System, steps: seq<Step>)
    requires Lawful(env) && Inv(env, assign, sys) && EverywhereUnique(env, assign, sys)
    requires Legal(env, assign, sys, steps) && NamesFree(env, assign, sys, steps) && PassedAll(env, assign, sys, steps)
    ensures EverywhereUnique(env, assign, End(env, assign, sys, steps))
    decreases |steps|
  {
    hide Inv;
    hide Lawful;
    hide EverywhereUnique;
    hide Enabled;
    hide Next;
    hide Passed;
    hide NameIsFree;
    if steps != [] {
      StepKeepsUnique(env, assign, sys, steps[0]);
      StepKeepsInv(env, assign, sys, steps[0]);
      RunKeepsUnique(env, assign, Next(env, assign, sys, steps[0]), steps[1..]);
    }
  }

  lemma StartIsUnique(env: Env, assign: Assignment)
    ensures EverywhereUnique(env, assign, Start())
  {
    hide UniqueIn;
    StartIsSound(env, assign);
    hide Loaded;
    LoadedFresh();
    assert Start().s == EMPTY;
    forall d: IndexDef ensures Bare(Start().cells).At(d.Key()) != Some(DefCell(d)) { }
  }

  lemma UniqueAfterCrash(env: Env, assign: Assignment, sys: System)
    requires Inv(env, assign, sys) && EverywhereUnique(env, assign, sys)
    ensures AllUnique(env, sys.s.defs, sys.rows) && AllUnique(env, Loaded(sys.cells).defs, sys.stored)
  {
    hide Inv;
    hide UniqueIn;
    hide Loaded;
    ReopenUnique(env, assign, sys);
  }

  /** At every point of every checked run from a fresh store, each unique index
      holds each value at most once: over the rows in memory, and over the
      stored rows a crash would leave. */
  lemma UniqueOverRuns(env: Env, assign: Assignment, steps: seq<Step>)
    requires Lawful(env) && Legal(env, assign, Start(), steps) && NamesFree(env, assign, Start(), steps)
    requires PassedAll(env, assign, Start(), steps)
    ensures var sys := End(env, assign, Start(), steps);
      AllUnique(env, sys.s.defs, sys.rows) && AllUnique(env, Loaded(sys.cells).defs, sys.stored)
  {
    hide *;
    StartIsSound(env, assign);
    StartIsUnique(env, assign);
    RunKeepsUnique(env, assign, Start(), steps);
    RunKeepsInv(env, assign, Start(), steps);
    UniqueAfterCrash(env, assign, End(env, assign, Start(), steps));
  }
}
