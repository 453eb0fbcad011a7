/** Whole runs of the index subsystem: row writes, index builds and drops, the
    flush with its stage, commit and acknowledgement, writes that go to storage
    at once, and crashes. */
module Runs {
  import opened Options
  import opened ByteOrder
  import opened Utf8
  import opened Key
  import opened Document
  import opened Store
  import opened Maintain
  import opened Install
  import opened Views
  import opened Traces
  import opened Durable
  import Ddl

  /** A flush between staging and acknowledgement: the marks and the rows its
      batch carries, and whether the batch is stored. */
  datatype Flush = Flush(marks: map<Bytes, Dirty>, rows: Rows, committed: bool)

  /** Memory (index state and rows) and storage (index cells and rows). */
  datatype System = System(s: State, rows: Rows, cells: Cells, stored: Rows, flight: Option<Flush>)

  datatype Step =
    /** Rows of a document collection change, by a local write, a merge or an
        import, and the catalog is resynced on the changed ids. */
    | WriteRows(collection: Ident, ids: seq<Text>, rows: Rows)
    /** An index is built over a document collection's rows. */
    | BuildIndex(def: IndexDef, listed: seq<Listed>)
    /** Every row of a document collection goes at once. */
    | ClearRows(collection: Ident)
    | DropIndex(name: Ident)
    | Stage
    | Commit
    | FailCommit
    | Acknowledge
    /** The process dies and the store is opened again. */
    | Reopen
    /** A strict or key-value write, stored with its entries in one batch. */
    | StoreRows(images: seq<RowImage>)
    | BuildStored(def: IndexDef, listed: seq<Listed>)
    | DropStored(name: Ident)

  ghost predicate IsDocument(assign: Assignment, collection: Ident) {
    assign(collection) == DocumentRows
  }

  /** The document rows of one map with the directly stored rows of another. */
  ghost function Merge(assign: Assignment, documents: Rows, direct: Rows): Rows {
    map ref | ref in documents.Keys + direct.Keys
              && ref in (if IsDocument(assign, ref.0) then documents else direct)
      :: if IsDocument(assign, ref.0) then documents[ref] else direct[ref]
  }

  ghost function Written(cells: Cells, marks: map<Bytes, Dirty>): Cells {
    map k | k in cells.Keys + marks.Keys && Visible(cells, marks, k).Some? :: Visible(cells, marks, k).value
  }

  /** Every index of the view named as `def` is on its collection. */
  ghost predicate NameFree(v: View, def: IndexDef) {
    forall d: IndexDef :: v.At(d.Key()) == Some(DefCell(d)) && d.name == def.name ==> d.collection == def.collection
  }

  ghost predicate Enabled(env: Env, assign: Assignment, sys: System, step: Step) {
    match step
    case WriteRows(collection, ids, rows) =>
      && IsDocument(assign, collection)
      && forall ref: DocRef :: ref.0 != collection || ref.1 !in ids ==> RowOf(rows, ref) == RowOf(sys.rows, ref)
    case BuildIndex(def, listed) =>
      && IsDocument(assign, def.collection) && def.engine == DocumentRows
      && KeepsCollection(sys.s, def) && ListsAll(listed, sys.rows, def.collection)
    case ClearRows(collection) => IsDocument(assign, collection)
    case DropIndex(name) => name in sys.s.defs && IsDocument(assign, sys.s.defs[name].collection)
    case Stage => sys.flight.None?
    case Commit => sys.flight.Some? && !sys.flight.value.committed
    case FailCommit => sys.flight.Some? && !sys.flight.value.committed
    case Acknowledge => sys.flight.Some? && sys.flight.value.committed
    case Reopen => true
    case StoreRows(images) => exists engine :: engine != DocumentRows && ImagesOn(images, assign, engine)
    case BuildStored(def, listed) =>
      && !IsDocument(assign, def.collection) && def.engine == assign(def.collection)
      && KeepsCollection(sys.s, def) && ListsAll(listed, sys.rows, def.collection)
    case DropStored(name) => name in sys.s.defs && !IsDocument(assign, sys.s.defs[name].collection)
  }

  ghost predicate Staged(sys: System) {
    sys.flight.Some? && !sys.flight.value.committed
  }

  /** What storage will show once the staged flush commits. */
  ghost function StagedView(sys: System): View
    requires Staged(sys)
  {
    View(sys.cells, sys.flight.value.marks)
  }

  ghost function StagedRows(assign: Assignment, sys: System): Rows
    requires Staged(sys)
  {
    Merge(assign, sys.flight.value.rows, sys.rows)
  }

  /** An index stored at once takes no name that storage, or the staged flush,
      still gives to another collection: one dropped in memory whose deletion
      waits. */
  ghost predicate NameIsFree(sys: System, step: Step) {
    step.BuildStored? ==> NameFree(Bare(sys.cells), step.def) && (Staged(sys) ==> NameFree(StagedView(sys), step.def))
  }

  /** `dirty` once a commit is acknowledged: a mark goes if it is still the staged
      one. */
  function Flushed(dirty: map<Bytes, Dirty>, marks: map<Bytes, Dirty>): map<Bytes, Dirty> {
    map k | k in dirty && !(k in marks && marks[k].version == dirty[k].version) :: dirty[k]
  }

  ghost function EngineOf(images: seq<RowImage>, assign: Assignment): Engine
    requires exists engine :: engine != DocumentRows && ImagesOn(images, assign, engine)
  {
    var engine :| engine != DocumentRows && ImagesOn(images, assign, engine);
    engine
  }

  /** A change collected in `t` is stored, and memory follows. */
  function StoreNow(sys: System, t: State): System {
    sys.(s := Closed(t), cells := ApplyAll(sys.cells, Collected(t)))
  }

  ghost function Next(env: Env, assign: Assignment, sys: System, step: Step): System
    requires Enabled(env, assign, sys, step)
  {
    match step
    case WriteRows(collection, ids, rows) => sys.(s := Resync(env, sys.s, collection, ids, rows), rows := rows)
    case BuildIndex(def, listed) => sys.(s := Installed(env, sys.s, def, listed))
    case ClearRows(collection) =>
      sys.(s := Ddl.ClearDocuments(sys.s, collection), rows := Ddl.WithoutCollection(sys.rows, collection))
    case DropIndex(name) => sys.(s := RemoveDef(sys.s, name))
    case Stage => sys.(flight := Some(Flush(sys.s.dirty, sys.rows, false)))
    case Commit =>
      var f := sys.flight.value;
      sys.(cells := Written(sys.cells, f.marks), stored := Merge(assign, f.rows, sys.stored),
           flight := Some(f.(committed := true)))
    case FailCommit => sys.(flight := None)
    case Acknowledge =>
      sys.(s := sys.s.(dirty := Flushed(sys.s.dirty, sys.flight.value.marks)), flight := None)
    case Reopen => sys.(s := Loaded(sys.cells), rows := sys.stored, flight := None)
    case StoreRows(images) =>
      StoreNow(sys, SettleImages(env, Collecting(sys.s), EngineOf(images, assign), images))
        .(rows := ApplyImages(sys.rows, images), stored := ApplyImages(sys.stored, images))
    case BuildStored(def, listed) => StoreNow(sys, Installed(env, Collecting(sys.s), def, listed))
    case DropStored(name) => StoreNow(sys, RemoveDef(Collecting(sys.s), name))
  }

  // ── The invariant ─────────────────────────────────────────────────────────

  /** The key belongs to a document collection. */
  ghost predicate DocumentKey(assign: Assignment, key: Bytes) {
    CollectionOf(key).Some? && IsDocument(assign, CollectionOf(key).value)
  }

  ghost predicate DirectKey(assign: Assignment, key: Bytes) {
    CollectionOf(key).Some? && !IsDocument(assign, CollectionOf(key).value)
  }

  /** Memory: two views of one set, mirrored by storage and in agreement with
      the rows, with marks on document indexes only. */
  ghost predicate MemoryOk(env: Env, assign: Assignment, sys: System) {
    && TwoViews(sys.s) && sys.s.sink.None? && sys.s.tombstoned == {}
    && Mirrors(sys.cells, sys.s) && IsCurrent(sys.cells)
    && Agrees(env, sys.s, sys.rows) && Engines(sys.s.defs, assign)
    && (forall k :: k in sys.s.dirty ==> DocumentKey(assign, k)) && Bounded(sys.s.dirty, sys.s.nextSeq)
  }

  /** Rows of strict and key-value collections are always stored. */
  ghost predicate DirectRowsStored(assign: Assignment, rows: Rows, stored: Rows) {
    forall ref: DocRef :: !IsDocument(assign, ref.0) ==> RowOf(rows, ref) == RowOf(stored, ref)
  }

  /** A staged mark is still there, or has given way to a newer one. */
  ghost predicate StillMarked(marks: map<Bytes, Dirty>, dirty: map<Bytes, Dirty>) {
    forall k :: k in marks ==> k in dirty && (dirty[k] == marks[k] || dirty[k].version > marks[k].version)
  }

  ghost predicate FlightOk(env: Env, assign: Assignment, sys: System) {
    sys.flight.Some? ==>
      var f := sys.flight.value;
      && StillMarked(f.marks, sys.s.dirty)
      && (!f.committed ==> Sound(env, assign, StagedView(sys), StagedRows(assign, sys)))
      && (f.committed ==> forall k :: k in f.marks ==> Seen(sys.cells, k) == f.marks[k].cell)
  }

  /** The stored entries are exactly the ones the stored definitions imply for
      the stored rows, and memory and any flush in flight are in order. */
  ghost predicate Inv(env: Env, assign: Assignment, sys: System) {
    && MemoryOk(env, assign, sys)
    && Sound(env, assign, Bare(sys.cells), sys.stored)
    && DirectRowsStored(assign, sys.rows, sys.stored)
    && FlightOk(env, assign, sys)
  }

  ghost predicate Legal(env: Env, assign: Assignment, sys: System, steps: seq<Step>)
    decreases |steps|
  {
    steps == [] || (Enabled(env, assign, sys, steps[0]) && Legal(env, assign, Next(env, assign, sys, steps[0]), steps[1..]))
  }

  ghost function End(env: Env, assign: Assignment, sys: System, steps: seq<Step>): System
    requires Legal(env, assign, sys, steps)
    decreases |steps|
  {
    if steps == [] then sys else End(env, assign, Next(env, assign, sys, steps[0]), steps[1..])
  }

  /** A store opened for the first time. */
  function Start(): System {
    System(Loaded(map[]), map[], Stamped(map[]), map[], None)
  }

  // ── Views that show the same things ───────────────────────────────────────

  ghost predicate SameView(v: View, w: View) {
    forall k :: v.At(k) == w.At(k)
  }

  lemma SameViewIsSound(env: Env, assign: Assignment, v: View, w: View, rows: Rows, later: Rows)
    requires Sound(env, assign, v, rows) && SameView(v, w)
    requires forall ref: DocRef :: RowOf(rows, ref) == RowOf(later, ref)
    ensures Sound(env, assign, w, later)
  {
    assert rows == later by {
      assert forall ref: DocRef :: ref in rows <==> RowOf(rows, ref).Some?;
      assert forall ref: DocRef :: ref in later <==> RowOf(later, ref).Some?;
    }
    forall k ensures KeyedOn(w, assign, k) {
      assert KeyedOn(v, assign, k) && v.At(k) == w.At(k);
    }
    forall a, b ensures OneName(w, a, b) {
      assert OneName(v, a, b) && v.At(a.Key()) == w.At(a.Key()) && v.At(b.Key()) == w.At(b.Key());
    }
    forall k ensures FaithfulOn(env, w, rows, k) {
      assert FaithfulOn(env, v, rows, k) && v.At(k) == w.At(k);
      if ParseEntry(k).Some? { assert v.At(OwnerKey(ParseEntry(k).value)) == w.At(OwnerKey(ParseEntry(k).value)); }
    }
  }

  lemma MergeRow(assign: Assignment, documents: Rows, direct: Rows, ref: DocRef)
    ensures RowOf(Merge(assign, documents, direct), ref)
         == RowOf(if IsDocument(assign, ref.0) then documents else direct, ref)
  {
  }

  lemma WrittenShows(cells: Cells, marks: map<Bytes, Dirty>, k: Bytes)
    ensures Seen(Written(cells, marks), k) == Visible(cells, marks, k)
  {
  }

  lemma FormatKeyIsApart(assign: Assignment)
    ensures CollectionOf(FormatKey()) == None
  {
    KindsAreDisjoint(FormatKey());
  }

  // ── Each step keeps the invariant ─────────────────────────────────────────

  lemma StartIsSound(env: Env, assign: Assignment)
    ensures Inv(env, assign, Start())
  {
    LoadedFresh();
    var sys := Start();
    hide Loaded;
    var none: Cells := map[];
    PrefixScanExact(none.Keys, DefsPrefix());
    PrefixScanExact(none.Keys, EntriesPrefix());
    assert Under(none.Keys, DefsPrefix()) == {} && Under(none.Keys, EntriesPrefix()) == {};
    assert sys.cells == map[FormatKey() := FormatCell(FORMAT_VERSION)];
    assert sys.s == EMPTY;
    hide PrefixScan;
    forall k ensures FaithfulOn(env, Bare(sys.cells), map[], k) {
      KindsAreDisjoint(k);
    }
    forall a: IndexDef ensures Bare(sys.cells).At(a.Key()) != Some(DefCell(a)) {
    }
  }

  /** A change left for the flush. */
  lemma DocumentStep(env: Env, assign: Assignment, sys: System, t: State, rows: Rows, collections: set<Ident>)
    requires Inv(env, assign, sys) && Traced(sys.s, t, collections)
    requires forall c :: c in collections ==> IsDocument(assign, c)
    requires TwoViews(t) && t.tombstoned == {} && Mirrors(sys.cells, t) && Agrees(env, t, rows) && Engines(t.defs, assign)
    requires forall ref: DocRef :: !IsDocument(assign, ref.0) ==> RowOf(rows, ref) == RowOf(sys.rows, ref)
    ensures Inv(env, assign, sys.(s := t, rows := rows))
  {
    hide TwoViews;
    hide Mirrors;
    hide Agrees;
    hide CollectionOf;
    if sys.flight.Some? && !sys.flight.value.committed {
      var f := sys.flight.value;
      hide Sound;
      forall ref ensures RowOf(Merge(assign, f.rows, sys.rows), ref) == RowOf(Merge(assign, f.rows, rows), ref) {
        MergeRow(assign, f.rows, sys.rows, ref);
        MergeRow(assign, f.rows, rows, ref);
      }
      SameViewIsSound(env, assign, View(sys.cells, f.marks), View(sys.cells, f.marks),
                      Merge(assign, f.rows, sys.rows), Merge(assign, f.rows, rows));
    }
  }

  lemma WriteRowsStep(env: Env, assign: Assignment, sys: System, step: Step)
    requires Inv(env, assign, sys) && step.WriteRows? && Enabled(env, assign, sys, step)
    ensures Inv(env, assign, Next(env, assign, sys, step))
  {
    hide TwoViews;
    hide Mirrors;
    hide Traced;
    hide ResyncAll;
    var (c, ids, rows) := (step.collection, step.ids, step.rows);
    var s := sys.s;
    var names := DefsOn(s.defs, c, DocumentRows);
    AgreementOwns(env, s, sys.rows);
    assert LiveRows(s, rows) == rows;
    forall k | Untouched(k, c, ids) ensures AgreesOn(env, s, rows, k) {
      assert AgreesOn(env, s, sys.rows, k);
      RowMatters(env, s, sys.rows, rows, k);
    }
    ResyncAgrees(env, s, c, ids, rows);
    if names == {} {
      TracedReflexive(s, {c});
    } else {
      ResyncAllMoves(env, s, names, c, ids, rows);
      ResyncAllKeepsMirror(env, sys.cells, s, names, c, ids, rows);
      ResyncAllTraced(env, s, names, c, ids, rows);
    }
    hide Agrees;
    hide Sound;
    DocumentStep(env, assign, sys, Resync(env, s, c, ids, rows), rows, {c});
  }

  lemma BuildIndexStep(env: Env, assign: Assignment, sys: System, step: Step)
    requires Inv(env, assign, sys) && step.BuildIndex? && Enabled(env, assign, sys, step)
    ensures Inv(env, assign, Next(env, assign, sys, step))
  {
    hide TwoViews;
    hide Mirrors;
    hide Traced;
    hide Agrees;
    hide Sound;
    hide Installed;
    var (def, listed) := (step.def, step.listed);
    InstalledShows(env, sys.s, def, listed, FormatKey());
    InstalledKeepsMirror(env, sys.cells, sys.s, def, listed);
    InstalledAgrees(env, sys.s, def, listed, sys.rows);
    InstalledTraced(env, sys.s, def, listed);
    DocumentStep(env, assign, sys, Installed(env, sys.s, def, listed), sys.rows, {def.collection});
  }

  lemma ClearRowsStep(env: Env, assign: Assignment, sys: System, step: Step)
    requires Inv(env, assign, sys) && step.ClearRows? && Enabled(env, assign, sys, step)
    ensures Inv(env, assign, Next(env, assign, sys, step))
  {
    hide TwoViews;
    hide Mirrors;
    hide Traced;
    hide Sound;
    hide Ddl.ClearEach;
    hide Ddl.DocumentDefs;
    var c := step.collection;
    AgreementOwns(env, sys.s, sys.rows);
    Ddl.ClearDocumentsShows(sys.s, c, FormatKey());
    Ddl.ClearEachKeepsMirror(sys.cells, sys.s, Ddl.DocumentDefs(sys.s, c));
    Ddl.ClearDocumentsAgrees(env, sys.s, c, sys.rows);
    Ddl.ClearDocumentsTraced(sys.s, c);
    hide Agrees;
    DocumentStep(env, assign, sys, Ddl.ClearDocuments(sys.s, c), Ddl.WithoutCollection(sys.rows, c), {c});
  }

  lemma DropIndexStep(env: Env, assign: Assignment, sys: System, step: Step)
    requires Inv(env, assign, sys) && step.DropIndex? && Enabled(env, assign, sys, step)
    ensures Inv(env, assign, Next(env, assign, sys, step))
  {
    hide TwoViews;
    hide Mirrors;
    hide Traced;
    hide Agrees;
    hide Sound;
    hide RemoveDef;
    var c := sys.s.defs[step.name].collection;
    RemoveDefRemoves(sys.s, step.name);
    RemoveDefKeepsMirror(sys.cells, sys.s, step.name);
    RemovedAgrees(env, sys.s, step.name, sys.rows);
    RemoveDefTraced(sys.s, step.name, {c});
    DocumentStep(env, assign, sys, RemoveDef(sys.s, step.name), sys.rows, {c});
  }

  lemma StageStep(env: Env, assign: Assignment, sys: System)
    requires Inv(env, assign, sys) && Enabled(env, assign, sys, Stage)
    ensures Inv(env, assign, Next(env, assign, sys, Stage))
  {
    hide TwoViews;
    hide Mirrors;
    hide Agrees;
    hide IsCurrent;
    FormatKeyIsApart(assign);
    StateIsSound(env, assign, sys.cells, sys.s, sys.rows);
    forall ref ensures RowOf(sys.rows, ref) == RowOf(Merge(assign, sys.rows, sys.rows), ref) {
      MergeRow(assign, sys.rows, sys.rows, ref);
    }
    var v := View(sys.cells, sys.s.dirty);
    hide Sound;
    hide CollectionOf;
    SameViewIsSound(env, assign, v, v, sys.rows, Merge(assign, sys.rows, sys.rows));
  }

  lemma WrittenMirrors(cells: Cells, s: State, marks: map<Bytes, Dirty>)
    requires Mirrors(cells, s) && s.sink.None? && StillMarked(marks, s.dirty)
    ensures Mirrors(Written(cells, marks), s)
  {
    forall k | k != FormatKey() ensures Shown(Written(cells, marks), s, k) == Told(s, k) {
      assert Shown(cells, s, k) == Told(s, k);
      WrittenShows(cells, marks, k);
    }
  }

  /** The rows a commit leaves are those its flush carried, with the directly
      stored rows as they are. */
  lemma CommittedRows(assign: Assignment, flushed: Rows, rows: Rows, stored: Rows, ref: DocRef)
    requires DirectRowsStored(assign, rows, stored)
    ensures RowOf(Merge(assign, flushed, rows), ref) == RowOf(Merge(assign, flushed, stored), ref)
    ensures !IsDocument(assign, ref.0) ==> RowOf(rows, ref) == RowOf(Merge(assign, flushed, stored), ref)
  {
    MergeRow(assign, flushed, rows, ref);
    MergeRow(assign, flushed, stored, ref);
  }

  lemma CommitStores(env: Env, assign: Assignment, sys: System)
    requires Inv(env, assign, sys) && Enabled(env, assign, sys, Commit)
    ensures var next := Next(env, assign, sys, Commit);
      Sound(env, assign, Bare(next.cells), next.stored) && DirectRowsStored(assign, next.rows, next.stored)
  {
    hide Sound;
    hide MemoryOk;
    hide Merge;
    hide Written;
    var f := sys.flight.value;
    var cells, stored := Written(sys.cells, f.marks), Merge(assign, f.rows, sys.stored);
    forall k ensures Bare(cells).At(k) == View(sys.cells, f.marks).At(k) {
      WrittenShows(sys.cells, f.marks, k);
    }
    forall ref: DocRef
      ensures RowOf(Merge(assign, f.rows, sys.rows), ref) == RowOf(stored, ref)
      ensures !IsDocument(assign, ref.0) ==> RowOf(sys.rows, ref) == RowOf(stored, ref)
    {
      CommittedRows(assign, f.rows, sys.rows, sys.stored, ref);
    }
    SameViewIsSound(env, assign, View(sys.cells, f.marks), Bare(cells), Merge(assign, f.rows, sys.rows), stored);
  }

  lemma CommitStep(env: Env, assign: Assignment, sys: System)
    requires Inv(env, assign, sys) && Enabled(env, assign, sys, Commit)
    ensures Inv(env, assign, Next(env, assign, sys, Commit))
  {
    hide TwoViews;
    hide Mirrors;
    hide Agrees;
    hide Sound;
    hide CollectionOf;
    hide Merge;
    hide Written;
    hide DirectRowsStored;
    var f := sys.flight.value;
    CommitStores(env, assign, sys);
    WrittenMirrors(sys.cells, sys.s, f.marks);
    FormatKeyIsApart(assign);
    WrittenShows(sys.cells, f.marks, FormatKey());
    forall k | k in f.marks ensures Seen(Written(sys.cells, f.marks), k) == f.marks[k].cell {
      WrittenShows(sys.cells, f.marks, k);
    }
  }

  lemma FlushedMirrors(cells: Cells, s: State, marks: map<Bytes, Dirty>)
    requires Mirrors(cells, s) && s.sink.None? && StillMarked(marks, s.dirty)
    requires forall k :: k in marks ==> Seen(cells, k) == marks[k].cell
    ensures Mirrors(cells, s.(dirty := Flushed(s.dirty, marks)))
  {
    var t := s.(dirty := Flushed(s.dirty, marks));
    forall k | k != FormatKey() ensures Shown(cells, t, k) == Told(t, k) {
      assert Shown(cells, s, k) == Told(s, k);
    }
  }

  lemma MarksDoNotMatter(env: Env, s: State, dirty: map<Bytes, Dirty>, rows: Rows)
    requires TwoViews(s) && Agrees(env, s, rows)
    ensures TwoViews(s.(dirty := dirty)) && Agrees(env, s.(dirty := dirty), rows)
  {
    hide RefOf;
    hide ParseEntry;
    forall k ensures AgreesOn(env, s.(dirty := dirty), rows, k) {
      assert AgreesOn(env, s, rows, k);
    }
  }

  lemma AcknowledgeStep(env: Env, assign: Assignment, sys: System)
    requires Inv(env, assign, sys) && Enabled(env, assign, sys, Acknowledge)
    ensures Inv(env, assign, Next(env, assign, sys, Acknowledge))
  {
    hide TwoViews;
    hide Mirrors;
    hide Agrees;
    hide Sound;
    hide CollectionOf;
    FlushedMirrors(sys.cells, sys.s, sys.flight.value.marks);
    MarksDoNotMatter(env, sys.s, Flushed(sys.s.dirty, sys.flight.value.marks), sys.rows);
  }

  lemma ReopenStep(env: Env, assign: Assignment, sys: System)
    requires Inv(env, assign, sys)
    ensures Inv(env, assign, Next(env, assign, sys, Reopen))
  {
    LoadedExact(env, assign, sys.cells, sys.stored);
    LoadedEngines(env, assign, sys.cells, sys.stored);
    hide TwoViews;
    hide Mirrors;
    hide Agrees;
    hide Sound;
    hide Loaded;
    hide CollectionOf;
  }

  lemma LoadedEngines(env: Env, assign: Assignment, cells: Cells, rows: Rows)
    requires Sound(env, assign, Bare(cells), rows) && IsCurrent(cells)
    ensures Engines(Loaded(cells).defs, assign)
  {
    LoadedIsTidy(assign, cells);
    hide Loaded;
    hide PrefixScan;
    KeyedDefs(assign, cells);
    var s := Loaded(cells);
    forall n | n in s.defs ensures s.defs[n].engine == assign(s.defs[n].collection) {
      LoadedDefs(cells, n);
      assert KeyedOn(Bare(cells), assign, s.defs[n].Key());
    }
  }

  // ── Changes stored at once ────────────────────────────────────────────────

  /** No document index of `v` is named as an index stored directly. */
  ghost predicate NamesApart(assign: Assignment, v: View, defs: map<Ident, IndexDef>) {
    forall a: IndexDef :: v.At(a.Key()) == Some(DefCell(a)) && IsDocument(assign, a.collection) && a.name in defs
      ==> IsDocument(assign, defs[a.name].collection)
  }

  lemma DefKeyCollection(def: IndexDef)
    ensures CollectionOf(def.Key()) == Some(def.collection)
  {
    DefKeyIsNoEntry(def);
  }

  lemma OwnerCollection(k: Bytes)
    requires ParseEntry(k).Some?
    ensures CollectionOf(k) == Some(ParseEntry(k).value.collection) == CollectionOf(OwnerKey(ParseEntry(k).value))
  {
    var p := ParseEntry(k).value;
    DefParses(p.collection, p.index);
    KindsAreDisjoint(OwnerKey(p));
  }

  /** `w` is `v` on document keys and `now` on keys stored directly. */
  ghost predicate Spliced(assign: Assignment, v: View, w: View, now: View) {
    && (forall k :: DirectKey(assign, k) ==> w.At(k) == now.At(k))
    && (forall k :: !DirectKey(assign, k) ==> w.At(k) == v.At(k))
  }

  lemma SplicedNames(assign: Assignment, v: View, w: View, now: View, defs: map<Ident, IndexDef>, a: IndexDef, b: IndexDef)
    requires Spliced(assign, v, w, now) && NamesApart(assign, v, defs)
    requires forall d: IndexDef :: now.At(d.Key()) == Some(DefCell(d)) ==> d.name in defs && defs[d.name] == d
    requires OneName(v, a, b) && OneName(now, a, b)
    ensures OneName(w, a, b)
  {
    DefKeyCollection(a);
    DefKeyCollection(b);
    hide CollectionOf;
    assert DirectKey(assign, a.Key()) <==> !IsDocument(assign, a.collection);
    assert DirectKey(assign, b.Key()) <==> !IsDocument(assign, b.collection);
  }

  lemma SplicedFaithful(env: Env, assign: Assignment, v: View, w: View, now: View, rows: Rows, later: Rows, current: Rows, k: Bytes)
    requires Spliced(assign, v, w, now)
    requires FaithfulOn(env, v, rows, k) && FaithfulOn(env, now, current, k)
    requires forall ref: DocRef :: IsDocument(assign, ref.0) ==> RowOf(later, ref) == RowOf(rows, ref)
    requires forall ref: DocRef :: !IsDocument(assign, ref.0) ==> RowOf(later, ref) == RowOf(current, ref)
    ensures FaithfulOn(env, w, later, k)
  {
    if ParseEntry(k).Some? {
      var p := ParseEntry(k).value;
      OwnerCollection(k);
      hide CollectionOf;
      hide ParseEntry;
      hide EncodedValues;
      var ref := (p.collection, p.docId);
      assert DirectKey(assign, k) <==> DirectKey(assign, OwnerKey(p));
      if DirectKey(assign, k) {
        assert RowOf(later, ref) == RowOf(current, ref);
      } else {
        assert RowOf(later, ref) == RowOf(rows, ref);
      }
    }
  }

  lemma SplicedIsSound(env: Env, assign: Assignment, v: View, w: View, now: View, defs: map<Ident, IndexDef>,
                       rows: Rows, later: Rows, current: Rows)
    requires Sound(env, assign, v, rows) && Sound(env, assign, now, current) && Spliced(assign, v, w, now)
    requires NamesApart(assign, v, defs)
    requires forall d: IndexDef :: now.At(d.Key()) == Some(DefCell(d)) ==> d.name in defs && defs[d.name] == d
    requires forall ref: DocRef :: IsDocument(assign, ref.0) ==> RowOf(later, ref) == RowOf(rows, ref)
    requires forall ref: DocRef :: !IsDocument(assign, ref.0) ==> RowOf(later, ref) == RowOf(current, ref)
    ensures Sound(env, assign, w, later)
  {
    hide CollectionOf;
    forall k ensures KeyedOn(w, assign, k) {
      assert KeyedOn(v, assign, k) && KeyedOn(now, assign, k);
      if DirectKey(assign, k) { assert w.At(k) == now.At(k); } else { assert w.At(k) == v.At(k); }
    }
    hide Sound;
    hide KeyedOn;
    assert forall a, b :: OneName(v, a, b) && OneName(now, a, b) by { SoundNames(env, assign, v, rows); SoundNames(env, assign, now, current); }
    forall a, b ensures OneName(w, a, b) {
      SplicedNames(assign, v, w, now, defs, a, b);
    }
    forall k ensures FaithfulOn(env, w, later, k) {
      SoundFaithful(env, assign, v, rows, k);
      SoundFaithful(env, assign, now, current, k);
      SplicedFaithful(env, assign, v, w, now, rows, later, current, k);
    }
    SoundFrom(env, assign, w, later);
  }

  lemma SoundNames(env: Env, assign: Assignment, v: View, rows: Rows)
    requires Sound(env, assign, v, rows)
    ensures forall a, b :: OneName(v, a, b)
  {
  }

  lemma SoundFaithful(env: Env, assign: Assignment, v: View, rows: Rows, k: Bytes)
    requires Sound(env, assign, v, rows)
    ensures FaithfulOn(env, v, rows, k)
  {
  }

  lemma SoundFrom(env: Env, assign: Assignment, v: View, rows: Rows)
    requires forall k :: KeyedOn(v, assign, k)
    requires forall a, b :: OneName(v, a, b)
    requires forall k :: FaithfulOn(env, v, rows, k)
    ensures Sound(env, assign, v, rows)
  {
  }

  ghost predicate AllDirect(assign: Assignment, collections: set<Ident>) {
    forall c :: c in collections ==> !IsDocument(assign, c)
  }

  /** A batch of direct writes leaves document keys as they were. */
  lemma DirectBatch(assign: Assignment, cells: Cells, ops: seq<WriteOp>, collections: set<Ident>, k: Bytes)
    requires WithinAll(ops, collections) && AllDirect(assign, collections) && !DirectKey(assign, k)
    ensures Seen(ApplyAll(cells, ops), k) == Seen(cells, k)
  {
    hide CollectionOf;
    BatchShows(cells, ops, k);
    forall i | 0 <= i < |ops| ensures ops[i].key != k {
      assert Within(ops[i].key, collections);
    }
    LatestOfOthers(ops, k, Seen(cells, k));
  }

  lemma DirectSplices(assign: Assignment, cells: Cells, ops: seq<WriteOp>, collections: set<Ident>,
                      marks: map<Bytes, Dirty>, dirty: map<Bytes, Dirty>)
    requires WithinAll(ops, collections) && AllDirect(assign, collections)
    requires forall k :: k in marks || k in dirty ==> DocumentKey(assign, k)
    ensures Spliced(assign, View(cells, marks), View(ApplyAll(cells, ops), marks), View(ApplyAll(cells, ops), dirty))
  {
    hide CollectionOf;
    hide ApplyAll;
    forall k | !DirectKey(assign, k) ensures Visible(ApplyAll(cells, ops), marks, k) == Visible(cells, marks, k) {
      DirectBatch(assign, cells, ops, collections, k);
    }
  }

  /** Memory after a change that was collected and stored. */
  lemma StoredMemory(env: Env, assign: Assignment, sys: System, t: State, rows: Rows, collections: set<Ident>)
    requires MemoryOk(env, assign, sys) && Traced(Collecting(sys.s), t, collections) && AllDirect(assign, collections)
    requires TwoViews(t) && t.tombstoned == {} && Mirrors(sys.cells, t) && Agrees(env, t, rows) && Engines(t.defs, assign)
    ensures MemoryOk(env, assign, StoreNow(sys, t).(rows := rows))
    ensures WithinAll(Collected(t), collections) && t.dirty == sys.s.dirty
  {
    var ops := t.sink.value;
    assert ops[0..] == ops;
    assert Clean(ops, t.dirty) by {
      hide CollectionOf;
      forall i | 0 <= i < |ops| ensures ops[i].key !in t.dirty {
        assert Within(ops[i].key, collections);
      }
    }
    CommitKeepsMirror(sys.cells, t);
    FormatKeyIsApart(assign);
    DirectBatch(assign, sys.cells, ops, collections, FormatKey());
    SinkDoesNotMatter(env, t, rows);
    hide CollectionOf;
    hide TwoViews;
    hide Agrees;
    hide Mirrors;
  }

  lemma SinkDoesNotMatter(env: Env, s: State, rows: Rows)
    requires TwoViews(s) && Agrees(env, s, rows)
    ensures TwoViews(Closed(s)) && Agrees(env, Closed(s), rows)
    ensures TwoViews(Collecting(s)) && Agrees(env, Collecting(s), rows)
  {
    hide RefOf;
    hide ParseEntry;
    forall k ensures AgreesOn(env, Closed(s), rows, k) && AgreesOn(env, Collecting(s), rows, k) {
      assert AgreesOn(env, s, rows, k);
    }
  }

  /** One view, under a change stored at once, stays sound. */
  lemma StoredView(env: Env, assign: Assignment, sys: System, t: State, rows: Rows, collections: set<Ident>,
                   marks: map<Bytes, Dirty>, before: Rows, later: Rows)
    requires MemoryOk(env, assign, sys) && MemoryOk(env, assign, StoreNow(sys, t).(rows := rows))
    requires WithinAll(Collected(t), collections) && AllDirect(assign, collections) && t.dirty == sys.s.dirty
    requires forall k :: k in marks ==> DocumentKey(assign, k)
    requires Sound(env, assign, View(sys.cells, marks), before)
    requires NamesApart(assign, View(sys.cells, marks), t.defs)
    requires forall ref: DocRef :: IsDocument(assign, ref.0) ==> RowOf(later, ref) == RowOf(before, ref)
    requires forall ref: DocRef :: !IsDocument(assign, ref.0) ==> RowOf(later, ref) == RowOf(rows, ref)
    ensures Sound(env, assign, View(ApplyAll(sys.cells, Collected(t)), marks), later)
  {
    var cells := ApplyAll(sys.cells, Collected(t));
    var now := View(cells, t.dirty);
    FormatKeyIsApart(assign);
    hide CollectionOf;
    StateIsSound(env, assign, cells, Closed(t), rows);
    DirectSplices(assign, sys.cells, Collected(t), collections, marks, t.dirty);
    forall d: IndexDef | now.At(d.Key()) == Some(DefCell(d)) ensures d.name in t.defs && t.defs[d.name] == d {
      StateNamesOnce(cells, Closed(t), d);
    }
    hide Sound;
    hide Spliced;
    hide Mirrors;
    hide TwoViews;
    hide Agrees;
    hide ApplyAll;
    SplicedIsSound(env, assign, View(sys.cells, marks), View(cells, marks), now, t.defs, before, later, rows);
  }

  ghost predicate FlightNamesApart(assign: Assignment, sys: System, defs: map<Ident, IndexDef>) {
    && NamesApart(assign, Bare(sys.cells), defs)
    && (sys.flight.Some? ==> NamesApart(assign, View(sys.cells, sys.flight.value.marks), defs))
  }

  /** A change stored at once. */
  lemma StoredStep(env: Env, assign: Assignment, sys: System, t: State, rows: Rows, stored: Rows, collections: set<Ident>)
    requires Inv(env, assign, sys) && Traced(Collecting(sys.s), t, collections) && AllDirect(assign, collections)
    requires TwoViews(t) && t.tombstoned == {} && Mirrors(sys.cells, t) && Agrees(env, t, rows) && Engines(t.defs, assign)
    requires FlightNamesApart(assign, sys, t.defs)
    requires forall ref: DocRef :: IsDocument(assign, ref.0) ==> RowOf(rows, ref) == RowOf(sys.rows, ref) && RowOf(stored, ref) == RowOf(sys.stored, ref)
    requires forall ref: DocRef :: !IsDocument(assign, ref.0) ==> RowOf(rows, ref) == RowOf(stored, ref)
    ensures Inv(env, assign, StoreNow(sys, t).(rows := rows, stored := stored))
  {
    hide CollectionOf;
    hide Mirrors;
    hide TwoViews;
    hide Agrees;
    hide Sound;
    hide ApplyAll;
    StoredMemory(env, assign, sys, t, rows, collections);
    StoredView(env, assign, sys, t, rows, collections, map[], sys.stored, stored);
    if sys.flight.Some? {
      StoredFlight(env, assign, sys, t, rows, collections);
    }
  }

  lemma StoredFlight(env: Env, assign: Assignment, sys: System, t: State, rows: Rows, collections: set<Ident>)
    requires Inv(env, assign, sys) && MemoryOk(env, assign, StoreNow(sys, t).(rows := rows)) && sys.flight.Some?
    requires WithinAll(Collected(t), collections) && AllDirect(assign, collections) && t.dirty == sys.s.dirty
    requires FlightNamesApart(assign, sys, t.defs)
    requires forall ref: DocRef :: IsDocument(assign, ref.0) ==> RowOf(rows, ref) == RowOf(sys.rows, ref)
    ensures FlightOk(env, assign, StoreNow(sys, t).(rows := rows))
  {
    hide CollectionOf;
    hide Mirrors;
    hide TwoViews;
    hide Agrees;
    hide Sound;
    hide ApplyAll;
    var f := sys.flight.value;
    assert forall k :: k in f.marks ==> DocumentKey(assign, k);
    if f.committed {
      forall k | k in f.marks ensures Seen(ApplyAll(sys.cells, Collected(t)), k) == f.marks[k].cell {
        DirectBatch(assign, sys.cells, Collected(t), collections, k);
      }
    } else {
      forall ref: DocRef ensures
        RowOf(Merge(assign, f.rows, rows), ref)
          == (if IsDocument(assign, ref.0) then RowOf(Merge(assign, f.rows, sys.rows), ref) else RowOf(rows, ref))
      {
        MergeRow(assign, f.rows, rows, ref);
        MergeRow(assign, f.rows, sys.rows, ref);
      }
      StoredView(env, assign, sys, t, rows, collections, f.marks, Merge(assign, f.rows, sys.rows), Merge(assign, f.rows, rows));
    }
  }

  lemma NamesAlreadyApart(env: Env, assign: Assignment, sys: System, marks: map<Bytes, Dirty>, rows: Rows)
    requires MemoryOk(env, assign, sys) && Sound(env, assign, View(sys.cells, marks), rows)
    requires forall k :: k in marks ==> DocumentKey(assign, k)
    ensures NamesApart(assign, View(sys.cells, marks), sys.s.defs)
  {
    var v := View(sys.cells, marks);
    forall a: IndexDef | v.At(a.Key()) == Some(DefCell(a)) && IsDocument(assign, a.collection) && a.name in sys.s.defs
      ensures IsDocument(assign, sys.s.defs[a.name].collection)
    {
      var b := sys.s.defs[a.name];
      assert OneName(v, a, b);
      if !IsDocument(assign, b.collection) {
        DirectDefShown(env, assign, sys, marks, b);
      }
    }
  }

  lemma DirectDefShown(env: Env, assign: Assignment, sys: System, marks: map<Bytes, Dirty>, def: IndexDef)
    requires MemoryOk(env, assign, sys) && forall k :: k in marks ==> DocumentKey(assign, k)
    requires def.name in sys.s.defs && sys.s.defs[def.name] == def && !IsDocument(assign, def.collection)
    ensures View(sys.cells, marks).At(def.Key()) == Some(DefCell(def))
  {
    DefKeyIsNoEntry(def);
    DefKeyCollection(def);
    hide CollectionOf;
    assert Shown(sys.cells, sys.s, def.Key()) == Told(sys.s, def.Key());
  }

  lemma StoresApart(env: Env, assign: Assignment, sys: System)
    requires Inv(env, assign, sys)
    ensures FlightNamesApart(assign, sys, sys.s.defs)
  {
    NamesAlreadyApart(env, assign, sys, map[], sys.stored);
    if sys.flight.Some? {
      var f := sys.flight.value;
      hide Sound;
      hide Mirrors;
      hide TwoViews;
      hide Agrees;
      hide CollectionOf;
      assert forall k :: k in f.marks ==> DocumentKey(assign, k);
      if f.committed {
        assert NamesApart(assign, View(sys.cells, f.marks), sys.s.defs) by {
          forall k ensures View(sys.cells, f.marks).At(k) == Bare(sys.cells).At(k) { }
        }
      } else {
        NamesAlreadyApart(env, assign, sys, f.marks, Merge(assign, f.rows, sys.rows));
      }
    }
  }

  lemma StoreRowsStep(env: Env, assign: Assignment, sys: System, step: Step)
    requires Inv(env, assign, sys) && step.StoreRows? && Enabled(env, assign, sys, step)
    ensures Inv(env, assign, Next(env, assign, sys, step))
  {
    var images, engine := step.images, EngineOf(step.images, assign);
    var s := Collecting(sys.s);
    hide CollectionOf;
    hide Mirrors;
    hide TwoViews;
    hide Agrees;
    hide Sound;
    hide Traced;
    hide SettleImages;
    hide FlightNamesApart;
    hide ApplyAll;
    SinkDoesNotMatter(env, sys.s, sys.rows);
    CollectingKeepsMirror(sys.cells, sys.s);
    SettleImagesViews(env, s, engine, images);
    SettleImagesAgrees(env, assign, s, engine, images, sys.rows);
    SettleImagesKeepsMirror(env, sys.cells, s, engine, images);
    SettleImagesTraced(env, s, engine, images, CollectionsOf(images));
    StoresApart(env, assign, sys);
    var rows, stored := ApplyImages(sys.rows, images), ApplyImages(sys.stored, images);
    forall ref: DocRef ensures IsDocument(assign, ref.0) ==> RowOf(rows, ref) == RowOf(sys.rows, ref) && RowOf(stored, ref) == RowOf(sys.stored, ref)
      ensures !IsDocument(assign, ref.0) ==> RowOf(rows, ref) == RowOf(stored, ref)
    {
      ImagesSpareDocuments(assign, engine, images, sys.rows, sys.stored, ref);
    }
    StoredStep(env, assign, sys, SettleImages(env, s, engine, images), rows, stored, CollectionsOf(images));
  }

  lemma {:induction false} ImagesSpareDocuments(assign: Assignment, engine: Engine, images: seq<RowImage>, rows: Rows, stored: Rows, ref: DocRef)
    requires engine != DocumentRows && ImagesOn(images, assign, engine)
    requires !IsDocument(assign, ref.0) ==> RowOf(rows, ref) == RowOf(stored, ref)
    ensures IsDocument(assign, ref.0) ==> RowOf(ApplyImages(rows, images), ref) == RowOf(rows, ref)
    ensures IsDocument(assign, ref.0) ==> RowOf(ApplyImages(stored, images), ref) == RowOf(stored, ref)
    ensures !IsDocument(assign, ref.0) ==> RowOf(ApplyImages(rows, images), ref) == RowOf(ApplyImages(stored, images), ref)
    decreases |images|
  {
    if images != [] {
      var init, image := images[..|images| - 1], images[|images| - 1];
      ImagesSpareDocuments(assign, engine, init, rows, stored, ref);
      ImageRow(ApplyImages(rows, init), image, ref);
      ImageRow(ApplyImages(stored, init), image, ref);
    }
  }

  /** A directly stored index whose name is free stays apart by name. */
  lemma FreeStaysApart(assign: Assignment, v: View, defs: map<Ident, IndexDef>, def: IndexDef)
    requires NamesApart(assign, v, defs) && NameFree(v, def)
    ensures NamesApart(assign, v, defs[def.name := def])
  {
  }

  lemma BuildStaysApart(env: Env, assign: Assignment, sys: System, def: IndexDef, listed: seq<Listed>)
    requires Inv(env, assign, sys) && Enabled(env, assign, sys, BuildStored(def, listed)) && NameIsFree(sys, BuildStored(def, listed))
    ensures FlightNamesApart(assign, sys, sys.s.defs[def.name := def])
  {
    StoresApart(env, assign, sys);
    FreeStaysApart(assign, Bare(sys.cells), sys.s.defs, def);
    if sys.flight.Some? {
      if sys.flight.value.committed { CommittedIsBare(env, assign, sys); }
      FreeStaysApart(assign, View(sys.cells, sys.flight.value.marks), sys.s.defs, def);
    }
    hide Inv;
    hide ListsAll;
    hide NamesApart;
  }

  lemma CommittedIsBare(env: Env, assign: Assignment, sys: System)
    requires Inv(env, assign, sys) && sys.flight.Some? && sys.flight.value.committed
    ensures SameView(Bare(sys.cells), View(sys.cells, sys.flight.value.marks))
  {
    hide MemoryOk;
    hide Sound;
  }

  lemma BuildStoredStep(env: Env, assign: Assignment, sys: System, step: Step)
    requires Inv(env, assign, sys) && step.BuildStored? && Enabled(env, assign, sys, step) && NameIsFree(sys, step)
    ensures Inv(env, assign, Next(env, assign, sys, step))
  {
    hide CollectionOf;
    hide Mirrors;
    hide TwoViews;
    hide Agrees;
    hide Sound;
    hide Traced;
    hide Installed;
    hide ApplyAll;
    hide FlightNamesApart;
    hide NameFree;
    hide ListsAll;
    hide FlightOk;
    var def, listed := step.def, step.listed;
    var s := Collecting(sys.s);
    BuildStaysApart(env, assign, sys, def, listed);
    SinkDoesNotMatter(env, sys.s, sys.rows);
    CollectingKeepsMirror(sys.cells, sys.s);
    InstalledShows(env, s, def, listed, FormatKey());
    InstalledKeepsMirror(env, sys.cells, s, def, listed);
    InstalledAgrees(env, s, def, listed, sys.rows);
    InstalledTraced(env, s, def, listed);
    StoredStep(env, assign, sys, Installed(env, s, def, listed), sys.rows, sys.stored, {def.collection});
  }

  lemma DropStoredStep(env: Env, assign: Assignment, sys: System, step: Step)
    requires Inv(env, assign, sys) && step.DropStored? && Enabled(env, assign, sys, step)
    ensures Inv(env, assign, Next(env, assign, sys, step))
  {
    var s := Collecting(sys.s);
    var c := sys.s.defs[step.name].collection;
    hide CollectionOf;
    hide Mirrors;
    hide TwoViews;
    hide Agrees;
    hide Sound;
    hide Traced;
    hide RemoveDef;
    hide ApplyAll;
    SinkDoesNotMatter(env, sys.s, sys.rows);
    CollectingKeepsMirror(sys.cells, sys.s);
    RemoveDefRemoves(s, step.name);
    RemoveDefKeepsMirror(sys.cells, s, step.name);
    RemovedAgrees(env, s, step.name, sys.rows);
    RemoveDefTraced(s, step.name, {c});
    StoresApart(env, assign, sys);
    StoredStep(env, assign, sys, RemoveDef(s, step.name), sys.rows, sys.stored, {c});
  }

  // ── Whole runs ────────────────────────────────────────────────────────────

  lemma StepKeepsInv(env: Env, assign: Assignment, sys: System, step: Step)
    requires Inv(env, assign, sys) && Enabled(env, assign, sys, step) && NameIsFree(sys, step)
    ensures Inv(env, assign, Next(env, assign, sys, step))
  {
    hide Inv;
    match step
    case WriteRows(_, _, _) => WriteRowsStep(env, assign, sys, step);
    case BuildIndex(_, _) => BuildIndexStep(env, assign, sys, step);
    case ClearRows(_) => ClearRowsStep(env, assign, sys, step);
    case DropIndex(_) => DropIndexStep(env, assign, sys, step);
    case Stage => StageStep(env, assign, sys);
    case Commit => CommitStep(env, assign, sys);
    case FailCommit => FailCommitStep(env, assign, sys);
    case Acknowledge => AcknowledgeStep(env, assign, sys);
    case Reopen => ReopenStep(env, assign, sys);
    case StoreRows(_) => StoreRowsStep(env, assign, sys, step);
    case BuildStored(_, _) => BuildStoredStep(env, assign, sys, step);
    case DropStored(_) => DropStoredStep(env, assign, sys, step);
  }

  lemma FailCommitStep(env: Env, assign: Assignment, sys: System)
    requires Inv(env, assign, sys) && Enabled(env, assign, sys, FailCommit)
    ensures Inv(env, assign, Next(env, assign, sys, FailCommit))
  {
    hide Mirrors;
    hide TwoViews;
    hide Agrees;
    hide Sound;
    hide CollectionOf;
  }

  /** Every index stored at once along the run takes a free name. */
  ghost predicate NamesFree(env: Env, assign: Assignment, sys: System, steps: seq<Step>)
    requires Legal(env, assign, sys, steps)
    decreases |steps|
  {
    steps == [] || (NameIsFree(sys, steps[0]) && NamesFree(env, assign, Next(env, assign, sys, steps[0]), steps[1..]))
  }

  lemma {:induction false} RunKeepsInv(env: Env, assign: Assignment, sys: System, steps: seq<Step>)
    requires Inv(env, assign, sys) && Legal(env, assign, sys, steps) && NamesFree(env, assign, sys, steps)
    ensures Inv(env, assign, End(env, assign, sys, steps))
    decreases |steps|
  {
    hide Inv;
    hide Enabled;
    hide Next;
    hide NameIsFree;
    if steps != [] {
      StepKeepsInv(env, assign, sys, steps[0]);
      RunKeepsInv(env, assign, Next(env, assign, sys, steps[0]), steps[1..]);
    }
  }

  /** Stored entries are exactly what the stored definitions imply for the stored
      rows, loading gives exactly those entries, and memory agrees with its rows. */
  ghost predicate Consistent(env: Env, sys: System) {
    && (forall k :: Seen(sys.cells, k) == Some(EntryCell)
          <==> ParseEntry(k).Some? && ImpliedBy(env, Seen(sys.cells, OwnerKey(ParseEntry(k).value)), sys.stored, ParseEntry(k).value))
    && (forall k :: k in Loaded(sys.cells).entries <==> Seen(sys.cells, k) == Some(EntryCell))
    && TwoViews(Loaded(sys.cells)) && Agrees(env, Loaded(sys.cells), sys.stored)
    && TwoViews(sys.s) && Agrees(env, sys.s, sys.rows)
  }

  lemma InvIsConsistent(env: Env, assign: Assignment, sys: System)
    requires Inv(env, assign, sys)
    ensures Consistent(env, sys)
  {
    LoadedExact(env, assign, sys.cells, sys.stored);
    hide TwoViews;
    hide Agrees;
    forall k ensures Seen(sys.cells, k) == Some(EntryCell)
            <==> ParseEntry(k).Some? && ImpliedBy(env, Seen(sys.cells, OwnerKey(ParseEntry(k).value)), sys.stored, ParseEntry(k).value)
    {
      assert KeyedOn(Bare(sys.cells), assign, k) && FaithfulOn(env, Bare(sys.cells), sys.stored, k);
    }
    forall k ensures k in Loaded(sys.cells).entries <==> Seen(sys.cells, k) == Some(EntryCell) {
      LoadedIsTidy(assign, sys.cells);
      hide Loaded;
      assert KeyedOn(Bare(sys.cells), assign, k);
      ScannedEntries(assign, sys.cells, k);
    }
  }

  /** Crash consistency: at every point of every run from a fresh store, storage
      holds exactly the entries its stored definitions imply for its stored
      rows, opening it again gives exactly those in both views, and memory
      agrees with the rows in memory. */
  lemma CrashConsistency(env: Env, assign: Assignment, steps: seq<Step>)
    requires Legal(env, assign, Start(), steps) && NamesFree(env, assign, Start(), steps)
    ensures Consistent(env, End(env, assign, Start(), steps))
  {
    hide Inv;
    StartIsSound(env, assign);
    RunKeepsInv(env, assign, Start(), steps);
    InvIsConsistent(env, assign, End(env, assign, Start(), steps));
  }

  // ── Names that are not free ───────────────────────────────────────────────

  /** Storage, and what the staged flush would make of it, is exact. */
  ghost predicate StorageSound(env: Env, assign: Assignment, sys: System) {
    && Sound(env, assign, Bare(sys.cells), sys.stored)
    && (Staged(sys) ==> Sound(env, assign, StagedView(sys), StagedRows(assign, sys)))
  }

  /** Memory after a durable build, whatever storage names. */
  lemma BuiltMemory(env: Env, assign: Assignment, sys: System, def: IndexDef, listed: seq<Listed>)
    requires Inv(env, assign, sys) && Enabled(env, assign, sys, BuildStored(def, listed))
    ensures var t := Installed(env, Collecting(sys.s), def, listed);
      && MemoryOk(env, assign, StoreNow(sys, t).(rows := sys.rows)) && t.dirty == sys.s.dirty
      && WithinAll(Collected(t), {def.collection}) && t.defs == sys.s.defs[def.name := def]
  {
    hide CollectionOf;
    hide Mirrors;
    hide TwoViews;
    hide Agrees;
    hide Sound;
    hide Traced;
    hide Installed;
    hide ApplyAll;
    hide ListsAll;
    hide FlightOk;
    var s := Collecting(sys.s);
    SinkDoesNotMatter(env, sys.s, sys.rows);
    CollectingKeepsMirror(sys.cells, sys.s);
    InstalledShows(env, s, def, listed, FormatKey());
    InstalledKeepsMirror(env, sys.cells, s, def, listed);
    InstalledAgrees(env, s, def, listed, sys.rows);
    InstalledTraced(env, s, def, listed);
    StoredMemory(env, assign, sys, Installed(env, s, def, listed), sys.rows, {def.collection});
  }

  /** One view after a durable build is exact only if its name was free there. */
  lemma TakenNameIsSeen(env: Env, assign: Assignment, sys: System, def: IndexDef, listed: seq<Listed>,
                        marks: map<Bytes, Dirty>, later: Rows)
    requires Inv(env, assign, sys) && Enabled(env, assign, sys, BuildStored(def, listed))
    requires forall k :: k in marks ==> DocumentKey(assign, k)
    requires Sound(env, assign, View(Next(env, assign, sys, BuildStored(def, listed)).cells, marks), later)
    ensures NameFree(View(sys.cells, marks), def)
  {
    hide Inv;
    hide ListsAll;
    hide Installed;
    hide Mirrors;
    hide TwoViews;
    hide Agrees;
    hide CollectionOf;
    BuiltMemory(env, assign, sys, def, listed);
    var t := Installed(env, Collecting(sys.s), def, listed);
    var next := Next(env, assign, sys, BuildStored(def, listed));
    var w := View(next.cells, marks);
    DirectDefShown(env, assign, next, marks, def);
    hide ApplyAll;
    forall d: IndexDef | View(sys.cells, marks).At(d.Key()) == Some(DefCell(d)) && d.name == def.name
      ensures d.collection == def.collection
    {
      if d.collection != def.collection {
        OtherStaysShown(env, assign, sys, Collected(t), def, marks, d);
        NamedOnce(env, assign, w, later, d, def);
      }
    }
  }

  lemma NamedOnce(env: Env, assign: Assignment, v: View, rows: Rows, a: IndexDef, b: IndexDef)
    requires Sound(env, assign, v, rows)
    ensures OneName(v, a, b)
  {
  }

  /** A definition of the same name elsewhere is a document index's, which the
      stored batch does not touch. */
  lemma OtherStaysShown(env: Env, assign: Assignment, sys: System, ops: seq<WriteOp>, def: IndexDef, marks: map<Bytes, Dirty>, d: IndexDef)
    requires Inv(env, assign, sys) && KeepsCollection(sys.s, def) && !IsDocument(assign, def.collection)
    requires WithinAll(ops, {def.collection}) && forall k :: k in marks ==> DocumentKey(assign, k)
    requires View(sys.cells, marks).At(d.Key()) == Some(DefCell(d)) && d.name == def.name && d.collection != def.collection
    ensures View(ApplyAll(sys.cells, ops), marks).At(d.Key()) == Some(DefCell(d))
  {
    hide Mirrors;
    hide TwoViews;
    hide Agrees;
    hide Sound;
    DefKeyCollection(d);
    hide CollectionOf;
    hide ApplyAll;
    if IsDocument(assign, d.collection) {
      DirectBatch(assign, sys.cells, ops, {def.collection}, d.Key());
    } else {
      StateNamesOnce(sys.cells, sys.s, d);
    }
  }

  /** A durable build leaves a view exact exactly when its name was free there. */
  lemma BuildSoundIff(env: Env, assign: Assignment, sys: System, def: IndexDef, listed: seq<Listed>)
    requires Inv(env, assign, sys) && Enabled(env, assign, sys, BuildStored(def, listed))
    ensures var next := Next(env, assign, sys, BuildStored(def, listed));
      && (Sound(env, assign, Bare(next.cells), next.stored) <==> NameFree(Bare(sys.cells), def))
      && (Staged(sys) ==> (Sound(env, assign, StagedView(next), StagedRows(assign, next)) <==> NameFree(StagedView(sys), def)))
  {
    hide Sound;
    hide Installed;
    hide ListsAll;
    hide NameFree;
    hide MemoryOk;
    hide CollectionOf;
    var next := Next(env, assign, sys, BuildStored(def, listed));
    if Sound(env, assign, Bare(next.cells), next.stored) {
      TakenNameIsSeen(env, assign, sys, def, listed, map[], next.stored);
    }
    if NameFree(Bare(sys.cells), def) { FreeNameIsSound(env, assign, sys, def, listed, map[], sys.stored); }
    if Staged(sys) {
      StagedMarksAreDocuments(env, assign, sys);
      var f := sys.flight.value;
      if Sound(env, assign, StagedView(next), StagedRows(assign, next)) {
        TakenNameIsSeen(env, assign, sys, def, listed, f.marks, StagedRows(assign, next));
      }
      if NameFree(StagedView(sys), def) { FreeNameIsSound(env, assign, sys, def, listed, f.marks, StagedRows(assign, sys)); }
    }
  }

  lemma StagedMarksAreDocuments(env: Env, assign: Assignment, sys: System)
    requires Inv(env, assign, sys) && sys.flight.Some?
    ensures forall k :: k in sys.flight.value.marks ==> DocumentKey(assign, k)
  {
    hide Sound;
    hide Mirrors;
    hide TwoViews;
    hide Agrees;
    hide DocumentKey;
  }

  lemma FreeNameIsSound(env: Env, assign: Assignment, sys: System, def: IndexDef, listed: seq<Listed>,
                        marks: map<Bytes, Dirty>, before: Rows)
    requires Inv(env, assign, sys) && Enabled(env, assign, sys, BuildStored(def, listed))
    requires forall k :: k in marks ==> DocumentKey(assign, k)
    requires Sound(env, assign, View(sys.cells, marks), before) && NameFree(View(sys.cells, marks), def)
    requires forall ref: DocRef :: !IsDocument(assign, ref.0) ==> RowOf(before, ref) == RowOf(sys.rows, ref)
    ensures Sound(env, assign, View(Next(env, assign, sys, BuildStored(def, listed)).cells, marks), before)
  {
    hide Sound;
    hide Installed;
    hide ListsAll;
    hide Mirrors;
    hide TwoViews;
    hide Agrees;
    hide CollectionOf;
    hide ApplyAll;
    hide NameFree;
    var t := Installed(env, Collecting(sys.s), def, listed);
    BuiltMemory(env, assign, sys, def, listed);
    NamesAlreadyApart(env, assign, sys, marks, before);
    FreeStaysApart(assign, View(sys.cells, marks), sys.s.defs, def);
    StoredView(env, assign, sys, t, sys.rows, {def.collection}, marks, before, before);
  }

  ghost predicate SoundThroughout(env: Env, assign: Assignment, sys: System, steps: seq<Step>)
    requires Legal(env, assign, sys, steps)
    decreases |steps|
  {
    StorageSound(env, assign, sys)
    && (steps == [] || SoundThroughout(env, assign, Next(env, assign, sys, steps[0]), steps[1..]))
  }

  /** Along any run storage stays exact, now and once a staged flush commits,
      exactly when every index stored at once takes a free name. */
  lemma {:induction false} SoundThroughoutIff(env: Env, assign: Assignment, sys: System, steps: seq<Step>)
    requires Inv(env, assign, sys) && Legal(env, assign, sys, steps)
    ensures SoundThroughout(env, assign, sys, steps) <==> NamesFree(env, assign, sys, steps)
    decreases |steps|
  {
    hide Inv;
    hide Enabled;
    hide Next;
    hide NameIsFree;
    hide StorageSound;
    InvIsSound(env, assign, sys);
    if steps != [] {
      var next := Next(env, assign, sys, steps[0]);
      if NameIsFree(sys, steps[0]) {
        StepKeepsInv(env, assign, sys, steps[0]);
        SoundThroughoutIff(env, assign, next, steps[1..]);
      } else {
        TakenNameIsUnsound(env, assign, sys, steps[0]);
      }
    }
  }

  lemma TakenNameIsUnsound(env: Env, assign: Assignment, sys: System, step: Step)
    requires Inv(env, assign, sys) && Enabled(env, assign, sys, step) && !NameIsFree(sys, step)
    ensures !StorageSound(env, assign, Next(env, assign, sys, step))
  {
    hide Inv;
    hide Sound;
    hide NameFree;
    hide ListsAll;
    BuildSoundIff(env, assign, sys, step.def, step.listed);
  }

  lemma InvIsSound(env: Env, assign: Assignment, sys: System)
    requires Inv(env, assign, sys)
    ensures StorageSound(env, assign, sys)
  {
    hide MemoryOk;
    hide Sound;
  }

  /** A flush that runs to its end with nothing in between leaves storage with
      every row and nothing pending. */
  lemma FlushCatchesUp(env: Env, assign: Assignment, sys: System)
    requires Inv(env, assign, sys) && sys.flight.None?
    ensures Legal(env, assign, sys, [Stage, Commit, Acknowledge])
    ensures var after := End(env, assign, sys, [Stage, Commit, Acknowledge]);
      after.s.dirty == map[] && after.flight == None
      && forall ref :: RowOf(after.stored, ref) == RowOf(sys.rows, ref)
  {
    var staged := Next(env, assign, sys, Stage);
    var committed := Next(env, assign, staged, Commit);
    var after := Next(env, assign, committed, Acknowledge);
    var steps := [Stage, Commit, Acknowledge];
    assert steps[1..] == [Commit, Acknowledge] && steps[1..][1..] == [Acknowledge] && steps[1..][1..][1..] == [];
    assert End(env, assign, sys, steps) == End(env, assign, staged, steps[1..])
        == End(env, assign, committed, steps[1..][1..]) == End(env, assign, after, []) == after;
    assert DirectRowsStored(assign, sys.rows, sys.stored);
    hide Inv;
    forall ref ensures RowOf(after.stored, ref) == RowOf(sys.rows, ref) {
      MergeRow(assign, sys.rows, sys.stored, ref);
    }
  }
}
