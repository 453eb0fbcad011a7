/** What a crash finds in storage after a collection's indexes are moved to
    another engine and before the flush. */
module Moves {
  import opened Options
  import opened ByteOrder
  import opened Utf8
  import opened Key
  import opened Document
  import opened Store
  import opened Maintain
  import opened Install
  import opened Views
  import opened Durable
  import opened Runs
  import Ddl
  import Pending

  // ── The stored cells after a move ─────────────────────────────────────────

  lemma {:induction false} LatestOfDeletes(keys: seq<Bytes>, k: Bytes, before: Option<Cell>)
    ensures Latest(Ddl.DeleteOps(keys), k, before) == if k in keys then None else before
    decreases |keys|
  {
    if keys != [] {
      var init, last := keys[..|keys| - 1], keys[|keys| - 1];
      assert forall x :: x in keys <==> x in init || x == last;
      LatestOfDeletes(init, k, before);
    }
  }

  /** The entry goes from storage with the move. */
  ghost predicate ClearedNow(s: State, defs: seq<IndexDef>, k: Bytes) {
    exists d :: d in defs && Ddl.IsDurable(d) && k in s.entries && StartsWith(k, d.EntryPrefix())
  }

  function MovedCell(engine: Engine, def: IndexDef, before: Option<Cell>): Option<Cell> {
    if engine != DocumentRows then Some(DefCell(def.(engine := engine))) else before
  }

  lemma MoveOneCells(cells: Cells, s: State, def: IndexDef, engine: Engine, k: Bytes)
    requires Ddl.Ready(s)
    ensures Seen(ApplyAll(cells, Ddl.MoveOne(s, def, engine).ops), k) ==
      if k == def.Key() then MovedCell(engine, def, Seen(cells, k))
      else if Ddl.IsDurable(def) && k in s.entries && StartsWith(k, def.EntryPrefix()) then None
      else Seen(cells, k)
  {
    hide PrefixScan;
    hide ApplyAll;
    hide Ddl.MoveOne;
    var keys := PrefixScan(s.entries, def.EntryPrefix());
    PrefixScanExact(s.entries, def.EntryPrefix());
    assert k in keys <==> k in s.entries && StartsWith(k, def.EntryPrefix());
    DefKeyIsNoEntry(def);
    HeldIsListed(s, def.Key());
    hide TwoViews;
    hide StartsWith;
    Ddl.ChangeOneOps(s, Ddl.Move(engine), def);
    BatchShows(cells, Ddl.MoveOne(s, def, engine).ops, k);
    var doomed := if Ddl.IsDurable(def) then Ddl.DeleteOps(keys) else [];
    if Ddl.IsDurable(def) { LatestOfDeletes(keys, k, Seen(cells, k)); }
    if engine != DocumentRows {
      var next := def.(engine := engine);
      assert (doomed + [Put(next.Key(), DefCell(next))])[..|doomed|] == doomed;
    } else {
      assert doomed + [] == doomed;
    }
  }

  lemma {:induction false} MovedCells(cells: Cells, s: State, engine: Engine, defs: seq<IndexDef>, k: Bytes)
    requires Ddl.Ready(s) && Ddl.DistinctNames(defs) && forall d :: d in defs ==> d.name in s.defs && s.defs[d.name] == d
    ensures var after := Seen(ApplyAll(cells, Ddl.ChangeAll(s, Ddl.Move(engine), defs).ops), k);
      && (forall d :: d in defs && k == d.Key() ==> after == MovedCell(engine, d, Seen(cells, k)))
      && (!Pending.DefKeyOf(defs, k) ==> after == if ClearedNow(s, defs, k) then None else Seen(cells, k))
    decreases |defs|
  {
    hide StartsWith;
    hide Ddl.MoveOne;
    if defs == [] {
      assert ApplyAll(cells, []) == cells;
    } else {
      hide ApplyAll;
      var init, last := defs[..|defs| - 1], defs[|defs| - 1];
      assert forall d :: d in defs <==> d in init || d == last;
      Ddl.LastIsApart(defs);
      MovedCells(cells, s, engine, init, k);
      Ddl.ChangeAllApart(s, Ddl.Move(engine), init, last);
      var before := Ddl.ChangeAll(s, Ddl.Move(engine), init);
      Ddl.BatchesJoin(cells, before.ops, Ddl.MoveOne(before.state, last, engine).ops);
      MoveOneCells(ApplyAll(cells, before.ops), before.state, last, engine, k);
      assert k in Under(before.state.entries, last.EntryPrefix()) <==> k in Under(s.entries, last.EntryPrefix());
      hide Ddl.Ready;
      forall d | d in init && (k == d.Key() || StartsWith(k, d.EntryPrefix()))
        ensures k != last.Key() && !StartsWith(k, last.EntryPrefix())
      {
        Ddl.OtherKeys(last, d, k);
      }
      if k == last.Key() { Ddl.DefKeyNotUnder(last, last); }
    }
  }

  // ── When storage is sound at that point ───────────────────────────────────

  /** The indexes memory declares on a collection, all of them. */
  ghost predicate IndexesOf(s: State, collection: Ident, defs: seq<IndexDef>) {
    && Ddl.DistinctNames(defs)
    && (forall d :: d in defs ==> d.name in s.defs && s.defs[d.name] == d && d.collection == collection)
    && (forall n :: n in s.defs && s.defs[n].collection == collection ==> s.defs[n] in defs)
  }

  ghost function Moved(sys: System, engine: Engine, defs: seq<IndexDef>): Cells {
    ApplyAll(sys.cells, Ddl.ChangeAll(sys.s, Ddl.Move(engine), defs).ops)
  }

  function Reassign(assign: Assignment, collection: Ident, engine: Engine): Assignment {
    (c: Ident) => if c == collection then engine else assign(c)
  }

  /** The stored definitions name another engine after the move, which has no row
      of the collection yet. A move to documents is stored only by the flush. */
  predicate Renamed(assign: Assignment, collection: Ident, engine: Engine) {
    engine != DocumentRows && engine != assign(collection)
  }

  /** The engine and the rows a crash leaves the stored definitions with. */
  function CrashAssign(assign: Assignment, collection: Ident, engine: Engine): Assignment {
    if Renamed(assign, collection, engine) then Reassign(assign, collection, engine) else assign
  }

  function CrashRows(assign: Assignment, stored: Rows, collection: Ident, engine: Engine): Rows {
    if Renamed(assign, collection, engine) then Ddl.WithoutCollection(stored, collection) else stored
  }

  ghost predicate NoEntryStored(cells: Cells, collection: Ident) {
    forall k :: RefOf(k).Some? && RefOf(k).value.0 == collection ==> Seen(cells, k) != Some(EntryCell)
  }

  /** No definition on the collection is stored whose drop still waits. */
  ghost predicate StoredAreDeclared(cells: Cells, s: State, collection: Ident) {
    forall d: IndexDef :: d.collection == collection && Seen(cells, d.Key()) == Some(DefCell(d)) ==>
      d.name in s.defs && s.defs[d.name].collection == collection
  }

  ghost predicate NamesAreFree(cells: Cells, defs: seq<IndexDef>) {
    forall d :: d in defs ==> NameFree(Bare(cells), d)
  }

  /** Documents moved to another engine: nothing of them is stored. Rows moved to
      documents, or declared again: no entry is. Rows moved to another engine that
      stores directly: always. */
  ghost predicate CrashIsSafe(assign: Assignment, sys: System, collection: Ident, engine: Engine, defs: seq<IndexDef>) {
    if IsDocument(assign, collection)
    then engine == DocumentRows
         || (NoEntryStored(sys.cells, collection) && StoredAreDeclared(sys.cells, sys.s, collection) && NamesAreFree(sys.cells, defs))
    else Renamed(assign, collection, engine) || NoEntryStored(sys.cells, collection)
  }

  /** After a move of all a collection's indexes between any engines, and before
      the flush, storage is exact for the rows it holds exactly when the crash is
      safe in this sense. */
  lemma MoveSoundIff(env: Env, assign: Assignment, sys: System, collection: Ident, engine: Engine, defs: seq<IndexDef>)
    requires Inv(env, assign, sys) && IndexesOf(sys.s, collection, defs)
    ensures Sound(env, CrashAssign(assign, collection, engine), Bare(Moved(sys, engine, defs)),
                  CrashRows(assign, sys.stored, collection, engine))
       <==> CrashIsSafe(assign, sys, collection, engine, defs)
  {
    hide Inv;
    hide Sound;
    hide IndexesOf;
    hide Moved;
    hide NoEntryStored;
    hide StoredAreDeclared;
    hide NamesAreFree;
    if Renamed(assign, collection, engine) {
      RenamedSoundIff(env, assign, sys, collection, engine, defs);
      if IsDocument(assign, collection) {
        DocumentEntriesStay(env, assign, sys, collection, engine, defs);
      } else {
        DirectIsReady(env, assign, sys, collection, engine, defs);
      }
    } else {
      KeptSoundIff(env, assign, sys, collection, engine, defs);
    }
  }

  // ── The definitions keep their engine in storage ──────────────────────────

  lemma DirectIsStored(env: Env, assign: Assignment, sys: System, k: Bytes)
    requires Inv(env, assign, sys) && DirectKey(assign, k)
    ensures Seen(sys.cells, k) == Told(sys.s, k)
  {
    hide CollectionOf;
    hide Sound;
    hide Agrees;
    hide Told;
    hide TwoViews;
    FormatKeyIsApart(assign);
    assert Shown(sys.cells, sys.s, k) == Told(sys.s, k);
  }

  lemma InvIsReady(env: Env, assign: Assignment, sys: System)
    requires Inv(env, assign, sys)
    ensures Ddl.Ready(sys.s) && Engines(sys.s.defs, assign) && Sound(env, assign, Bare(sys.cells), sys.stored) && IsCurrent(sys.cells)
  {
    hide TwoViews;
    hide Sound;
    hide Agrees;
    hide Mirrors;
    hide CollectionOf;
  }

  /** An entry of a collection stored directly, in memory and in storage. */
  lemma DirectEntry(env: Env, assign: Assignment, sys: System, collection: Ident, defs: seq<IndexDef>, k: Bytes)
    requires Inv(env, assign, sys) && IndexesOf(sys.s, collection, defs) && !IsDocument(assign, collection)
    requires RefOf(k).Some? && RefOf(k).value.0 == collection
    ensures Seen(sys.cells, k) == Some(EntryCell) <==> ClearedNow(sys.s, defs, k)
    ensures ClearedNow(sys.s, defs, k) <==> k in sys.s.entries
  {
    hide Sound;
    hide TwoViews;
    InvIsReady(env, assign, sys);
    DirectIsStored(env, assign, sys, k);
    hide Inv;
    EntryIsNoDef(k);
    if k in sys.s.entries {
      var p := ParseEntry(k).value;
      EntryHasDef(env, assign, sys, k);
      var d := sys.s.defs[p.index];
      UnderOwnPrefixOnly(k, d.collection, d.name);
      assert d in defs;
    }
  }

  lemma EntryHasDef(env: Env, assign: Assignment, sys: System, k: Bytes)
    requires Inv(env, assign, sys) && k in sys.s.entries
    ensures ParseEntry(k).Some? && var p := ParseEntry(k).value; p.index in sys.s.defs && sys.s.defs[p.index].collection == p.collection
    ensures sys.s.defs[ParseEntry(k).value.index].name == ParseEntry(k).value.index
  {
    hide Sound;
    hide Mirrors;
    hide CollectionOf;
    assert Agrees(env, sys.s, sys.rows);
    AgreementOwns(env, sys.s, sys.rows);
    hide Agrees;
  }

  /** Where the stored definitions keep their engine, the move takes from storage
      the entries of a collection stored directly, and changes nothing else. */
  lemma KeptCell(env: Env, assign: Assignment, sys: System, collection: Ident, engine: Engine, defs: seq<IndexDef>, k: Bytes)
    requires Inv(env, assign, sys) && IndexesOf(sys.s, collection, defs) && !Renamed(assign, collection, engine)
    ensures Seen(Moved(sys, engine, defs), k) ==
      if !IsDocument(assign, collection) && RefOf(k).Some? && RefOf(k).value.0 == collection && Seen(sys.cells, k) == Some(EntryCell)
      then None else Seen(sys.cells, k)
  {
    hide Sound;
    hide TwoViews;
    hide Ddl.ChangeAll;
    hide ApplyAll;
    hide StartsWith;
    InvIsReady(env, assign, sys);
    MovedCells(sys.cells, sys.s, engine, defs, k);
    if d :| d in defs && k == d.Key() {
      DefKeyIsNoEntry(d);
      if engine != DocumentRows { DirectDef(env, assign, sys, d); }
    } else if RefOf(k).Some? && RefOf(k).value.0 == collection && !IsDocument(assign, collection) {
      DirectEntry(env, assign, sys, collection, defs, k);
    } else if ClearedNow(sys.s, defs, k) {
      var d :| d in defs && Ddl.IsDurable(d) && k in sys.s.entries && StartsWith(k, d.EntryPrefix());
      EntryOfDef(sys.s, d, k);
    }
  }

  lemma EntryOfDef(s: State, d: IndexDef, k: Bytes)
    requires Ddl.Ready(s) && k in s.entries && StartsWith(k, d.EntryPrefix())
    ensures RefOf(k).Some? && RefOf(k).value.0 == d.collection
  {
    HeldIsListed(s, k);
    UnderOwnPrefixOnly(k, d.collection, d.name);
  }

  lemma DirectDef(env: Env, assign: Assignment, sys: System, d: IndexDef)
    requires Inv(env, assign, sys) && d.name in sys.s.defs && sys.s.defs[d.name] == d && !IsDocument(assign, d.collection)
    ensures Seen(sys.cells, d.Key()) == Some(DefCell(d))
  {
    InvIsReady(env, assign, sys);
    DefKeyCollection(d);
    DirectIsStored(env, assign, sys, d.Key());
    hide Inv;
    hide Sound;
    DefKeyIsNoEntry(d);
    HeldIsListed(sys.s, d.Key());
    hide TwoViews;
    hide RefOf;
    hide ParseDef;
  }

  lemma KeptSoundIff(env: Env, assign: Assignment, sys: System, collection: Ident, engine: Engine, defs: seq<IndexDef>)
    requires Inv(env, assign, sys) && IndexesOf(sys.s, collection, defs) && !Renamed(assign, collection, engine)
    ensures Sound(env, assign, Bare(Moved(sys, engine, defs)), sys.stored)
       <==> IsDocument(assign, collection) || NoEntryStored(sys.cells, collection)
  {
    hide IndexesOf;
    hide Moved;
    hide Sound;
    hide RefOf;
    InvIsReady(env, assign, sys);
    var v, w := Bare(sys.cells), Bare(Moved(sys, engine, defs));
    forall k ensures w.At(k) ==
      if !IsDocument(assign, collection) && RefOf(k).Some? && RefOf(k).value.0 == collection && v.At(k) == Some(EntryCell) then None
      else v.At(k)
    {
      KeptCell(env, assign, sys, collection, engine, defs, k);
    }
    hide Inv;
    if IsDocument(assign, collection) || NoEntryStored(sys.cells, collection) {
      SameViewIsSound(env, assign, v, w, sys.stored, sys.stored);
    } else {
      var k :| RefOf(k).Some? && RefOf(k).value.0 == collection && Seen(sys.cells, k) == Some(EntryCell);
      SoundFaithful(env, assign, v, sys.stored, k);
      if Sound(env, assign, w, sys.stored) {
        SoundFaithful(env, assign, w, sys.stored, k);
        LostEntry(env, v, w, sys.stored, k);
      }
    }
  }

  /** An entry gone while its definition stays. */
  lemma LostEntry(env: Env, v: View, w: View, rows: Rows, k: Bytes)
    requires RefOf(k).Some? && v.At(k) == Some(EntryCell) && w.At(k) == None
    requires var owner := OwnerKey(ParseEntry(k).value); w.At(owner) == v.At(owner) || v.At(owner) == Some(EntryCell)
    ensures !(FaithfulOn(env, v, rows, k) && FaithfulOn(env, w, rows, k))
  {
  }

  // ── The definitions name another engine ───────────────────────────────────

  /** Storage `m` after such a move: the moved definitions are in place, and
      nothing else has changed but entries of the collection that went. */
  ghost predicate RenamedIn(cells: Cells, m: Cells, collection: Ident, engine: Engine, defs: seq<IndexDef>) {
    && (forall d :: d in defs ==> Seen(m, d.Key()) == Some(DefCell(d.(engine := engine))))
    && (forall k :: !Pending.DefKeyOf(defs, k) ==>
          Seen(m, k) == Seen(cells, k) || (Seen(m, k) == None && RefOf(k).Some? && RefOf(k).value.0 == collection))
  }

  lemma MovedIsRenamed(env: Env, assign: Assignment, sys: System, collection: Ident, engine: Engine, defs: seq<IndexDef>)
    requires Inv(env, assign, sys) && IndexesOf(sys.s, collection, defs) && Renamed(assign, collection, engine)
    ensures RenamedIn(sys.cells, Moved(sys, engine, defs), collection, engine, defs)
  {
    hide Sound;
    hide TwoViews;
    hide Ddl.ChangeAll;
    hide ApplyAll;
    hide StartsWith;
    hide RefOf;
    InvIsReady(env, assign, sys);
    hide Inv;
    forall d | d in defs ensures Seen(Moved(sys, engine, defs), d.Key()) == Some(DefCell(d.(engine := engine))) {
      MovedCells(sys.cells, sys.s, engine, defs, d.Key());
    }
    forall k | !Pending.DefKeyOf(defs, k)
      ensures var m := Moved(sys, engine, defs);
        Seen(m, k) == Seen(sys.cells, k) || (Seen(m, k) == None && RefOf(k).Some? && RefOf(k).value.0 == collection)
    {
      MovedCells(sys.cells, sys.s, engine, defs, k);
      if ClearedNow(sys.s, defs, k) {
        var d :| d in defs && Ddl.IsDurable(d) && k in sys.s.entries && StartsWith(k, d.EntryPrefix());
        EntryOfDef(sys.s, d, k);
      }
    }
  }

  /** What the stored definitions must be for the move. */
  ghost predicate DefsReady(cells: Cells, s: State, collection: Ident, defs: seq<IndexDef>) {
    StoredAreDeclared(cells, s, collection) && NamesAreFree(cells, defs)
  }

  lemma SameKey(a: IndexDef, b: IndexDef)
    ensures a.Key() == b.Key() <==> a.collection == b.collection && a.name == b.name
  {
    DefParses(a.collection, a.name);
    DefParses(b.collection, b.name);
  }

  ghost predicate NamedRightly(s: State) {
    forall n :: n in s.defs ==> s.defs[n].name == n
  }

  lemma RenamedKeyed(assign: Assignment, cells: Cells, m: Cells, s: State, collection: Ident, engine: Engine, defs: seq<IndexDef>, k: Bytes)
    requires RenamedIn(cells, m, collection, engine, defs) && IndexesOf(s, collection, defs) && NamedRightly(s)
    requires StoredAreDeclared(cells, s, collection) && KeyedOn(Bare(cells), assign, k)
    ensures KeyedOn(Bare(m), Reassign(assign, collection, engine), k)
  {
    hide ParseEntry;
    if d :| d in defs && k == d.Key() {
      SameKey(d, d.(engine := engine));
    } else {
      if k in cells && cells[k].DefCell? && cells[k].def.collection == collection {
        StoredIsMoved(assign, cells, s, collection, defs, k);
      }
      hide IndexesOf;
      hide StoredAreDeclared;
      hide NamedRightly;
    }
  }

  lemma StoredIsMoved(assign: Assignment, cells: Cells, s: State, collection: Ident, defs: seq<IndexDef>, k: Bytes)
    requires IndexesOf(s, collection, defs) && NamedRightly(s) && StoredAreDeclared(cells, s, collection)
    requires KeyedOn(Bare(cells), assign, k) && k in cells && cells[k].DefCell? && cells[k].def.collection == collection
    ensures Pending.DefKeyOf(defs, k)
  {
    hide ParseEntry;
    var e := cells[k].def;
    SameKey(e, s.defs[e.name]);
    assert s.defs[e.name] in defs;
  }

  lemma RenamedNames(cells: Cells, m: Cells, s: State, collection: Ident, engine: Engine, defs: seq<IndexDef>, a: IndexDef, b: IndexDef)
    requires RenamedIn(cells, m, collection, engine, defs) && IndexesOf(s, collection, defs) && NamesAreFree(cells, defs)
    requires OneName(Bare(cells), a, b)
    ensures OneName(Bare(m), a, b)
  {
    if Seen(m, a.Key()) == Some(DefCell(a)) && Seen(m, b.Key()) == Some(DefCell(b)) && a.name == b.name {
      StoredOrMoved(cells, m, collection, engine, defs, a);
      StoredOrMoved(cells, m, collection, engine, defs, b);
      hide RenamedIn;
      if a != b && Pending.DefKeyOf(defs, a.Key()) { OneOfAName(cells, m, s, collection, engine, defs, a, b); }
      if a != b && Pending.DefKeyOf(defs, b.Key()) { OneOfAName(cells, m, s, collection, engine, defs, b, a); }
    }
  }

  lemma StoredOrMoved(cells: Cells, m: Cells, collection: Ident, engine: Engine, defs: seq<IndexDef>, a: IndexDef)
    requires RenamedIn(cells, m, collection, engine, defs) && Seen(m, a.Key()) == Some(DefCell(a))
    ensures !Pending.DefKeyOf(defs, a.Key()) ==> Seen(cells, a.Key()) == Some(DefCell(a))
    ensures Pending.DefKeyOf(defs, a.Key()) ==> exists d :: d in defs && a.Key() == d.Key() && a == d.(engine := engine)
  {
  }

  lemma OneOfAName(cells: Cells, m: Cells, s: State, collection: Ident, engine: Engine, defs: seq<IndexDef>, a: IndexDef, b: IndexDef)
    requires RenamedIn(cells, m, collection, engine, defs) && IndexesOf(s, collection, defs) && NamesAreFree(cells, defs)
    requires Seen(m, a.Key()) == Some(DefCell(a)) && Seen(m, b.Key()) == Some(DefCell(b)) && a.name == b.name
    requires Pending.DefKeyOf(defs, a.Key())
    ensures a == b
  {
    StoredOrMoved(cells, m, collection, engine, defs, a);
    StoredOrMoved(cells, m, collection, engine, defs, b);
    hide RenamedIn;
    var d :| d in defs && a.Key() == d.Key() && a == d.(engine := engine);
    SameKey(d, b);
    assert NameFree(Bare(cells), d);
  }

  lemma RenamedFaithful(env: Env, cells: Cells, m: Cells, collection: Ident, engine: Engine, defs: seq<IndexDef>, stored: Rows, k: Bytes)
    requires RenamedIn(cells, m, collection, engine, defs) && FaithfulOn(env, Bare(cells), stored, k)
    requires forall d :: d in defs ==> d.collection == collection
    ensures FaithfulOn(env, Bare(m), Ddl.WithoutCollection(stored, collection), k)
       <==> !(RefOf(k).Some? && RefOf(k).value.0 == collection && Seen(m, k) == Some(EntryCell))
  {
    if RefOf(k).Some? {
      Pending.EntryIsNoDefKey(defs, k);
      var p := ParseEntry(k).value;
      if p.collection != collection {
        DefParses(p.collection, p.index);
        KindsAreDisjoint(OwnerKey(p));
        forall d | d in defs ensures OwnerKey(p) != d.Key() { DefParses(d.collection, d.name); }
        assert !Pending.DefKeyOf(defs, OwnerKey(p));
        hide ParseEntry;
        assert Seen(m, k) == Seen(cells, k) && Seen(m, OwnerKey(p)) == Seen(cells, OwnerKey(p));
      }
    }
  }

  lemma RenamedSoundIff(env: Env, assign: Assignment, sys: System, collection: Ident, engine: Engine, defs: seq<IndexDef>)
    requires Inv(env, assign, sys) && IndexesOf(sys.s, collection, defs) && Renamed(assign, collection, engine)
    ensures Sound(env, Reassign(assign, collection, engine), Bare(Moved(sys, engine, defs)), Ddl.WithoutCollection(sys.stored, collection))
       <==> NoEntryStored(Moved(sys, engine, defs), collection) && DefsReady(sys.cells, sys.s, collection, defs)
  {
    var m, next, rows := Moved(sys, engine, defs), Reassign(assign, collection, engine), Ddl.WithoutCollection(sys.stored, collection);
    InvIsReady(env, assign, sys);
    assert NamedRightly(sys.s);
    hide NamedRightly;
    MovedIsRenamed(env, assign, sys, collection, engine, defs);
    hide Inv;
    hide Moved;
    hide RenamedIn;
    hide Ddl.Ready;
    hide RefOf;
    hide Reassign;
    hide Ddl.WithoutCollection;
    if NoEntryStored(m, collection) && DefsReady(sys.cells, sys.s, collection, defs) {
      forall k ensures KeyedOn(Bare(m), next, k) { RenamedKeyed(assign, sys.cells, m, sys.s, collection, engine, defs, k); }
      forall a, b ensures OneName(Bare(m), a, b) { RenamedNames(sys.cells, m, sys.s, collection, engine, defs, a, b); }
      forall k ensures FaithfulOn(env, Bare(m), rows, k) { RenamedFaithful(env, sys.cells, m, collection, engine, defs, sys.stored, k); }
    } else if Sound(env, next, Bare(m), rows) {
      RenamedUnsound(env, assign, sys.cells, m, sys.s, collection, engine, defs, sys.stored);
    }
  }

  lemma RenamedUnsound(env: Env, assign: Assignment, cells: Cells, m: Cells, s: State, collection: Ident, engine: Engine,
                       defs: seq<IndexDef>, stored: Rows)
    requires Sound(env, assign, Bare(cells), stored) && RenamedIn(cells, m, collection, engine, defs) && IndexesOf(s, collection, defs)
    requires Renamed(assign, collection, engine)
    requires Sound(env, Reassign(assign, collection, engine), Bare(m), Ddl.WithoutCollection(stored, collection))
    ensures NoEntryStored(m, collection) && DefsReady(cells, s, collection, defs)
  {
    var next, rows := Reassign(assign, collection, engine), Ddl.WithoutCollection(stored, collection);
    hide RefOf;
    hide Ddl.WithoutCollection;
    forall k | RefOf(k).Some? && RefOf(k).value.0 == collection ensures Seen(m, k) != Some(EntryCell) {
      assert FaithfulOn(env, Bare(cells), stored, k) && FaithfulOn(env, Bare(m), rows, k);
      RenamedFaithful(env, cells, m, collection, engine, defs, stored, k);
    }
    forall d: IndexDef | d.collection == collection && Seen(cells, d.Key()) == Some(DefCell(d))
      ensures d.name in s.defs && s.defs[d.name].collection == collection
    {
      DeclaredToo(env, assign, cells, m, s, collection, engine, defs, d);
    }
    forall d, e: IndexDef | d in defs && Bare(cells).At(e.Key()) == Some(DefCell(e)) && e.name == d.name
      ensures e.collection == d.collection
    {
      if e.collection != d.collection { FreeToo(env, next, cells, m, collection, engine, defs, rows, d, e); }
    }
  }

  lemma DeclaredToo(env: Env, assign: Assignment, cells: Cells, m: Cells, s: State, collection: Ident, engine: Engine,
                    defs: seq<IndexDef>, d: IndexDef)
    requires RenamedIn(cells, m, collection, engine, defs) && IndexesOf(s, collection, defs) && Renamed(assign, collection, engine)
    requires KeyedOn(Bare(cells), assign, d.Key()) && KeyedOn(Bare(m), Reassign(assign, collection, engine), d.Key())
    requires d.collection == collection && Seen(cells, d.Key()) == Some(DefCell(d))
    ensures d.name in s.defs && s.defs[d.name].collection == collection
  {
    DefKeyIsNoEntry(d);
    hide RefOf;
    hide ParseDef;
    if e :| e in defs && d.Key() == e.Key() {
      SameKey(d, e);
    }
  }

  lemma FreeToo(env: Env, next: Assignment, cells: Cells, m: Cells, collection: Ident, engine: Engine, defs: seq<IndexDef>,
                rows: Rows, d: IndexDef, e: IndexDef)
    requires RenamedIn(cells, m, collection, engine, defs) && d in defs && forall x :: x in defs ==> x.collection == collection
    requires Seen(cells, e.Key()) == Some(DefCell(e)) && e.name == d.name && e.collection != collection
    ensures !Sound(env, next, Bare(m), rows)
  {
    var moved := d.(engine := engine);
    SameKey(moved, d);
    DefKeyIsNoEntry(e);
    forall x | x in defs ensures e.Key() != x.Key() { SameKey(e, x); }
    hide RefOf;
    hide ParseDef;
    assert !Pending.DefKeyOf(defs, e.Key());
    assert Seen(m, e.Key()) == Some(DefCell(e)) && Seen(m, moved.Key()) == Some(DefCell(moved));
    assert !OneName(Bare(m), moved, e);
  }

  /** Rows of an engine that stores directly are all ready for another such. */
  lemma DirectIsReady(env: Env, assign: Assignment, sys: System, collection: Ident, engine: Engine, defs: seq<IndexDef>)
    requires Inv(env, assign, sys) && IndexesOf(sys.s, collection, defs) && !IsDocument(assign, collection)
    ensures NoEntryStored(Moved(sys, engine, defs), collection) && DefsReady(sys.cells, sys.s, collection, defs)
  {
    hide Sound;
    hide TwoViews;
    hide Ddl.ChangeAll;
    hide ApplyAll;
    InvIsReady(env, assign, sys);
    forall k | RefOf(k).Some? && RefOf(k).value.0 == collection ensures Seen(Moved(sys, engine, defs), k) != Some(EntryCell) {
      MovedCells(sys.cells, sys.s, engine, defs, k);
      DirectEntry(env, assign, sys, collection, defs, k);
      Pending.EntryIsNoDefKey(defs, k);
    }
    forall d: IndexDef | d.collection == collection && Seen(sys.cells, d.Key()) == Some(DefCell(d))
      ensures d.name in sys.s.defs && sys.s.defs[d.name].collection == collection
    {
      DefKeyCollection(d);
      DirectIsStored(env, assign, sys, d.Key());
      DefKeyIsNoEntry(d);
    }
    forall d, e: IndexDef | d in defs && Bare(sys.cells).At(e.Key()) == Some(DefCell(e)) && e.name == d.name
      ensures e.collection == d.collection
    {
      DirectDef(env, assign, sys, d);
      NamedOnce(env, assign, Bare(sys.cells), sys.stored, d, e);
    }
  }

  lemma DocumentEntriesStay(env: Env, assign: Assignment, sys: System, collection: Ident, engine: Engine, defs: seq<IndexDef>)
    requires Inv(env, assign, sys) && IndexesOf(sys.s, collection, defs) && IsDocument(assign, collection)
    ensures NoEntryStored(Moved(sys, engine, defs), collection) <==> NoEntryStored(sys.cells, collection)
  {
    hide Inv;
    hide IndexesOf;
    hide Moved;
    hide RefOf;
    forall k | RefOf(k).Some? && RefOf(k).value.0 == collection ensures Seen(Moved(sys, engine, defs), k) == Seen(sys.cells, k) {
      StaysStored(env, assign, sys, collection, engine, defs, k);
    }
  }

  // ── What the next open loads ──────────────────────────────────────────────

  /** With nothing pending the stored definitions are those memory has. */
  lemma FlushedIsReady(env: Env, assign: Assignment, sys: System, collection: Ident, defs: seq<IndexDef>)
    requires Inv(env, assign, sys) && sys.s.dirty == map[] && IndexesOf(sys.s, collection, defs)
    ensures DefsReady(sys.cells, sys.s, collection, defs)
  {
    hide Sound;
    hide Agrees;
    hide CollectionOf;
    hide RefOf;
    forall d: IndexDef | Seen(sys.cells, d.Key()) == Some(DefCell(d)) ensures d.name in sys.s.defs && sys.s.defs[d.name] == d {
      StateNamesOnce(sys.cells, sys.s, d);
    }
    hide Mirrors;
    hide TwoViews;
  }

  /** What is stored of documents stays stored. */
  lemma StaysStored(env: Env, assign: Assignment, sys: System, collection: Ident, engine: Engine, defs: seq<IndexDef>, k: Bytes)
    requires Inv(env, assign, sys) && IndexesOf(sys.s, collection, defs) && IsDocument(assign, collection) && RefOf(k).Some?
    ensures Seen(Moved(sys, engine, defs), k) == Seen(sys.cells, k)
  {
    hide Sound;
    hide TwoViews;
    hide Ddl.ChangeAll;
    hide ApplyAll;
    InvIsReady(env, assign, sys);
    hide Inv;
    MovedCells(sys.cells, sys.s, engine, defs, k);
    Pending.EntryIsNoDefKey(defs, k);
  }

  /** The moved definitions are loaded with the entries of the rows that are not
      theirs. */
  lemma RenamedLoads(env: Env, assign: Assignment, sys: System, collection: Ident, engine: Engine, defs: seq<IndexDef>, d: IndexDef, k: Bytes)
    requires Inv(env, assign, sys) && IndexesOf(sys.s, collection, defs) && Renamed(assign, collection, engine)
    requires DefsReady(sys.cells, sys.s, collection, defs) && d in defs
    ensures var t := Loaded(Moved(sys, engine, defs));
      && d.name in t.defs && t.defs[d.name] == d.(engine := engine)
      && (k in t.entries <==> Seen(Moved(sys, engine, defs), k) == Some(EntryCell))
  {
    var m, next := Moved(sys, engine, defs), Reassign(assign, collection, engine);
    InvIsReady(env, assign, sys);
    assert NamedRightly(sys.s);
    hide NamedRightly;
    MovedIsRenamed(env, assign, sys, collection, engine, defs);
    hide Inv;
    hide Moved;
    hide Ddl.Ready;
    hide RefOf;
    hide Reassign;
    hide Loaded;
    FormatStays(sys.cells, m, collection, engine, defs);
    SameKey(d, d.(engine := engine));
    assert Seen(m, d.(engine := engine).Key()) == Some(DefCell(d.(engine := engine)));
    hide RenamedIn;
    forall x ensures KeyedOn(Bare(m), next, x) { RenamedKeyed(assign, sys.cells, m, sys.s, collection, engine, defs, x); }
    forall a, b ensures OneName(Bare(m), a, b) { RenamedNames(sys.cells, m, sys.s, collection, engine, defs, a, b); }
    LoadedShows(next, m, d.(engine := engine), k);
  }

  lemma FormatStays(cells: Cells, m: Cells, collection: Ident, engine: Engine, defs: seq<IndexDef>)
    requires RenamedIn(cells, m, collection, engine, defs) && IsCurrent(cells)
    ensures IsCurrent(m)
  {
    forall d | d in defs ensures d.Key() != FormatKey() { DefKeyIsNoEntry(d); }
    assert !Pending.DefKeyOf(defs, FormatKey());
    KindsAreDisjoint(FormatKey());
  }

  /** Cells taken away leave the others in order. */
  lemma FewerInOrder(assign: Assignment, cells: Cells, m: Cells)
    requires forall k :: Seen(m, k) == Seen(cells, k) || Seen(m, k) == None
    requires (forall k :: KeyedOn(Bare(cells), assign, k)) && forall a, b :: OneName(Bare(cells), a, b)
    ensures (forall k :: KeyedOn(Bare(m), assign, k)) && forall a, b :: OneName(Bare(m), a, b)
  {
    hide ParseEntry;
    forall k ensures KeyedOn(Bare(m), assign, k) {
      assert KeyedOn(Bare(cells), assign, k);
      assert Seen(m, k) == Seen(cells, k) || Seen(m, k) == None;
    }
    forall a: IndexDef, b: IndexDef ensures OneName(Bare(m), a, b) {
      assert OneName(Bare(cells), a, b);
      assert Seen(m, a.Key()) == Seen(cells, a.Key()) || Seen(m, a.Key()) == None;
      assert Seen(m, b.Key()) == Seen(cells, b.Key()) || Seen(m, b.Key()) == None;
    }
  }

  /** The definitions that kept their engine are loaded without the entries that
      went. */
  lemma KeptLoads(env: Env, assign: Assignment, sys: System, collection: Ident, engine: Engine, defs: seq<IndexDef>, d: IndexDef, k: Bytes)
    requires Inv(env, assign, sys) && IndexesOf(sys.s, collection, defs) && !Renamed(assign, collection, engine)
    requires Seen(sys.cells, d.Key()) == Some(DefCell(d))
    ensures var t := Loaded(Moved(sys, engine, defs));
      && d.name in t.defs && t.defs[d.name] == d
      && (k in t.entries <==> Seen(Moved(sys, engine, defs), k) == Some(EntryCell))
  {
    var m := Moved(sys, engine, defs);
    InvIsReady(env, assign, sys);
    hide Inv;
    hide Moved;
    hide IndexesOf;
    hide Ddl.Ready;
    hide Loaded;
    DefKeyIsNoEntry(d);
    KindsAreDisjoint(FormatKey());
    KeptCell(env, assign, sys, collection, engine, defs, FormatKey());
    KeptCell(env, assign, sys, collection, engine, defs, d.Key());
    hide RefOf;
    forall x ensures Seen(m, x) == Seen(sys.cells, x) || Seen(m, x) == None {
      KeptCell(env, assign, sys, collection, engine, defs, x);
    }
    FewerInOrder(assign, sys.cells, m);
    hide KeyedOn;
    hide OneName;
    hide FaithfulOn;
    LoadedShows(assign, m, d, k);
  }
}
