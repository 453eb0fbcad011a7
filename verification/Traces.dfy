/** What a change leaves behind for storage: dirty marks when it is left for the
    flush, collected writes when it is committed at once, and only on keys of
    the collections it touches. */
module Traces {
  import opened Options
  import opened ByteOrder
  import opened Utf8
  import opened Document
  import opened Store
  import opened Maintain
  import opened Install
  import opened Views

  predicate Within(key: Bytes, collections: set<Ident>) {
    CollectionOf(key).Some? && CollectionOf(key).value in collections
  }

  ghost predicate WithinAll(ops: seq<WriteOp>, collections: set<Ident>) {
    forall i :: 0 <= i < |ops| ==> Within(ops[i].key, collections)
  }

  /** `marks` moved on to `later`: no mark is lost, and one that changed is newer
      than `version` and on a touched key. */
  ghost predicate Grown(marks: map<Bytes, Dirty>, later: map<Bytes, Dirty>, version: nat, collections: set<Ident>) {
    && marks.Keys <= later.Keys
    && (forall k :: k in later ==>
          || (k in marks && later[k] == marks[k])
          || (later[k].version > version && Within(k, collections)))
  }

  ghost predicate Bounded(marks: map<Bytes, Dirty>, version: nat) {
    forall k :: k in marks ==> marks[k].version <= version
  }

  /** From `s` to `t` only keys of `collections` were written. */
  ghost predicate Traced(s: State, t: State, collections: set<Ident>) {
    match s.sink
    case None =>
      t.sink.None? && s.nextSeq <= t.nextSeq && Grown(s.dirty, t.dirty, s.nextSeq, collections)
      && (Bounded(s.dirty, s.nextSeq) ==> Bounded(t.dirty, t.nextSeq))
    case Some(ops) =>
      t.sink.Some? && ops <= t.sink.value && WithinAll(t.sink.value[|ops|..], collections)
      && t.dirty == s.dirty && t.nextSeq == s.nextSeq
  }

  lemma TracedReflexive(s: State, collections: set<Ident>)
    ensures Traced(s, s, collections)
  {
  }

  lemma TracedTransitive(s: State, t: State, u: State, collections: set<Ident>)
    requires Traced(s, t, collections) && Traced(t, u, collections)
    ensures Traced(s, u, collections)
  {
    hide CollectionOf;
    if s.sink.Some? {
      var a, b, c := s.sink.value, t.sink.value, u.sink.value;
      assert c[|a|..] == b[|a|..] + c[|b|..];
    }
  }

  lemma MarkTraced(s: State, key: Bytes, cell: Option<Cell>, collections: set<Ident>)
    requires Within(key, collections)
    ensures Traced(s, Mark(s, key, cell), collections)
  {
    hide CollectionOf;
    if s.sink.Some? {
      var ops := s.sink.value;
      assert (ops + [OpFor(key, cell)])[|ops|..] == [OpFor(key, cell)];
    }
  }

  /** Only the storage side of a state matters to its trace. */
  lemma TracedByStorage(s: State, t: State, u: State, v: State, collections: set<Ident>)
    requires Traced(s, t, collections)
    requires u.dirty == s.dirty && u.nextSeq == s.nextSeq && u.sink == s.sink
    requires v.dirty == t.dirty && v.nextSeq == t.nextSeq && v.sink == t.sink
    ensures Traced(u, v, collections)
  {
    hide CollectionOf;
  }

  function CellFor(op: EntryOp): Option<Cell> {
    if op.PutEntry? then Some(EntryCell) else None
  }

  lemma ChangeMarks(s: State, ref: DocRef, op: EntryOp)
    ensures var t, u := Change(s, ref, op), Mark(s, op.key, CellFor(op));
      t.dirty == u.dirty && t.nextSeq == u.nextSeq && t.sink == u.sink
  {
  }

  lemma ChangeTraced(s: State, ref: DocRef, op: EntryOp, collections: set<Ident>)
    requires RefOf(op.key) == Some(ref) && ref.0 in collections
    ensures Traced(s, Change(s, ref, op), collections)
  {
    assert Within(op.key, collections);
    hide Within;
    hide RefOf;
    hide Traced;
    hide Change;
    hide Mark;
    MarkTraced(s, op.key, CellFor(op), collections);
    ChangeMarks(s, ref, op);
    TracedByStorage(s, Mark(s, op.key, CellFor(op)), s, Change(s, ref, op), collections);
  }

  lemma {:induction false} ApplyTraced(s: State, ref: DocRef, ops: seq<EntryOp>, collections: set<Ident>)
    requires AllOn(ops, ref) && ref.0 in collections
    ensures Traced(s, Apply(s, ref, ops), collections)
    decreases |ops|
  {
    hide RefOf;
    hide Traced;
    if ops == [] {
      TracedReflexive(s, collections);
    } else {
      var init := ops[..|ops| - 1];
      ApplyTraced(s, ref, init, collections);
      ChangeTraced(Apply(s, ref, init), ref, ops[|ops| - 1], collections);
      TracedTransitive(s, Apply(s, ref, init), Apply(s, ref, ops), collections);
    }
  }

  ghost predicate AllWithin(keys: seq<Bytes>, collections: set<Ident>) {
    forall k :: k in keys ==> RefOf(k).Some? && RefOf(k).value.0 in collections
  }

  lemma {:induction false} ClearAllTraced(s: State, doomed: seq<Bytes>, collections: set<Ident>)
    requires AllWithin(doomed, collections)
    ensures Traced(s, ClearAll(s, doomed), collections)
    decreases |doomed|
  {
    hide RefOf;
    hide Traced;
    if doomed == [] {
      TracedReflexive(s, collections);
    } else {
      var init, last := doomed[..|doomed| - 1], doomed[|doomed| - 1];
      assert forall k :: k in init ==> k in doomed;
      ClearAllTraced(s, init, collections);
      ChangeTraced(ClearAll(s, init), RefOf(last).value, DeleteEntry(last), collections);
      TracedTransitive(s, ClearAll(s, init), ClearAll(s, doomed), collections);
    }
  }

  lemma ClearPrefixTraced(s: State, def: IndexDef, collections: set<Ident>)
    requires TwoViews(s) && def.collection in collections
    ensures Traced(s, ClearPrefix(s, def.EntryPrefix()), collections)
  {
    hide Traced;
    var doomed := PrefixScan(s.entries, def.EntryPrefix());
    PrefixScanExact(s.entries, def.EntryPrefix());
    forall k | k in doomed ensures RefOf(k).Some? && RefOf(k).value.0 in collections {
      EntryUnder(s, def, k);
    }
    hide PrefixScan;
    ClearAllTraced(s, doomed, collections);
  }

  lemma DefKeyWithin(def: IndexDef, collections: set<Ident>)
    requires def.collection in collections
    ensures Within(def.Key(), collections)
  {
    DefKeyIsNoEntry(def);
  }

  lemma PutDefTraced(s: State, def: IndexDef, collections: set<Ident>)
    requires def.collection in collections
    ensures Traced(s, PutDef(s, def), collections)
  {
    hide Traced;
    DefKeyWithin(def, collections);
    MarkTraced(s, def.Key(), Some(DefCell(def)), collections);
    TracedByStorage(s, Mark(s, def.Key(), Some(DefCell(def))), s, PutDef(s, def), collections);
  }

  lemma RemoveDefTraced(s: State, name: Ident, collections: set<Ident>)
    requires TwoViews(s) && name in s.defs && s.defs[name].collection in collections
    ensures Traced(s, RemoveDef(s, name), collections)
  {
    hide Traced;
    hide ClearPrefix;
    var def := s.defs[name];
    var bare := s.(defs := s.defs - {name});
    assert TwoViews(bare);
    hide TwoViews;
    var cleared := ClearPrefix(bare, def.EntryPrefix());
    ClearPrefixTraced(bare, def, collections);
    DefKeyWithin(def, collections);
    MarkTraced(cleared, def.Key(), None, collections);
    TracedTransitive(bare, cleared, RemoveDef(s, name), collections);
    TracedByStorage(bare, RemoveDef(s, name), s, RemoveDef(s, name), collections);
  }

  lemma SettleTraced(env: Env, s: State, names: set<Ident>, ref: DocRef, row: Option<Value>, collections: set<Ident>)
    requires TwoViews(s) && names <= s.defs.Keys && forall n :: n in names ==> s.defs[n].collection == ref.0
    requires ref.0 in collections
    ensures Traced(s, Settle(env, s, names, ref, row), collections)
  {
    hide Traced;
    hide TwoViews;
    SettlePlanStaysOn(env, s, names, ref, row);
    ApplyTraced(s, ref, PlanOps(Held(s, ref), NewKeys(env, s.defs, names, ref.1, row)), collections);
  }

  lemma {:induction false} ResyncAllTraced(env: Env, s: State, names: set<Ident>, collection: Ident, ids: seq<Text>, rows: Rows)
    requires TwoViews(s) && names <= s.defs.Keys && forall n :: n in names ==> s.defs[n].collection == collection
    ensures Traced(s, ResyncAll(env, s, names, collection, ids, rows), {collection})
    decreases |ids|
  {
    hide Traced;
    hide TwoViews;
    hide Settle;
    if ids == [] {
      TracedReflexive(s, {collection});
    } else {
      var init, last := ids[..|ids| - 1], ids[|ids| - 1];
      ResyncAllTraced(env, s, names, collection, init, rows);
      ResyncAllMoves(env, s, names, collection, init, rows);
      var t := ResyncAll(env, s, names, collection, init, rows);
      var ref := (collection, last);
      SettleTraced(env, t, names, ref, LiveRow(t, rows, ref), {collection});
      TracedTransitive(s, t, ResyncAll(env, s, names, collection, ids, rows), {collection});
    }
  }

  lemma {:induction false} PutRowsTraced(env: Env, s: State, def: IndexDef, rows: seq<Listed>)
    ensures Traced(s, PutRows(env, s, def, rows), {def.collection})
    decreases |rows|
  {
    hide Traced;
    if rows == [] {
      TracedReflexive(s, {def.collection});
    } else {
      var init, last := rows[..|rows| - 1], rows[|rows| - 1];
      PutRowsTraced(env, s, def, init);
      RowPutsStayOn(env, def, last);
      var t := PutRows(env, s, def, init);
      ApplyTraced(t, (def.collection, last.0), Puts(Ascending(EntryKeys(env, def, last.0, last.1))), {def.collection});
      TracedTransitive(s, t, PutRows(env, s, def, rows), {def.collection});
    }
  }

  lemma InstalledTraced(env: Env, s: State, def: IndexDef, rows: seq<Listed>)
    requires TwoViews(s) && KeepsCollection(s, def)
    ensures Traced(s, Installed(env, s, def, rows), {def.collection})
  {
    hide Traced;
    hide TwoViews;
    hide ClearPrefix;
    hide PutRows;
    var cs := {def.collection};
    var first := if def.name in s.defs then ClearPrefix(s, s.defs[def.name].EntryPrefix()) else s;
    if def.name in s.defs {
      ClearPrefixRemoves(s, s.defs[def.name].EntryPrefix());
      ClearPrefixTraced(s, s.defs[def.name], cs);
    } else {
      TracedReflexive(s, cs);
    }
    ClearPrefixTraced(first, def, cs);
    TracedTransitive(s, first, Cleared(s, def), cs);
    PutDefTraced(Cleared(s, def), def, cs);
    TracedTransitive(s, Cleared(s, def), PutDef(Cleared(s, def), def), cs);
    PutRowsTraced(env, PutDef(Cleared(s, def), def), def, rows);
    TracedTransitive(s, PutDef(Cleared(s, def), def), Installed(env, s, def, rows), cs);
  }
}
