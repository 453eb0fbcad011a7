/** The index catalog as the program keeps it: fields updated in place, each
    operation proved to make the change its specification describes. */
module Catalog {
  import opened Options
  import opened ByteOrder
  import opened Utf8
  import opened Key
  import opened Document
  import opened Store
  import opened Maintain
  import opened Install
  import opened Views
  import opened Durable
  import opened Ddl
  import opened Unique
  import opened History
  import opened Lookup
  import opened Range
  import opened UniqueCheck

  /** The stored side: index cells and the rows stored directly. A batch is
      stored whole or not at all. */
  class Storage {
    var cells: Cells
    var rows: Rows

    constructor ()
      ensures cells == map[] && rows == map[]
    {
      cells, rows := map[], map[];
    }

    method BatchWrite(ops: seq<WriteOp>, images: seq<RowImage>, refused: bool) returns (ok: bool)
      modifies this
      ensures ok == !refused
      ensures ok ==> cells == ApplyAll(old(cells), ops) && rows == ApplyImages(old(rows), images)
      ensures !ok ==> cells == old(cells) && rows == old(rows)
    {
      ok := !refused;
      if ok {
        var i := 0;
        while i < |ops|
          invariant 0 <= i <= |ops| && rows == old(rows)
          invariant cells == ApplyAll(old(cells), ops[..i])
        {
          assert ops[..i + 1][..i] == ops[..i];
          cells := ApplyOp(cells, ops[i]);
          i := i + 1;
        }
        assert ops[..|ops|] == ops;
        i := 0;
        while i < |images|
          invariant 0 <= i <= |images| && cells == ApplyAll(old(cells), ops)
          invariant rows == ApplyImages(old(rows), images[..i])
        {
          assert images[..i + 1][..i] == images[..i];
          rows := ApplyImage(rows, images[i]);
          i := i + 1;
        }
        assert images[..|images|] == images;
      }
    }
  }

  /** How a directly stored write ended. */
  datatype WriteResult = Stored | UniqueViolation | StorageFailed

  /** The rows a write gives each collection, collections in order of first
      appearance. */
  type Group = (Ident, seq<RowWrite>)

  ghost predicate Grouped(groups: seq<Group>, images: seq<RowImage>) {
    && (forall i :: 0 <= i < |groups| ==> groups[i].1 == WritesOn(images, groups[i].0))
    && (forall c :: c in CollectionsOf(images) <==> exists i :: 0 <= i < |groups| && groups[i].0 == c)
    && (forall i, j :: 0 <= i < j < |groups| ==> groups[i].0 != groups[j].0)
  }

  lemma CollectionsGrow(images: seq<RowImage>, i: nat)
    requires i < |images|
    ensures CollectionsOf(images[..i + 1]) == CollectionsOf(images[..i]) + {images[i].collection}
  {
    var a, b := images[..i], images[..i + 1];
    forall c ensures c in CollectionsOf(b) <==> c in CollectionsOf(a) || c == images[i].collection {
      if c in CollectionsOf(a) {
        var m :| 0 <= m < |a| && a[m].collection == c;
        assert b[m].collection == c;
      }
      if c in CollectionsOf(b) {
        var m :| 0 <= m < |b| && b[m].collection == c;
        assert m < i ==> a[m].collection == c;
      }
      assert b[i].collection == images[i].collection;
    }
  }

  lemma {:induction false} UnlistedWritesNothing(images: seq<RowImage>, c: Ident)
    requires c !in CollectionsOf(images)
    ensures WritesOn(images, c) == []
    decreases |images|
  {
    if images != [] {
      CollectionsGrow(images, |images| - 1);
      assert images[..|images|] == images;
      UnlistedWritesNothing(images[..|images| - 1], c);
    }
  }

  /** The groups after one more row: in its collection's group at `slot`, or in
      a group of its own. */
  ghost predicate Grows(groups: seq<Group>, grown: seq<Group>, images: seq<RowImage>, i: nat, slot: nat)
    requires i < |images|
  {
    var (c, write) := (images[i].collection, (images[i].docId, images[i].row));
    && Grouped(groups, images[..i])
    && if slot < |groups| then groups[slot].0 == c && grown == groups[slot := (c, groups[slot].1 + [write])]
       else slot == |groups| && c !in CollectionsOf(images[..i]) && grown == groups + [(c, [write])]
  }

  lemma GrownWrites(groups: seq<Group>, grown: seq<Group>, images: seq<RowImage>, i: nat, slot: nat, m: nat)
    requires i < |images| && Grows(groups, grown, images, i, slot) && m < |grown|
    ensures grown[m].1 == WritesOn(images[..i + 1], grown[m].0)
  {
    var before, after := images[..i], images[..i + 1];
    assert after[..|after| - 1] == before && after[|after| - 1] == images[i];
    if slot == |groups| { UnlistedWritesNothing(before, images[i].collection); }
    hide CollectionsOf;
    if m != slot { assert grown[m] == groups[m]; }
  }

  lemma GrownCollections(groups: seq<Group>, grown: seq<Group>, images: seq<RowImage>, i: nat, slot: nat, c: Ident)
    requires i < |images| && Grows(groups, grown, images, i, slot)
    ensures c in CollectionsOf(images[..i + 1]) <==> exists m :: 0 <= m < |grown| && grown[m].0 == c
  {
    hide WritesOn;
    CollectionsGrow(images, i);
    hide CollectionsOf;
    assert grown[slot].0 == images[i].collection;
    if c in CollectionsOf(images[..i]) {
      var m :| 0 <= m < |groups| && groups[m].0 == c;
      assert grown[m].0 == c;
    }
    if m :| 0 <= m < |grown| && grown[m].0 == c {
      if m < |groups| { assert groups[m].0 == c; }
    }
  }

  lemma GroupGrows(groups: seq<Group>, grown: seq<Group>, images: seq<RowImage>, i: nat, slot: nat)
    requires i < |images| && Grows(groups, grown, images, i, slot)
    ensures Grouped(grown, images[..i + 1])
  {
    hide WritesOn;
    hide CollectionsOf;
    forall m | 0 <= m < |grown| ensures grown[m].1 == WritesOn(images[..i + 1], grown[m].0) {
      GrownWrites(groups, grown, images, i, slot, m);
    }
    var after := CollectionsOf(images[..i + 1]);
    forall c ensures c in after <==> exists m :: 0 <= m < |grown| && grown[m].0 == c {
      GrownCollections(groups, grown, images, i, slot, c);
    }
    forall m, n | 0 <= m < n < |grown| ensures grown[m].0 != grown[n].0 {
      if n == |groups| { assert groups[m].0 == grown[m].0; }
    }
  }

  /** Where each collection's group stands. */
  ghost predicate Slotted(slots: map<Ident, nat>, groups: seq<Group>, images: seq<RowImage>) {
    && slots.Keys == CollectionsOf(images)
    && forall c :: c in slots ==> slots[c] < |groups| && groups[slots[c]].0 == c
  }

  lemma SlotsGrow(slots: map<Ident, nat>, groups: seq<Group>, grown: seq<Group>, images: seq<RowImage>, i: nat, slot: nat)
    requires i < |images| && Slotted(slots, groups, images[..i]) && Grows(groups, grown, images, i, slot)
    ensures Slotted(slots[images[i].collection := slot], grown, images[..i + 1])
  {
    CollectionsGrow(images, i);
    hide CollectionsOf;
    hide Grouped;
  }

  method GroupRows(images: seq<RowImage>) returns (groups: seq<Group>)
    ensures Grouped(groups, images)
  {
    groups := [];
    var slots: map<Ident, nat> := map[];
    assert CollectionsOf(images[..0]) == {};
    for i := 0 to |images|
      invariant Grouped(groups, images[..i])
      invariant Slotted(slots, groups, images[..i])
    {
      hide Grouped;
      hide CollectionsOf;
      var image := images[i];
      var slot := if image.collection in slots then slots[image.collection] else |groups|;
      var grown := if slot < |groups|
        then groups[slot := (groups[slot].0, groups[slot].1 + [(image.docId, image.row)])]
        else groups + [(image.collection, [(image.docId, image.row)])];
      GroupGrows(groups, grown, images, i, slot);
      SlotsGrow(slots, groups, grown, images, i, slot);
      groups := grown;
      slots := slots[image.collection := slot];
    }
    assert images[..|images|] == images;
  }

  class IndexCatalog {
    const env: Env
    var defs: map<Ident, IndexDef>
    var entries: set<Bytes>
    var postings: map<DocRef, set<Bytes>>
    var tombstoned: set<DocRef>
    var dirty: map<Bytes, Dirty>
    var nextSeq: nat
    var sink: Option<seq<WriteOp>>

    /** The fields as one value. */
    function Now(): State
      reads this
    {
      State(defs, entries, postings, tombstoned, dirty, nextSeq, sink)
    }

    constructor (env: Env)
      ensures Now() == EMPTY && this.env == env
    {
      this.env := env;
      defs, entries, postings, tombstoned, dirty, nextSeq, sink := map[], {}, map[], {}, map[], 0, None;
    }

    // ── Changes ─────────────────────────────────────────────────────────────

    method Mark(key: Bytes, cell: Option<Cell>)
      modifies this
      ensures Now() == Store.Mark(old(Now()), key, cell)
    {
      match sink {
        case Some(ops) => sink := Some(ops + [OpFor(key, cell)]);
        case None =>
          nextSeq := nextSeq + 1;
          dirty := dirty[key := Dirty(nextSeq, cell)];
      }
    }

    method Remove(ref: DocRef, key: Bytes)
      modifies this
      ensures Now() == Store.Change(old(Now()), ref, DeleteEntry(key))
    {
      if ref in postings {
        var keys := postings[ref] - {key};
        postings := if keys == {} then postings - {ref} else postings[ref := keys];
      }
      entries := entries - {key};
      Mark(key, None);
    }

    method Apply(ref: DocRef, ops: seq<EntryOp>)
      modifies this
      ensures Now() == Store.Apply(old(Now()), ref, ops)
    {
      for i := 0 to |ops|
        invariant Now() == Store.Apply(old(Now()), ref, ops[..i])
      {
        assert ops[..i + 1][..i] == ops[..i];
        match ops[i] {
          case PutEntry(k) =>
            postings := postings[ref := (if ref in postings then postings[ref] else {}) + {k}];
            entries := entries + {k};
            Mark(k, Some(EntryCell));
          case DeleteEntry(k) => Remove(ref, k);
        }
      }
      assert ops[..|ops|] == ops;
    }

    method ClearPrefix(prefix: Bytes)
      modifies this
      ensures Now() == Store.ClearPrefix(old(Now()), prefix)
    {
      hide PrefixScan;
      hide RefOf;
      var doomed := PrefixScan(entries, prefix);
      for i := 0 to |doomed|
        invariant Now() == Store.ClearAll(old(Now()), doomed[..i])
      {
        assert doomed[..i + 1][..i] == doomed[..i];
        match RefOf(doomed[i]) {
          case Some(ref) => Remove(ref, doomed[i]);
          case None =>
            entries := entries - {doomed[i]};
            Mark(doomed[i], None);
        }
      }
      assert doomed[..|doomed|] == doomed;
    }

    method PutDef(def: IndexDef)
      modifies this
      ensures Now() == Store.PutDef(old(Now()), def)
    {
      Mark(def.Key(), Some(DefCell(def)));
      defs := defs[def.name := def];
    }

    method RemoveDef(name: Ident) returns (removed: Option<IndexDef>)
      modifies this
      ensures Now() == Store.RemoveDef(old(Now()), name)
      ensures removed == if name in old(defs) then Some(old(defs)[name]) else None
    {
      if name !in defs {
        return None;
      }
      var def := defs[name];
      defs := defs - {name};
      ClearPrefix(def.EntryPrefix());
      Mark(def.Key(), None);
      return Some(def);
    }

    // ── Maintenance ─────────────────────────────────────────────────────────

    method SettleRow(names: set<Ident>, ref: DocRef, row: Option<Value>)
      requires names <= defs.Keys
      modifies this
      ensures Now() == Settle(env, old(Now()), names, ref, row)
      ensures defs == old(defs)
    {
      var had := if ref in postings then postings[ref] else {};
      var ops := PlanOps(had, NewKeys(env, defs, names, ref.1, row));
      ApplyKeepsDefs(Now(), ref, ops);
      Apply(ref, ops);
    }

    method Resync(collection: Ident, ids: seq<Text>, rows: Rows)
      modifies this
      ensures Now() == Maintain.Resync(env, old(Now()), collection, ids, rows)
    {
      hide Settle;
      var names := DefsOn(defs, collection, DocumentRows);
      if names == {} {
        return;
      }
      for i := 0 to |ids|
        invariant defs == old(defs)
        invariant Now() == ResyncAll(env, old(Now()), names, collection, ids[..i], rows)
      {
        assert ids[..i + 1][..i] == ids[..i];
        var ref := (collection, ids[i]);
        SettleRow(names, ref, if ref in tombstoned then None else RowOf(rows, ref));
      }
      assert ids[..|ids|] == ids;
    }

    method Tombstone(collection: Ident, ids: seq<Text>)
      modifies this
      ensures Now() == History.Tombstone(env, old(Now()), collection, ids)
    {
      for i := 0 to |ids|
        invariant Now() == old(Now()).(tombstoned := old(tombstoned) + Refs(collection, ids[..i]))
      {
        assert Refs(collection, ids[..i + 1]) == Refs(collection, ids[..i]) + {(collection, ids[i])};
        tombstoned := tombstoned + {(collection, ids[i])};
      }
      assert ids[..|ids|] == ids;
      Resync(collection, ids, map[]);
    }

    method Revive(collection: Ident, id: Text)
      modifies this
      ensures Now() == History.Revive(old(Now()), (collection, id))
    {
      tombstoned := tombstoned - {(collection, id)};
    }

    // ── Flush ───────────────────────────────────────────────────────────────

    /** Stage every dirty key, in no particular order. */
    method StageFlush() returns (ops: seq<WriteOp>, written: map<Bytes, nat>)
      ensures written == map k | k in dirty :: dirty[k].version
      ensures forall cells: Cells, k :: Seen(ApplyAll(cells, ops), k) == Visible(cells, dirty, k)
    {
      ops, written := [], map[];
      assert forall cells: Cells :: ApplyAll(cells, []) == cells;
      var left := dirty.Keys;
      while left != {}
        invariant left <= dirty.Keys
        invariant written == map k | k in dirty && k !in left :: dirty[k].version
        invariant forall cells: Cells, k ::
          Seen(ApplyAll(cells, ops), k) == if k in dirty && k !in left then dirty[k].cell else Seen(cells, k)
      {
        var key :| key in left;
        var staged := ops + [OpFor(key, dirty[key].cell)];
        assert staged[..|ops|] == ops;
        ops := staged;
        written := written[key := dirty[key].version];
        left := left - {key};
      }
    }

    /** Drop each mark that is still at the version noted when it was staged. */
    method MarkFlushed(written: map<Bytes, nat>)
      modifies this
      ensures Now() == old(Now()).(dirty := map k | k in old(dirty) && !(k in written && written[k] == old(dirty)[k].version) :: old(dirty)[k])
    {
      var left := written.Keys;
      while left != {}
        invariant Now() == old(Now()).(dirty := dirty)
        invariant dirty == map k | k in old(dirty) && !(k in written && k !in left && written[k] == old(dirty)[k].version) :: old(dirty)[k]
      {
        var key :| key in left;
        if key in dirty && dirty[key].version == written[key] {
          dirty := dirty - {key};
        }
        left := left - {key};
      }
    }

    // ── Reads ───────────────────────────────────────────────────────────────

    method LookupEq(def: IndexDef, probe: Value) returns (ids: seq<Text>)
      ensures ids == EqualIds(env, Now(), def, probe)
    {
      hide IdsUnder;
      hide EncodeCoercible;
      var encoded := EncodeCoercible(env, FoldCase(env, def, probe));
      var prefix := def.EntryPrefix();
      var found: seq<Text> := [];
      for i := 0 to |encoded|
        invariant found == IdsOfKeys(entries, prefix, encoded[..i])
      {
        assert encoded[..i + 1][..i] == encoded[..i];
        found := found + IdsUnder(entries, prefix, prefix + encoded[i]);
      }
      assert encoded[..|encoded|] == encoded;
      ids := Distinct(found);
    }

    static method Distinct(ids: seq<Text>) returns (kept: seq<Text>)
      ensures kept == Dedup(ids)
    {
      kept := [];
      var seen: set<Text> := {};
      for i := 0 to |ids|
        invariant kept == Dedup(ids[..i])
        invariant forall id :: id in seen <==> id in kept
      {
        assert ids[..i + 1][..i] == ids[..i];
        if ids[i] !in seen {
          kept := kept + [ids[i]];
          seen := seen + {ids[i]};
        }
      }
      assert ids[..|ids|] == ids;
    }

    /** The documents of one value class, in index order. */
    method ReadClass(prefix: Bytes, r: ClassRange) returns (ids: seq<Text>)
      requires r.tag < 255
      ensures ids == DocIds(RangeKeys(entries, prefix, r), prefix)
    {
      var start, end := StartOf(prefix, r), EndOf(prefix, r);
      if Crossed(start, end) {
        return [];
      }
      UncrossedIsOrdered(start, end);
      ids := DocIds(OrderedRange(entries, start, end), prefix);
    }

    method LookupRange(def: IndexDef, lower: Option<Value>, upper: Option<Value>) returns (ids: Option<seq<Text>>)
      ensures ids == RangeIds(env, Now(), def, lower, upper)
    {
      var ranges := RangeClasses(env, def, lower, upper);
      if ranges == [] {
        return None;
      }
      ClassesAreTagged(env, def, lower, upper);
      var prefix := def.EntryPrefix();
      var found := ReadClasses(prefix, ranges);
      var kept := Distinct(found);
      ids := Some(kept);
    }

    method ReadClasses(prefix: Bytes, ranges: seq<ClassRange>) returns (found: seq<Text>)
      requires forall r :: r in ranges ==> Tagged(r)
      ensures found == IdsOfRanges(entries, prefix, ranges)
    {
      found := [];
      for i := 0 to |ranges|
        invariant forall r :: r in ranges[..i] ==> Tagged(r)
        invariant found == IdsOfRanges(entries, prefix, ranges[..i])
      {
        assert ranges[..i + 1][..i] == ranges[..i];
        assert ranges[i] in ranges;
        assert Tagged(ranges[i]);
        var more := ReadClass(prefix, ranges[i]);
        found := found + more;
      }
      assert ranges[..|ranges|] == ranges;
    }

    // ── Unique checks ───────────────────────────────────────────────────────

    /** Whether every unique index on the collection lets the write through. */
    method CheckUnique(collection: Ident, engine: Engine, writes: seq<RowWrite>, rows: Rows) returns (ok: bool)
      requires TwoViews(Now())
      ensures ok <==> Accepted(env, Now(), collection, engine, writes, rows)
    {
      hide AcceptedBy;
      hide TwoViews;
      var s := Now();
      var names := InOrder(DefsOn(s.defs, collection, engine));
      ok := CheckEach(env, s, DefList(s.defs, names), writes, rows);
      assert forall m :: 0 <= m < |names| ==> names[m] in names;
    }

    method CheckImages(engine: Engine, images: seq<RowImage>, rows: Rows) returns (ok: bool)
      requires TwoViews(Now())
      ensures ok <==> AcceptedImages(env, Now(), engine, images, rows)
    {
      hide Accepted;
      hide TwoViews;
      var groups := GroupRows(images);
      for i := 0 to |groups|
        invariant forall m :: 0 <= m < i ==> Accepted(env, Now(), groups[m].0, engine, groups[m].1, rows)
      {
        var passed := CheckUnique(groups[i].0, engine, groups[i].1, rows);
        if !passed {
          return false;
        }
      }
      return true;
    }

    // ── Directly stored rows ────────────────────────────────────────────────

    method PlanWrite(engine: Engine, images: seq<RowImage>) returns (plan: Plan)
      ensures plan == PlanImages(env, Now(), engine, images)
    {
      plan := Plan(map[], []);
      for i := 0 to |images|
        invariant plan == PlanImages(env, Now(), engine, images[..i])
      {
        assert images[..i + 1][..i] == images[..i];
        plan := PlanImage(env, Now(), engine, plan, images[i]);
      }
      assert images[..|images|] == images;
    }

    method Follow(changes: seq<RowChange>)
      modifies this
      ensures Now() == ApplyChanges(old(Now()), changes)
    {
      for i := 0 to |changes|
        invariant Now() == ApplyChanges(old(Now()), changes[..i])
      {
        assert changes[..i + 1][..i] == changes[..i];
        Apply(changes[i].ref, changes[i].ops);
      }
      assert changes[..|changes|] == changes;
    }

    /** Commit row writes with the entries they imply as one batch: refused or
        failed, nothing changes; stored, memory and storage hold the same. */
    method CommitRows(storage: Storage, engine: Engine, images: seq<RowImage>, refused: bool) returns (result: WriteResult)
      requires TwoViews(Now()) && sink == None
      modifies this, storage
      ensures result.UniqueViolation? <==> !AcceptedImages(env, old(Now()), engine, images, old(storage.rows))
      ensures !result.Stored? ==> Now() == old(Now()) && storage.cells == old(storage.cells) && storage.rows == old(storage.rows)
      ensures result.Stored? ==> Now() == Closed(SettleImages(env, Collecting(old(Now())), engine, images))
      ensures result.Stored? ==> storage.cells == ApplyAll(old(storage.cells), Collected(SettleImages(env, Collecting(old(Now())), engine, images)))
      ensures result.Stored? ==> storage.rows == ApplyImages(old(storage.rows), images)
      ensures result.StorageFailed? ==> refused
    {
      hide AcceptedImages;
      hide PlanImages;
      hide SettleImages;
      hide ApplyChanges;
      hide BatchOf;
      var ok := CheckImages(engine, images, storage.rows);
      if !ok {
        return UniqueViolation;
      }
      var plan := PlanWrite(engine, images);
      ghost var before := Collecting(Now());
      PlanIgnoresSink(env, Now(), engine, images);
      SinkIsIgnored(Now(), Some([]));
      hide TwoViews;
      PlanMatchesSettling(env, before, engine, images);
      assert [] + BatchOf(plan.changes) == BatchOf(plan.changes);
      var stored := storage.BatchWrite(BatchOf(plan.changes), images, refused);
      if !stored {
        return StorageFailed;
      }
      sink := Some([]);
      assert Now() == before;
      Follow(plan.changes);
      sink := None;
      return Stored;
    }

    // ── Installing ──────────────────────────────────────────────────────────

    method PutRows(def: IndexDef, rows: seq<Listed>) returns (count: nat)
      modifies this
      ensures Now() == Install.PutRows(env, old(Now()), def, rows)
      ensures count == EntryCount(env, def, rows)
    {
      hide EntryKeys;
      count := 0;
      for i := 0 to |rows|
        invariant Now() == Install.PutRows(env, old(Now()), def, rows[..i])
        invariant count == EntryCount(env, def, rows[..i])
      {
        assert rows[..i + 1][..i] == rows[..i];
        var keys := Ascending(EntryKeys(env, def, rows[i].0, rows[i].1));
        count := count + |keys|;
        Apply((def.collection, rows[i].0), Puts(keys));
      }
      assert rows[..|rows|] == rows;
    }

    method InstallInto(def: IndexDef, rows: seq<Listed>) returns (count: nat)
      modifies this
      ensures Now() == Installed(env, old(Now()), def, rows)
      ensures count == EntryCount(env, def, rows)
    {
      hide Store.ClearPrefix;
      hide Install.PutRows;
      if def.name in defs {
        ClearPrefix(defs[def.name].EntryPrefix());
      }
      ClearPrefix(def.EntryPrefix());
      PutDef(def);
      count := PutRows(def, rows);
    }

    /** Install an index with the entries of `rows`, or refuse it when it is
        unique and two of its rows share a value. The writes of a durable index
        are the caller's to commit. */
    method InstallIndex(def: IndexDef, rows: seq<Listed>) returns (built: Option<nat>, ops: seq<WriteOp>)
      requires sink == None
      modifies this
      ensures built == None <==> def.unique && ClashListed(env, def, rows)
      ensures built == None ==> Now() == old(Now()) && ops == []
      ensures built != None ==> built == Some(EntryCount(env, def, rows))
      ensures built != None && def.engine == DocumentRows ==> Now() == Installed(env, old(Now()), def, rows) && ops == []
      ensures built != None && def.engine != DocumentRows ==>
        Now() == Closed(Installed(env, Collecting(old(Now())), def, rows)) && ops == Collected(Installed(env, Collecting(old(Now())), def, rows))
    {
      hide ClashListed;
      hide Installed;
      ops := [];
      if def.unique {
        var ok := CheckListed(env, def, rows);
        if !ok {
          return None, [];
        }
      }
      var count: nat;
      if def.engine == DocumentRows {
        count := InstallInto(def, rows);
      } else {
        sink := Some([]);
        assert Now() == Collecting(old(Now()));
        count := InstallInto(def, rows);
        ops := Collected(Now());
        sink := None;
      }
      built := Some(count);
    }

    /** Install a durable index and store what it collected; undo the install when
        the batch fails and the name was unused. */
    method BuildStored(storage: Storage, def: IndexDef, rows: seq<Listed>, refused: bool) returns (built: Option<nat>)
      requires sink == None && def.engine != DocumentRows
      modifies this, storage
      ensures storage.rows == old(storage.rows)
      ensures def.unique && ClashListed(env, def, rows) ==> built == None && Now() == old(Now()) && storage.cells == old(storage.cells)
      ensures !(def.unique && ClashListed(env, def, rows)) && !refused ==>
        && built == Some(EntryCount(env, def, rows))
        && Now() == Closed(Installed(env, Collecting(old(Now())), def, rows))
        && storage.cells == ApplyAll(old(storage.cells), Collected(Installed(env, Collecting(old(Now())), def, rows)))
      ensures !(def.unique && ClashListed(env, def, rows)) && refused ==>
        && built == None && storage.cells == old(storage.cells)
        && Now() == (if def.name in old(defs) then Closed(Installed(env, Collecting(old(Now())), def, rows))
                     else Forgotten(Closed(Installed(env, Collecting(old(Now())), def, rows)), def.name))
    {
      hide ClashListed;
      hide Installed;
      hide ApplyAll;
      var isNew := def.name !in defs;
      var ops;
      built, ops := InstallIndex(def, rows);
      if built == None {
        return;
      }
      var ok := storage.BatchWrite(ops, [], refused);
      if !ok {
        built := None;
        if isNew {
          Forget(def.name);
        }
      }
    }

    /** Install from rows the history holds live and mark every other copy as
        deleted. */
    method BuildFromHistory(def: IndexDef, live: seq<Listed>, copies: seq<Text>) returns (built: Option<nat>)
      requires sink == None && def.engine == DocumentRows
      modifies this
      ensures built == None <==> def.unique && ClashListed(env, def, live)
      ensures built == None ==> Now() == old(Now())
      ensures built != None ==> built == Some(EntryCount(env, def, live)) && Now() == BuiltFromHistory(env, old(Now()), def, live, copies)
    {
      hide ClashListed;
      hide Installed;
      hide History.Tombstone;
      var flushedLater;
      built, flushedLater := InstallIndex(def, live);
      if built != None {
        Tombstone(def.collection, DeadCopies(live, copies));
      }
    }

    /** Remove an index from memory only. */
    method Forget(name: Ident)
      requires sink == None
      modifies this
      ensures Now() == Forgotten(old(Now()), name)
    {
      hide Store.RemoveDef;
      sink := Some([]);
      assert Now() == Collecting(old(Now()));
      var _ := RemoveDef(name);
      sink := None;
    }

    method ClearDocumentEntries(collection: Ident)
      modifies this
      ensures Now() == ClearDocuments(old(Now()), collection)
    {
      hide Store.ClearPrefix;
      hide DocumentDefs;
      hide Now;
      var list := DocumentDefs(Now(), collection);
      assert list[..0] == [];
      for i := 0 to |list|
        invariant Now() == ClearEach(old(Now()), list[..i])
      {
        assert list[..i + 1][..i] == list[..i];
        ClearPrefix(list[i].EntryPrefix());
      }
      assert list[..|list|] == list;
    }

    // ── DDL ─────────────────────────────────────────────────────────────────

    method Drop(def: IndexDef) returns (ops: seq<WriteOp>)
      modifies this
      ensures Outcome(Now(), ops) == DropOne(old(Now()), def)
    {
      hide Store.RemoveDef;
      var outer := sink;
      if IsDurable(def) {
        sink := Some([]);
        assert Now() == Collecting(old(Now()));
        var _ := RemoveDef(def.name);
        ops := Collected(Now());
        sink := outer;
      } else {
        var _ := RemoveDef(def.name);
        ops := [];
      }
    }

    method Clear(def: IndexDef) returns (ops: seq<WriteOp>)
      modifies this
      ensures Outcome(Now(), ops) == ClearOne(old(Now()), def)
    {
      hide Store.ClearPrefix;
      var outer := sink;
      if IsDurable(def) {
        sink := Some([]);
        assert Now() == Collecting(old(Now()));
        ClearPrefix(def.EntryPrefix());
        ops := Collected(Now());
        sink := outer;
      } else {
        ClearPrefix(def.EntryPrefix());
        ops := [];
      }
    }

    method Declare(def: IndexDef) returns (ops: seq<WriteOp>)
      modifies this
      ensures Outcome(Now(), ops) == DeclareOne(old(Now()), def)
    {
      hide Store.PutDef;
      var outer := sink;
      if IsDurable(def) {
        sink := Some([]);
        assert Now() == Collecting(old(Now()));
        PutDef(def);
        ops := Collected(Now());
        sink := outer;
      } else {
        PutDef(def);
        ops := [];
      }
    }

    /** Make a change to every listed index, collecting the writes of the durable
        ones. */
    method Change(ddl: Ddl, list: seq<IndexDef>) returns (ops: seq<WriteOp>)
      modifies this
      ensures Outcome(Now(), ops) == ChangeAll(old(Now()), ddl, list)
    {
      hide DropOne;
      hide ClearOne;
      hide DeclareOne;
      ops := [];
      for i := 0 to |list|
        invariant Outcome(Now(), ops) == ChangeAll(old(Now()), ddl, list[..i])
      {
        assert list[..i + 1][..i] == list[..i];
        match ddl {
          case Drop =>
            var written := Drop(list[i]);
            ops := ops + written;
          case Move(engine) =>
            var cleared := Clear(list[i]);
            var declared := Declare(list[i].(engine := engine));
            ops := ops + (cleared + declared);
        }
      }
      assert list[..|list|] == list;
    }

    /** A catalog holding only the listed indexes and their entries. */
    method ScratchCopy(list: seq<IndexDef>) returns (scratch: IndexCatalog)
      ensures fresh(scratch) && scratch.env == env && scratch.Now() == Scratch(Now(), list)
    {
      hide CopyEntries;
      hide PrefixScan;
      scratch := new IndexCatalog(env);
      for i := 0 to |list|
        invariant fresh(scratch) && scratch.env == env
        invariant unchanged(this)
        invariant scratch.Now() == Scratch(Now(), list[..i])
      {
        assert list[..i + 1][..i] == list[..i];
        scratch.defs := scratch.defs[list[i].name := list[i]];
        scratch.TakeIn(PrefixScan(entries, list[i].EntryPrefix()));
      }
      assert list[..|list|] == list;
    }

    method TakeIn(keys: seq<Bytes>)
      modifies this
      ensures Now() == CopyEntries(old(Now()), keys)
    {
      hide RefOf;
      for i := 0 to |keys|
        invariant Now() == CopyEntries(old(Now()), keys[..i])
      {
        assert keys[..i + 1][..i] == keys[..i];
        match RefOf(keys[i]) {
          case Some(ref) => postings := postings[ref := (if ref in postings then postings[ref] else {}) + {keys[i]}];
          case None =>
        }
        entries := entries + {keys[i]};
      }
      assert keys[..|keys|] == keys;
    }

    /** Take stored entries in: readable ones into both views, others marked for
        removal. */
    method AddEntries(current: bool, keys: seq<Bytes>)
      modifies this
      ensures Now() == LoadEntries(old(Now()), current, keys)
    {
      hide RefOf;
      for i := 0 to |keys|
        invariant Now() == LoadEntries(old(Now()), current, keys[..i])
      {
        assert keys[..i + 1][..i] == keys[..i];
        match RefOf(keys[i]) {
          case Some(ref) =>
            if current {
              postings := postings[ref := (if ref in postings then postings[ref] else {}) + {keys[i]}];
              entries := entries + {keys[i]};
            } else {
              Mark(keys[i], None);
            }
          case None => Mark(keys[i], None);
        }
      }
      assert keys[..|keys|] == keys;
    }

    /** Learn the writes on a scratch copy, store them, and only then change the
        catalog: a failed write changes neither. */
    method ApplyDdl(storage: Storage, ddl: Ddl, list: seq<IndexDef>, removals: seq<RowImage>, refused: bool) returns (ok: bool)
      requires Ready(Now()) && DistinctNames(list)
      requires forall d :: d in list ==> d.name in defs && defs[d.name] == d
      modifies this, storage
      ensures ok <==> !refused || (ChangeAll(old(Now()), ddl, list).ops == [] && removals == [])
      ensures !ok ==> Now() == old(Now()) && storage.cells == old(storage.cells) && storage.rows == old(storage.rows)
      ensures ok ==> Now() == ChangeAll(old(Now()), ddl, list).state
      ensures ok ==> storage.cells == ApplyAll(old(storage.cells), ChangeAll(old(Now()), ddl, list).ops)
      ensures ok ==> storage.rows == ApplyImages(old(storage.rows), removals)
    {
      assert ApplyAll(storage.cells, []) == storage.cells;
      hide ChangeAll;
      hide Scratch;
      hide ApplyAll;
      DryRunIsExact(Now(), Now(), ddl, list);
      hide Ready;
      var scratch := ScratchCopy(list);
      var ops := scratch.Change(ddl, list);
      if ops == [] && removals == [] {
        ok := true;
      } else {
        ok := storage.BatchWrite(ops, removals, refused);
      }
      if ok {
        var _ := Change(ddl, list);
      }
    }

    method DropIndex(storage: Storage, name: Ident, refused: bool) returns (ok: bool, dropped: Option<IndexDef>)
      requires Ready(Now())
      modifies this, storage
      ensures dropped == if ok && name in old(defs) then Some(old(defs)[name]) else None
      ensures !ok ==> Now() == old(Now()) && storage.cells == old(storage.cells) && storage.rows == old(storage.rows)
      ensures ok && name !in old(defs) ==> Now() == old(Now()) && storage.cells == old(storage.cells)
      ensures ok && name in old(defs) ==> Now() == DropOne(old(Now()), old(defs)[name]).state
      ensures ok && name in old(defs) ==> storage.cells == ApplyAll(old(storage.cells), DropOne(old(Now()), old(defs)[name]).ops)
      ensures ok <==> name !in old(defs) || !refused || DropOne(old(Now()), old(defs)[name]).ops == []
    {
      if name !in defs {
        return true, None;
      }
      hide ChangeAll;
      hide DropOne;
      hide ApplyAll;
      hide Ready;
      var def := defs[name];
      ChangeJustOne(Now(), Ddl.Drop, def);
      ok := ApplyDdl(storage, Ddl.Drop, [def], [], refused);
      dropped := if ok then Some(def) else None;
    }

    /** Every definition on the collection, in name order. */
    function DefsOf(collection: Ident): seq<IndexDef>
      reads this
    {
      DefList(defs, InOrder(set n | n in defs && defs[n].collection == collection))
    }

    /** Remove every index on the collection, with its rows and its tombstones. */
    method DropCollection(storage: Storage, collection: Ident, removals: seq<RowImage>, refused: bool) returns (ok: bool)
      requires Ready(Now())
      modifies this, storage
      ensures !ok ==> refused
      ensures !ok ==> Now() == old(Now()) && storage.cells == old(storage.cells) && storage.rows == old(storage.rows)
      ensures ok ==> Now() == ChangeAll(old(Now()), Ddl.Drop, old(DefsOf(collection))).state
                                .(tombstoned := set ref | ref in old(tombstoned) && ref.0 != collection)
      ensures ok ==> storage.cells == ApplyAll(old(storage.cells), ChangeAll(old(Now()), Ddl.Drop, old(DefsOf(collection))).ops)
      ensures ok ==> storage.rows == ApplyImages(old(storage.rows), removals)
    {
      var list := DefsOf(collection);
      DefsOfAreDeclared(collection);
      ChangeAllKeepsTombstones(Now(), Ddl.Drop, list);
      hide ChangeAll;
      hide ApplyAll;
      ok := ApplyDdl(storage, Ddl.Drop, list, removals, refused);
      if ok {
        tombstoned := set ref | ref in tombstoned && ref.0 != collection;
      }
    }

    /** Give the collection's indexes to another engine, emptied. */
    method MoveCollection(storage: Storage, collection: Ident, engine: Engine, refused: bool) returns (ok: bool, moved: seq<IndexDef>)
      requires Ready(Now())
      modifies this, storage
      ensures ok ==> forall d :: d in moved <==> d.name in defs && defs[d.name] == d && d.collection == collection
      ensures ok ==> forall d :: d in moved ==> d.engine == engine && exists e :: e in old(DefsOf(collection)) && d == e.(engine := engine)
      ensures !ok ==> moved == []
      ensures !ok ==> refused
      ensures !ok ==> Now() == old(Now()) && storage.cells == old(storage.cells) && storage.rows == old(storage.rows)
      ensures ok ==> Now() == ChangeAll(old(Now()), Move(engine), old(DefsOf(collection))).state
      ensures ok ==> storage.cells == ApplyAll(old(storage.cells), ChangeAll(old(Now()), Move(engine), old(DefsOf(collection))).ops)
    {
      var list := DefsOf(collection);
      DefsOfAreDeclared(collection);
      hide ChangeAll;
      hide ApplyAll;
      ghost var s := Now();
      ok := ApplyDdl(storage, Move(engine), list, [], refused);
      moved := if ok then seq(|list|, i requires 0 <= i < |list| => list[i].(engine := engine)) else [];
      if ok { MovedAre(s, collection, engine, list, moved); }
    }

    lemma DefsOfAreDeclared(collection: Ident)
      requires TwoViews(Now())
      ensures DistinctNames(DefsOf(collection))
      ensures forall d :: d in DefsOf(collection) <==> d.name in defs && defs[d.name] == d && d.collection == collection
    {
      hide RefOf;
      var names := InOrder(set n | n in defs && defs[n].collection == collection);
      var list := DefsOf(collection);
      forall i | 0 <= i < |list| ensures list[i].name == names[i] && names[i] in defs && defs[names[i]].collection == collection {
        assert names[i] in names;
      }
      InOrderIsDistinct(set n | n in defs && defs[n].collection == collection);
      forall d: IndexDef | d.name in defs && defs[d.name] == d && d.collection == collection ensures d in list {
        DefsOfHas(collection, d);
      }
    }

    lemma DefsOfHas(collection: Ident, d: IndexDef)
      requires d.name in defs && defs[d.name] == d && d.collection == collection
      ensures d in DefsOf(collection)
    {
      var names := InOrder(set n | n in defs && defs[n].collection == collection);
      assert d.name in names;
      var i :| 0 <= i < |names| && names[i] == d.name;
      assert DefsOf(collection)[i] == d;
    }

    // ── Opening ─────────────────────────────────────────────────────────────

    /** Load the stored catalog into an empty one; `rebuildAll` asks for every
        index to be built again. */
    method Load(storage: Storage) returns (rebuildAll: bool)
      requires Now() == EMPTY
      modifies this, storage
      ensures Now() == Loaded(old(storage.cells)) && storage.cells == Stamped(old(storage.cells))
      ensures storage.rows == old(storage.rows)
      ensures rebuildAll <==> !IsCurrent(old(storage.cells)) && defs != map[]
    {
      hide PrefixScan;
      hide LoadEntries;
      hide LoadDefs;
      var cells := storage.cells;
      var current := IsCurrent(cells);
      var defKeys := PrefixScan(cells.Keys, DefsPrefix());
      var entryKeys := PrefixScan(cells.Keys, EntriesPrefix());
      AddDefs(cells, defKeys);
      AddEntries(current, entryKeys);
      rebuildAll := !current && defs != map[];
      if !current && !(defKeys == [] && entryKeys == []) {
        Mark(FormatKey(), Some(FormatCell(FORMAT_VERSION)));
      }
      if !current && defKeys == [] && entryKeys == [] {
        storage.cells := cells[FormatKey() := FormatCell(FORMAT_VERSION)];
      }
    }

    method AddDefs(cells: Cells, keys: seq<Bytes>)
      requires Now() == EMPTY
      modifies this
      ensures Now() == EMPTY.(defs := LoadDefs(cells, keys))
    {
      for i := 0 to |keys|
        invariant Now() == EMPTY.(defs := LoadDefs(cells, keys[..i]))
      {
        assert keys[..i + 1][..i] == keys[..i];
        match Seen(cells, keys[i]) {
          case Some(DefCell(def)) => defs := defs[def.name := def];
          case _ =>
        }
      }
      assert keys[..|keys|] == keys;
    }
  }
}
