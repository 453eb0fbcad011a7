/** The in-memory index state as a value, the changes made to it, and how it
    stands to what storage holds. */
module Store {
  import opened Options
  import opened ByteOrder
  import opened Utf8
  import opened Key
  import opened Document

  // ── Storage ───────────────────────────────────────────────────────────────

  /** What an index key holds in storage. */
  datatype Cell = EntryCell | DefCell(def: IndexDef) | FormatCell(version: nat)

  type Cells = map<Bytes, Cell>

  datatype WriteOp = Put(key: Bytes, cell: Cell) | Delete(key: Bytes)

  function ApplyOp(cells: Cells, op: WriteOp): Cells {
    match op
    case Put(key, cell) => cells[key := cell]
    case Delete(key) => cells - {key}
  }

  /** A committed batch: its operations in order. */
  function ApplyAll(cells: Cells, ops: seq<WriteOp>): Cells {
    if ops == [] then cells else ApplyOp(ApplyAll(cells, ops[..|ops| - 1]), ops[|ops| - 1])
  }

  function Seen(cells: Cells, key: Bytes): Option<Cell> {
    if key in cells then Some(cells[key]) else None
  }

  function OpFor(key: Bytes, cell: Option<Cell>): WriteOp {
    match cell case Some(c) => Put(key, c) case None => Delete(key)
  }

  // ── State ─────────────────────────────────────────────────────────────────

  /** A mark: what the next flush does to a key, and which change left it. */
  datatype Dirty = Dirty(version: nat, cell: Option<Cell>)

  datatype State = State(
    defs: map<Ident, IndexDef>,
    entries: set<Bytes>,
    postings: map<DocRef, set<Bytes>>,
    tombstoned: set<DocRef>,
    dirty: map<Bytes, Dirty>,
    nextSeq: nat,
    sink: Option<seq<WriteOp>>)

  const EMPTY := State(map[], {}, map[], {}, map[], 0, None)

  datatype EntryOp = PutEntry(key: Bytes) | DeleteEntry(key: Bytes)

  function DefsOn(defs: map<Ident, IndexDef>, collection: Ident, engine: Engine): set<Ident> {
    set n | n in defs && defs[n].collection == collection && defs[n].engine == engine
  }

  /** The entry keys a row currently contributes. */
  function Held(s: State, ref: DocRef): set<Bytes> {
    if ref in s.postings then s.postings[ref] else {}
  }

  function Mark(s: State, key: Bytes, cell: Option<Cell>): State {
    match s.sink
    case Some(ops) => s.(sink := Some(ops + [OpFor(key, cell)]))
    case None => s.(nextSeq := s.nextSeq + 1, dirty := s.dirty[key := Dirty(s.nextSeq + 1, cell)])
  }

  function WithoutPosting(postings: map<DocRef, set<Bytes>>, ref: DocRef, key: Bytes): map<DocRef, set<Bytes>> {
    if ref !in postings then postings
    else if postings[ref] - {key} == {} then postings - {ref}
    else postings[ref := postings[ref] - {key}]
  }

  function Change(s: State, ref: DocRef, op: EntryOp): State {
    match op
    case PutEntry(k) =>
      Mark(s.(postings := s.postings[ref := Held(s, ref) + {k}], entries := s.entries + {k}), k, Some(EntryCell))
    case DeleteEntry(k) =>
      Mark(s.(postings := WithoutPosting(s.postings, ref, k), entries := s.entries - {k}), k, None)
  }

  function Apply(s: State, ref: DocRef, ops: seq<EntryOp>): State {
    if ops == [] then s else Change(Apply(s, ref, ops[..|ops| - 1]), ref, ops[|ops| - 1])
  }

  /** The document an entry key belongs to. */
  function RefOf(key: Bytes): Option<DocRef> {
    match ParseEntry(key)
    case None => None
    case Some(p) => Some((p.collection, p.docId))
  }

  function ClearEntry(s: State, k: Bytes): State {
    match RefOf(k)
    case Some(ref) => Change(s, ref, DeleteEntry(k))
    case None => Mark(s.(entries := s.entries - {k}), k, None)
  }

  function ClearAll(s: State, doomed: seq<Bytes>): State {
    if doomed == [] then s else ClearEntry(ClearAll(s, doomed[..|doomed| - 1]), doomed[|doomed| - 1])
  }

  function ClearPrefix(s: State, prefix: Bytes): State {
    ClearAll(s, PrefixScan(s.entries, prefix))
  }

  function PutDef(s: State, def: IndexDef): State {
    var s := Mark(s, def.Key(), Some(DefCell(def)));
    s.(defs := s.defs[def.name := def])
  }

  function RemoveDef(s: State, name: Ident): State {
    if name !in s.defs then s
    else
      var def := s.defs[name];
      Mark(ClearPrefix(s.(defs := s.defs - {name}), def.EntryPrefix()), def.Key(), None)
  }

  // ── Two views of one set ──────────────────────────────────────────────────

  /** `entries` and `postings` are two views of one set of well-formed entries,
      with no empty posting, and definitions are filed under their names. */
  ghost predicate TwoViews(s: State) {
    && (forall ref :: ref in s.postings ==> s.postings[ref] != {})
    && (forall ref, k :: ref in s.postings && k in s.postings[ref] ==> k in s.entries && RefOf(k) == Some(ref))
    && (forall k :: k in s.entries ==>
          RefOf(k).Some? && RefOf(k).value in s.postings && k in s.postings[RefOf(k).value])
    && (forall n :: n in s.defs ==> s.defs[n].name == n)
  }

  lemma HeldIsListed(s: State, k: Bytes)
    requires TwoViews(s)
    ensures k in s.entries <==> RefOf(k).Some? && k in Held(s, RefOf(k).value)
  {
  }

  // ── What storage would show ───────────────────────────────────────────────

  /** What a key holds in storage once the marks laid over it are written. */
  function Visible(stored: Cells, marks: map<Bytes, Dirty>, key: Bytes): Option<Cell> {
    if key in marks then marks[key].cell else Seen(stored, key)
  }

  /** What a key holds after `ops`, given what it held before them. */
  function Latest(ops: seq<WriteOp>, key: Bytes, before: Option<Cell>): Option<Cell> {
    if ops == [] then before
    else
      match ops[|ops| - 1]
      case Put(k, cell) => if k == key then Some(cell) else Latest(ops[..|ops| - 1], key, before)
      case Delete(k) => if k == key then None else Latest(ops[..|ops| - 1], key, before)
  }

  lemma {:induction false} BatchShows(cells: Cells, ops: seq<WriteOp>, key: Bytes)
    ensures Seen(ApplyAll(cells, ops), key) == Latest(ops, key, Seen(cells, key))
    decreases |ops|
  {
    if ops != [] {
      BatchShows(cells, ops[..|ops| - 1], key);
    }
  }

  /** What a key holds once every mark and every collected write is stored. */
  function Shown(stored: Cells, s: State, key: Bytes): Option<Cell> {
    var base := Visible(stored, s.dirty, key);
    match s.sink
    case None => base
    case Some(ops) => Latest(ops, key, base)
  }

  /** What memory says a key holds. */
  function Told(s: State, key: Bytes): Option<Cell> {
    if key in s.entries then Some(EntryCell) else ToldDef(s.defs, ParseDef(key))
  }

  function ToldDef(defs: map<Ident, IndexDef>, named: Option<(Ident, Ident)>): Option<Cell> {
    match named
    case None => None
    case Some((collection, name)) =>
      if name in defs && defs[name].collection == collection then Some(DefCell(defs[name])) else None
  }

  /** Storage, once everything pending reaches it, holds exactly what memory
      tells. */
  ghost predicate Mirrors(stored: Cells, s: State) {
    forall k :: k != FormatKey() ==> Shown(stored, s, k) == Told(s, k)
  }

  lemma MarkShows(stored: Cells, s: State, key: Bytes, cell: Option<Cell>, k: Bytes)
    ensures Shown(stored, Mark(s, key, cell), k) == if k == key then cell else Shown(stored, s, k)
  {
    if s.sink.Some? {
      var ops := s.sink.value;
      assert (ops + [OpFor(key, cell)])[..|ops|] == ops;
    }
  }

  // ── Entry changes ─────────────────────────────────────────────────────────

  /** The set an operation list leaves of `keys`. */
  function After(keys: set<Bytes>, ops: seq<EntryOp>): set<Bytes> {
    if ops == [] then keys
    else
      var rest := After(keys, ops[..|ops| - 1]);
      match ops[|ops| - 1]
      case PutEntry(k) => rest + {k}
      case DeleteEntry(k) => rest - {k}
  }

  /** The part of a state an entry change leaves alone. */
  ghost predicate SameCatalog(s: State, t: State) {
    s.defs == t.defs && s.tombstoned == t.tombstoned && (s.sink.Some? <==> t.sink.Some?)
  }

  lemma PutKeepsViews(s: State, ref: DocRef, k: Bytes)
    requires TwoViews(s) && RefOf(k) == Some(ref)
    ensures TwoViews(s.(postings := s.postings[ref := Held(s, ref) + {k}], entries := s.entries + {k}))
  {
    hide RefOf;
    var t := s.(postings := s.postings[ref := Held(s, ref) + {k}], entries := s.entries + {k});
    forall r, x | r in t.postings && x in t.postings[r] ensures x in t.entries && RefOf(x) == Some(r) {
      if r != ref { assert x in s.postings[r]; }
    }
    forall x | x in t.entries
      ensures RefOf(x).Some? && RefOf(x).value in t.postings && x in t.postings[RefOf(x).value]
    {
    }
  }

  lemma DeleteKeepsViews(s: State, ref: DocRef, k: Bytes)
    requires TwoViews(s) && RefOf(k) == Some(ref)
    ensures TwoViews(s.(postings := WithoutPosting(s.postings, ref, k), entries := s.entries - {k}))
  {
    hide RefOf;
    var t := s.(postings := WithoutPosting(s.postings, ref, k), entries := s.entries - {k});
    forall r, x | r in t.postings && x in t.postings[r] ensures x in t.entries && RefOf(x) == Some(r) {
      assert x in s.postings[r];
    }
    forall x | x in t.entries
      ensures RefOf(x).Some? && RefOf(x).value in t.postings && x in t.postings[RefOf(x).value]
    {
      assert x in s.postings[RefOf(x).value];
      if RefOf(x).value == ref { assert x in s.postings[ref] - {k}; }
    }
  }

  lemma MarkKeepsViews(s: State, k: Bytes, cell: Option<Cell>)
    requires TwoViews(s)
    ensures TwoViews(Mark(s, k, cell)) && SameCatalog(s, Mark(s, k, cell))
  {
    hide RefOf;
  }

  lemma ChangeKeepsViews(s: State, ref: DocRef, op: EntryOp)
    requires TwoViews(s) && RefOf(op.key) == Some(ref)
    ensures TwoViews(Change(s, ref, op))
    ensures SameCatalog(s, Change(s, ref, op))
  {
    hide RefOf;
    if op.PutEntry? {
      PutKeepsViews(s, ref, op.key);
      MarkKeepsViews(s.(postings := s.postings[ref := Held(s, ref) + {op.key}], entries := s.entries + {op.key}), op.key, Some(EntryCell));
    } else {
      DeleteKeepsViews(s, ref, op.key);
      MarkKeepsViews(s.(postings := WithoutPosting(s.postings, ref, op.key), entries := s.entries - {op.key}), op.key, None);
    }
    hide TwoViews;
  }

  lemma ChangeMovesPosting(s: State, ref: DocRef, op: EntryOp)
    ensures Held(Change(s, ref, op), ref)
         == (if op.PutEntry? then Held(s, ref) + {op.key} else Held(s, ref) - {op.key})
    ensures forall r :: r != ref ==> Held(Change(s, ref, op), r) == Held(s, r)
  {
  }

  lemma EntryIsNoDef(key: Bytes)
    requires RefOf(key).Some?
    ensures ParseDef(key) == None
  {
    KindsAreDisjoint(key);
  }

  lemma ChangeKeepsMirror(stored: Cells, s: State, ref: DocRef, op: EntryOp)
    requires Mirrors(stored, s) && RefOf(op.key) == Some(ref)
    ensures Mirrors(stored, Change(s, ref, op))
  {
    hide RefOf;
    hide ParseDef;
    EntryIsNoDef(op.key);
    var t := Change(s, ref, op);
    var u := if op.PutEntry?
      then s.(postings := s.postings[ref := Held(s, ref) + {op.key}], entries := s.entries + {op.key})
      else s.(postings := WithoutPosting(s.postings, ref, op.key), entries := s.entries - {op.key});
    var cell := if op.PutEntry? then Some(EntryCell) else None;
    assert t == Mark(u, op.key, cell);
    forall k | k != FormatKey() ensures Shown(stored, t, k) == Told(t, k) {
      MarkShows(stored, u, op.key, cell, k);
      assert Shown(stored, s, k) == Told(s, k);
    }
  }

  ghost predicate AllOn(ops: seq<EntryOp>, ref: DocRef) {
    forall i :: 0 <= i < |ops| ==> RefOf(ops[i].key) == Some(ref)
  }

  /** Applying a row's changes moves that row's posting, keeps the views, and
      touches no other row. */
  lemma {:induction false} ApplyMovesPosting(s: State, ref: DocRef, ops: seq<EntryOp>)
    requires TwoViews(s) && AllOn(ops, ref)
    ensures TwoViews(Apply(s, ref, ops)) && SameCatalog(s, Apply(s, ref, ops))
    ensures Held(Apply(s, ref, ops), ref) == After(Held(s, ref), ops)
    ensures forall r :: r != ref ==> Held(Apply(s, ref, ops), r) == Held(s, r)
    decreases |ops|
  {
    hide RefOf;
    if ops != [] {
      var init, last := ops[..|ops| - 1], ops[|ops| - 1];
      ApplyMovesPosting(s, ref, init);
      ChangeKeepsViews(Apply(s, ref, init), ref, last);
      ChangeMovesPosting(Apply(s, ref, init), ref, last);
    }
  }

  lemma {:induction false} ApplyKeepsMirror(stored: Cells, s: State, ref: DocRef, ops: seq<EntryOp>)
    requires Mirrors(stored, s) && AllOn(ops, ref)
    ensures Mirrors(stored, Apply(s, ref, ops))
    decreases |ops|
  {
    hide RefOf;
    hide Mirrors;
    if ops != [] {
      var init, last := ops[..|ops| - 1], ops[|ops| - 1];
      ApplyKeepsMirror(stored, s, ref, init);
      ChangeKeepsMirror(stored, Apply(s, ref, init), ref, last);
    }
  }

  // ── Clearing ──────────────────────────────────────────────────────────────

  function Members(keys: seq<Bytes>): set<Bytes> {
    set k | k in keys
  }

  ghost predicate AllParse(keys: seq<Bytes>) {
    forall k :: k in keys ==> RefOf(k).Some?
  }

  /** Clearing entries takes exactly those keys out of every posting. */
  lemma {:induction false} ClearAllRemoves(s: State, doomed: seq<Bytes>)
    requires TwoViews(s) && AllParse(doomed)
    ensures TwoViews(ClearAll(s, doomed)) && SameCatalog(s, ClearAll(s, doomed))
    ensures forall ref :: Held(ClearAll(s, doomed), ref) == Held(s, ref) - Members(doomed)
    decreases |doomed|
  {
    hide RefOf;
    if doomed != [] {
      var init, last := doomed[..|doomed| - 1], doomed[|doomed| - 1];
      assert forall k :: k in doomed <==> k in init || k == last;
      ClearAllRemoves(s, init);
      var t := ClearAll(s, init);
      var ref := RefOf(last).value;
      ChangeKeepsViews(t, ref, DeleteEntry(last));
      ChangeMovesPosting(t, ref, DeleteEntry(last));
      forall r ensures Held(ClearAll(s, doomed), r) == Held(s, r) - Members(doomed) {
        if r != ref { NotHeldElsewhere(s, r, last); }
      }
    }
  }

  lemma {:induction false} ClearAllKeepsMirror(stored: Cells, s: State, doomed: seq<Bytes>)
    requires Mirrors(stored, s) && AllParse(doomed)
    ensures Mirrors(stored, ClearAll(s, doomed))
    decreases |doomed|
  {
    hide RefOf;
    hide Mirrors;
    if doomed != [] {
      var init, last := doomed[..|doomed| - 1], doomed[|doomed| - 1];
      assert forall k :: k in init ==> k in doomed;
      ClearAllKeepsMirror(stored, s, init);
      ChangeKeepsMirror(stored, ClearAll(s, init), RefOf(last).value, DeleteEntry(last));
    }
  }

  lemma NotHeldElsewhere(s: State, ref: DocRef, k: Bytes)
    requires TwoViews(s) && RefOf(k) != Some(ref)
    ensures k !in Held(s, ref)
  {
    hide RefOf;
  }

  function Outside(keys: set<Bytes>, prefix: Bytes): set<Bytes> {
    set k | k in keys && !StartsWith(k, prefix)
  }

  lemma HeldIsEntry(s: State, ref: DocRef, k: Bytes)
    requires TwoViews(s) && k in Held(s, ref)
    ensures k in s.entries
  {
    hide RefOf;
  }

  lemma ScanOfEntries(s: State, prefix: Bytes)
    requires TwoViews(s)
    ensures AllParse(PrefixScan(s.entries, prefix))
    ensures forall ref :: Held(s, ref) - Members(PrefixScan(s.entries, prefix)) == Outside(Held(s, ref), prefix)
  {
    hide RefOf;
    hide PrefixScan;
    var keys := PrefixScan(s.entries, prefix);
    assert forall k :: k in keys <==> k in s.entries && StartsWith(k, prefix) by { PrefixScanExact(s.entries, prefix); }
    forall ref ensures Held(s, ref) - Members(keys) == Outside(Held(s, ref), prefix) {
      forall k | k in Held(s, ref) ensures k in Members(keys) <==> StartsWith(k, prefix) {
        HeldIsEntry(s, ref, k);
      }
    }
  }

  /** Clearing a prefix takes exactly the entries under it out of both views. */
  lemma ClearPrefixRemoves(s: State, prefix: Bytes)
    requires TwoViews(s)
    ensures TwoViews(ClearPrefix(s, prefix)) && SameCatalog(s, ClearPrefix(s, prefix))
    ensures forall ref :: Held(ClearPrefix(s, prefix), ref) == Outside(Held(s, ref), prefix)
  {
    ScanOfEntries(s, prefix);
    hide RefOf;
    hide PrefixScan;
    hide TwoViews;
    ClearAllRemoves(s, PrefixScan(s.entries, prefix));
  }

  lemma ClearPrefixKeepsMirror(stored: Cells, s: State, prefix: Bytes)
    requires TwoViews(s) && Mirrors(stored, s)
    ensures Mirrors(stored, ClearPrefix(s, prefix))
  {
    hide Mirrors;
    hide PrefixScan;
    ScanOfEntries(s, prefix);
    ClearAllKeepsMirror(stored, s, PrefixScan(s.entries, prefix));
  }

  // ── Definitions ───────────────────────────────────────────────────────────

  /** A name keeps the collection it was first declared on. */
  predicate KeepsCollection(s: State, def: IndexDef) {
    def.name in s.defs ==> s.defs[def.name].collection == def.collection
  }

  lemma DefKeyIsNoEntry(def: IndexDef)
    ensures RefOf(def.Key()) == None && def.Key() != FormatKey()
    ensures ParseDef(def.Key()) == Some((def.collection, def.name))
  {
    DefParses(def.collection, def.name);
    KindsAreDisjoint(def.Key());
  }

  lemma OnlyOwnKey(def: IndexDef, k: Bytes)
    ensures ParseDef(k) == Some((def.collection, def.name)) <==> k == def.Key()
  {
    DefParses(def.collection, def.name);
    if ParseDef(k).Some? { ParsedDefRebuilds(k); }
  }

  lemma PutDefKeepsViews(s: State, def: IndexDef)
    requires TwoViews(s)
    ensures TwoViews(PutDef(s, def))
    ensures forall ref :: Held(PutDef(s, def), ref) == Held(s, ref)
    ensures PutDef(s, def).defs == s.defs[def.name := def] && PutDef(s, def).tombstoned == s.tombstoned
  {
    hide RefOf;
  }

  /** Declaring an index keeps the mirror exactly when its name is not taken
      from another collection: the older declaration's key is left behind. */
  lemma PutDefMirror(stored: Cells, s: State, def: IndexDef)
    requires TwoViews(s) && Mirrors(stored, s)
    ensures Mirrors(stored, PutDef(s, def)) <==> KeepsCollection(s, def)
  {
    hide ParseDef;
    if KeepsCollection(s, def) {
      forall k | k != FormatKey() ensures Shown(stored, PutDef(s, def), k) == Told(PutDef(s, def), k) {
        PutDefTells(stored, s, def, k);
      }
    } else {
      var prior := s.defs[def.name];
      DefKeyIsNoEntry(prior);
      assert Shown(stored, s, prior.Key()) == Told(s, prior.Key()) == Some(DefCell(prior)) by {
        hide RefOf;
        assert RefOf(prior.Key()) == None;
      }
      OnlyOwnKey(def, prior.Key());
      MarkShows(stored, s, def.Key(), Some(DefCell(def)), prior.Key());
      var t := PutDef(s, def);
      assert t.entries == s.entries && Told(t, prior.Key()) == None;
      assert Shown(stored, t, prior.Key()) == Some(DefCell(prior));
    }
  }

  /** Declaring a name again on another collection leaves the first definition
      stored although memory has let it go. */
  lemma MovedNameDiverges(a: IndexDef, b: IndexDef)
    requires a.name == b.name && a.collection != b.collection
    ensures Mirrors(map[], PutDef(EMPTY, a)) && !Mirrors(map[], PutDef(PutDef(EMPTY, a), b))
  {
    var none: Cells := map[];
    assert Mirrors(none, EMPTY) && TwoViews(EMPTY);
    hide Mirrors;
    PutDefMirror(none, EMPTY, a);
    PutDefKeepsViews(EMPTY, a);
    PutDefMirror(none, PutDef(EMPTY, a), b);
  }

  lemma PutDefTells(stored: Cells, s: State, def: IndexDef, k: Bytes)
    requires TwoViews(s) && KeepsCollection(s, def) && Shown(stored, s, k) == Told(s, k)
    ensures Shown(stored, PutDef(s, def), k) == Told(PutDef(s, def), k)
  {
    DefKeyIsNoEntry(def);
    OnlyOwnKey(def, k);
    hide RefOf;
    hide ParseDef;
    MarkShows(stored, s, def.Key(), Some(DefCell(def)), k);
  }

  lemma {:induction false} ClearIgnoresDefs(s: State, defs: map<Ident, IndexDef>, doomed: seq<Bytes>)
    ensures ClearAll(s.(defs := defs), doomed) == ClearAll(s, doomed).(defs := defs)
    decreases |doomed|
  {
    hide RefOf;
    hide Valid;
    if doomed != [] {
      ClearIgnoresDefs(s, defs, doomed[..|doomed| - 1]);
    }
  }

  /** Dropping an index removes its definition and exactly its entries. */
  lemma RemoveDefRemoves(s: State, name: Ident)
    requires TwoViews(s) && name in s.defs
    ensures TwoViews(RemoveDef(s, name))
    ensures RemoveDef(s, name).defs == s.defs - {name} && RemoveDef(s, name).tombstoned == s.tombstoned
    ensures forall ref :: Held(RemoveDef(s, name), ref) == Outside(Held(s, ref), s.defs[name].EntryPrefix())
  {
    hide RefOf;
    hide ClearPrefix;
    var bare := s.(defs := s.defs - {name});
    var cleared := ClearPrefix(bare, s.defs[name].EntryPrefix());
    ClearPrefixRemoves(bare, s.defs[name].EntryPrefix());
    forall ref ensures Held(RemoveDef(s, name), ref) == Outside(Held(s, ref), s.defs[name].EntryPrefix()) {
      assert Held(bare, ref) == Held(s, ref) && Held(RemoveDef(s, name), ref) == Held(cleared, ref);
    }
  }

  lemma RemoveDefKeepsMirror(stored: Cells, s: State, name: Ident)
    requires TwoViews(s) && name in s.defs && Mirrors(stored, s)
    ensures Mirrors(stored, RemoveDef(s, name))
  {
    var def := s.defs[name];
    var whole := ClearPrefix(s, def.EntryPrefix());
    ClearPrefixKeepsMirror(stored, s, def.EntryPrefix());
    ClearPrefixRemoves(s, def.EntryPrefix());
    ClearIgnoresDefs(s, s.defs - {name}, PrefixScan(s.entries, def.EntryPrefix()));
    hide ClearPrefix;
    var cleared := whole.(defs := s.defs - {name});
    assert RemoveDef(s, name) == Mark(cleared, def.Key(), None);
    forall k | k != FormatKey() ensures Shown(stored, RemoveDef(s, name), k) == Told(RemoveDef(s, name), k) {
      RemoveDefTells(stored, whole, def, k);
    }
  }

  lemma RemoveDefTells(stored: Cells, s: State, def: IndexDef, k: Bytes)
    requires TwoViews(s) && def.name in s.defs && s.defs[def.name] == def
    requires Shown(stored, s, k) == Told(s, k)
    ensures var t := Mark(s.(defs := s.defs - {def.name}), def.Key(), None);
      Shown(stored, t, k) == Told(t, k)
  {
    DefKeyIsNoEntry(def);
    OnlyOwnKey(def, k);
    hide RefOf;
    hide ParseDef;
    MarkShows(stored, s.(defs := s.defs - {def.name}), def.Key(), None, k);
  }
}
