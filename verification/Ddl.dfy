/** Dropping, moving and clearing indexes. The batch to store is found by a dry
    run on copies of the chosen indexes; the catalog itself changes last. */
module Ddl {
  import opened Options
  import opened ByteOrder
  import opened Utf8
  import opened Key
  import opened Document
  import opened Store
  import opened Maintain
  import opened Install
  import opened Views
  import opened Traces
  import opened Durable

  predicate IsDurable(def: IndexDef) {
    def.engine != DocumentRows
  }

  /** A change with the storage writes it collected. */
  datatype Outcome = Outcome(state: State, ops: seq<WriteOp>)

  /** What DDL does to each index it selects: remove it, or re-declare it over
      another engine's rows without its entries. */
  datatype Ddl = Drop | Move(engine: Engine)

  /** `t`, reached from `s` with its own collection of writes, given back to the
      collection `s` was part of. */
  function Harvest(s: State, t: State): Outcome {
    Outcome(t.(sink := s.sink), Collected(t))
  }

  function DropOne(s: State, def: IndexDef): Outcome {
    if IsDurable(def) then Harvest(s, RemoveDef(Collecting(s), def.name))
    else Outcome(RemoveDef(s, def.name), [])
  }

  function ClearOne(s: State, def: IndexDef): Outcome {
    if IsDurable(def) then Harvest(s, ClearPrefix(Collecting(s), def.EntryPrefix()))
    else Outcome(ClearPrefix(s, def.EntryPrefix()), [])
  }

  function DeclareOne(s: State, def: IndexDef): Outcome {
    if IsDurable(def) then Harvest(s, PutDef(Collecting(s), def))
    else Outcome(PutDef(s, def), [])
  }

  function MoveOne(s: State, def: IndexDef, engine: Engine): Outcome {
    var cleared := ClearOne(s, def);
    var declared := DeclareOne(cleared.state, def.(engine := engine));
    Outcome(declared.state, cleared.ops + declared.ops)
  }

  function ChangeOne(s: State, ddl: Ddl, def: IndexDef): Outcome {
    match ddl
    case Drop => DropOne(s, def)
    case Move(engine) => MoveOne(s, def, engine)
  }

  function ChangeAll(s: State, ddl: Ddl, defs: seq<IndexDef>): Outcome {
    if defs == [] then Outcome(s, [])
    else
      var before := ChangeAll(s, ddl, defs[..|defs| - 1]);
      var last := ChangeOne(before.state, ddl, defs[|defs| - 1]);
      Outcome(last.state, before.ops + last.ops)
  }

  lemma ChangeJustOne(s: State, ddl: Ddl, def: IndexDef)
    ensures ChangeAll(s, ddl, [def]) == ChangeOne(s, ddl, def)
  {
    hide ChangeOne;
    assert [def][..0] == [];
    assert [] + ChangeOne(s, ddl, def).ops == ChangeOne(s, ddl, def).ops;
  }

  // ── The scratch copy ──────────────────────────────────────────────────────

  /** Every key is copied; only a readable one gets a posting. */
  function CopyEntry(s: State, k: Bytes): State {
    var listed := s.(entries := s.entries + {k});
    match RefOf(k)
    case Some(ref) => listed.(postings := s.postings[ref := Held(s, ref) + {k}])
    case None => listed
  }

  function CopyEntries(s: State, keys: seq<Bytes>): State {
    if keys == [] then s else CopyEntry(CopyEntries(s, keys[..|keys| - 1]), keys[|keys| - 1])
  }

  lemma {:induction false} CopyIsLoad(s: State, keys: seq<Bytes>)
    requires AllParse(keys)
    ensures CopyEntries(s, keys) == LoadEntries(s, true, keys)
    decreases |keys|
  {
    hide RefOf;
    if keys != [] {
      assert forall k :: k in keys[..|keys| - 1] ==> k in keys;
      assert keys[|keys| - 1] in keys;
      CopyIsLoad(s, keys[..|keys| - 1]);
    }
  }

  /** The copy a dry run works on: `defs`, and of the entries only theirs. */
  function Scratch(s: State, defs: seq<IndexDef>): State {
    if defs == [] then EMPTY
    else
      var before, def := Scratch(s, defs[..|defs| - 1]), defs[|defs| - 1];
      CopyEntries(before.(defs := before.defs[def.name := def]), PrefixScan(s.entries, def.EntryPrefix()))
  }

  ghost predicate DistinctNames(defs: seq<IndexDef>) {
    forall i, j :: 0 <= i < j < |defs| ==> defs[i].name != defs[j].name
  }

  /** `k` lies under one of the indexes. */
  ghost predicate Selected(defs: seq<IndexDef>, k: Bytes) {
    exists d :: d in defs && StartsWith(k, d.EntryPrefix())
  }

  lemma SelectedGrows(defs: seq<IndexDef>, k: Bytes)
    requires defs != []
    ensures Selected(defs, k)
       <==> Selected(defs[..|defs| - 1], k) || StartsWith(k, defs[|defs| - 1].EntryPrefix())
  {
    var init, last := defs[..|defs| - 1], defs[|defs| - 1];
    assert forall d :: d in defs <==> d in init || d == last;
  }

  lemma {:induction false} ScratchHolds(s: State, defs: seq<IndexDef>)
    requires TwoViews(s)
    ensures TwoViews(Scratch(s, defs)) && Scratch(s, defs).sink == None
    ensures forall k :: k in Scratch(s, defs).entries <==> (k in s.entries && Selected(defs, k))
    decreases |defs|
  {
    if defs != [] {
      var init, def := defs[..|defs| - 1], defs[|defs| - 1];
      ScratchHolds(s, init);
      var before := Scratch(s, init);
      var named := before.(defs := before.defs[def.name := def]);
      NamedKeepsViews(before, def);
      var keys := PrefixScan(s.entries, def.EntryPrefix());
      ScanOfEntries(s, def.EntryPrefix());
      ScanMembers(s.entries, def.EntryPrefix());
      hide PrefixScan;
      hide TwoViews;
      hide Selected;
      LoadEntriesExact(named, keys);
      CopyIsLoad(named, keys);
      forall k ensures k in Scratch(s, defs).entries <==> (k in s.entries && Selected(defs, k)) {
        SelectedGrows(defs, k);
        assert k in Members(keys) <==> k in s.entries && StartsWith(k, def.EntryPrefix());
      }
    } else {
      assert forall k :: !Selected(defs, k);
    }
  }

  lemma ScanMembers(entries: set<Bytes>, prefix: Bytes)
    ensures forall k :: k in Members(PrefixScan(entries, prefix)) <==> (k in entries && StartsWith(k, prefix))
  {
    PrefixScanExact(entries, prefix);
  }

  lemma NamedKeepsViews(s: State, def: IndexDef)
    requires TwoViews(s)
    ensures TwoViews(s.(defs := s.defs[def.name := def]))
  {
    hide RefOf;
  }

  lemma {:induction false} ScratchDefs(s: State, defs: seq<IndexDef>, d: IndexDef)
    requires DistinctNames(defs) && d in defs
    ensures d.name in Scratch(s, defs).defs && Scratch(s, defs).defs[d.name] == d
    decreases |defs|
  {
    var init, last := defs[..|defs| - 1], defs[|defs| - 1];
    var before := Scratch(s, init);
    CopyKeepsDefs(before.(defs := before.defs[last.name := last]), PrefixScan(s.entries, last.EntryPrefix()));
    if d != last {
      assert d in init;
      ScratchDefs(s, init, d);
      var i :| 0 <= i < |init| && init[i] == d;
      assert defs[i] == d;
    }
  }

  lemma {:induction false} CopyKeepsDefs(s: State, keys: seq<Bytes>)
    ensures CopyEntries(s, keys).defs == s.defs
    decreases |keys|
  {
    if keys != [] {
      CopyKeepsDefs(s, keys[..|keys| - 1]);
    }
  }

  // ── The writes depend on the touched index only ───────────────────────────

  function DeleteOps(keys: seq<Bytes>): seq<WriteOp> {
    if keys == [] then [] else DeleteOps(keys[..|keys| - 1]) + [Delete(keys[|keys| - 1])]
  }

  /** The storage writes a change makes for one index, from its entries alone. */
  function OpsFor(entries: set<Bytes>, ddl: Ddl, def: IndexDef): seq<WriteOp> {
    var doomed := if IsDurable(def) then DeleteOps(PrefixScan(entries, def.EntryPrefix())) else [];
    match ddl
    case Drop => if IsDurable(def) then doomed + [Delete(def.Key())] else []
    case Move(engine) =>
      var next := def.(engine := engine);
      doomed + if IsDurable(next) then [Put(next.Key(), DefCell(next))] else []
  }

  lemma {:induction false} ClearAllSinks(s: State, doomed: seq<Bytes>)
    requires s.sink.Some?
    ensures ClearAll(s, doomed).sink == Some(s.sink.value + DeleteOps(doomed))
    decreases |doomed|
  {
    hide RefOf;
    if doomed == [] {
      assert s.sink.value + [] == s.sink.value;
    } else {
      ClearAllSinks(s, doomed[..|doomed| - 1]);
      assert s.sink.value + DeleteOps(doomed)
        == (s.sink.value + DeleteOps(doomed[..|doomed| - 1])) + [Delete(doomed[|doomed| - 1])];
    }
  }

  lemma ClearOneOps(s: State, def: IndexDef)
    ensures ClearOne(s, def).ops == (if IsDurable(def) then DeleteOps(PrefixScan(s.entries, def.EntryPrefix())) else [])
  {
    hide PrefixScan;
    ClearAllSinks(Collecting(s), PrefixScan(s.entries, def.EntryPrefix()));
    assert [] + DeleteOps(PrefixScan(s.entries, def.EntryPrefix())) == DeleteOps(PrefixScan(s.entries, def.EntryPrefix()));
  }

  lemma DeclareOneOps(s: State, def: IndexDef)
    ensures DeclareOne(s, def).ops == if IsDurable(def) then [Put(def.Key(), DefCell(def))] else []
  {
  }

  lemma DropOneOps(s: State, def: IndexDef)
    requires def.name in s.defs && s.defs[def.name] == def
    ensures DropOne(s, def).ops == OpsFor(s.entries, Drop, def)
  {
    hide PrefixScan;
    var bare := Collecting(s).(defs := s.defs - {def.name});
    ClearAllSinks(bare, PrefixScan(s.entries, def.EntryPrefix()));
    assert [] + DeleteOps(PrefixScan(s.entries, def.EntryPrefix())) == DeleteOps(PrefixScan(s.entries, def.EntryPrefix()));
  }

  lemma ChangeOneOps(s: State, ddl: Ddl, def: IndexDef)
    requires ddl.Drop? ==> def.name in s.defs && s.defs[def.name] == def
    ensures ChangeOne(s, ddl, def).ops == OpsFor(s.entries, ddl, def)
  {
    hide ClearOne;
    hide DeclareOne;
    hide DropOne;
    hide PrefixScan;
    match ddl
    case Drop => DropOneOps(s, def);
    case Move(engine) =>
      ClearOneOps(s, def);
      DeclareOneOps(ClearOne(s, def).state, def.(engine := engine));
  }

  // ── Each index is changed apart from the others ───────────────────────────

  /** Only `def` itself changes: its entries go, other indexes keep theirs. */
  ghost predicate ChangedApart(s: State, t: State, ddl: Ddl, def: IndexDef) {
    && TwoViews(t) && t.sink == s.sink && t.tombstoned == s.tombstoned
    && t.defs == (match ddl
                  case Drop => s.defs - {def.name}
                  case Move(engine) => s.defs[def.name := def.(engine := engine)])
    && (forall ref :: Held(t, ref) == Outside(Held(s, ref), def.EntryPrefix()))
  }

  lemma ClearOneApart(s: State, def: IndexDef)
    requires TwoViews(s) && s.sink.None?
    ensures TwoViews(ClearOne(s, def).state)
    ensures ClearOne(s, def).state.defs == s.defs && ClearOne(s, def).state.sink == None
    ensures ClearOne(s, def).state.tombstoned == s.tombstoned
    ensures forall ref :: Held(ClearOne(s, def).state, ref) == Outside(Held(s, ref), def.EntryPrefix())
  {
    hide TwoViews;
    hide ClearPrefix;
    SinkIsIgnored(s, Some([]));
    var from := if IsDurable(def) then Collecting(s) else s;
    ClearPrefixRemoves(from, def.EntryPrefix());
    SinkIsIgnored(ClearPrefix(from, def.EntryPrefix()), None);
    forall ref ensures Held(ClearOne(s, def).state, ref) == Outside(Held(s, ref), def.EntryPrefix()) {
      assert Held(from, ref) == Held(s, ref);
    }
  }

  lemma DeclareOneApart(s: State, def: IndexDef)
    requires TwoViews(s) && s.sink.None?
    ensures TwoViews(DeclareOne(s, def).state)
    ensures DeclareOne(s, def).state.defs == s.defs[def.name := def] && DeclareOne(s, def).state.sink == None
    ensures DeclareOne(s, def).state.tombstoned == s.tombstoned
    ensures forall ref :: Held(DeclareOne(s, def).state, ref) == Held(s, ref)
  {
    hide RefOf;
    hide TwoViews;
    SinkIsIgnored(s, Some([]));
    var from := if IsDurable(def) then Collecting(s) else s;
    PutDefKeepsViews(from, def);
    SinkIsIgnored(PutDef(from, def), None);
  }

  lemma DropOneApart(s: State, def: IndexDef)
    requires TwoViews(s) && s.sink.None? && def.name in s.defs && s.defs[def.name] == def
    ensures ChangedApart(s, DropOne(s, def).state, Drop, def)
  {
    hide TwoViews;
    hide RemoveDef;
    SinkIsIgnored(s, Some([]));
    var from := if IsDurable(def) then Collecting(s) else s;
    RemoveDefRemoves(from, def.name);
    SinkIsIgnored(RemoveDef(from, def.name), None);
    if !IsDurable(def) { RemoveDefTraced(s, def.name, {def.collection}); }
    forall ref ensures Held(DropOne(s, def).state, ref) == Outside(Held(s, ref), def.EntryPrefix()) {
      assert Held(from, ref) == Held(s, ref);
    }
  }

  lemma ChangeOneApart(s: State, ddl: Ddl, def: IndexDef)
    requires TwoViews(s) && s.sink.None? && def.name in s.defs && s.defs[def.name] == def
    ensures ChangedApart(s, ChangeOne(s, ddl, def).state, ddl, def)
  {
    hide TwoViews;
    hide ClearOne;
    hide DeclareOne;
    hide DropOne;
    match ddl
    case Drop => DropOneApart(s, def);
    case Move(engine) =>
      ClearOneApart(s, def);
      DeclareOneApart(ClearOne(s, def).state, def.(engine := engine));
  }

  /** The other index's entries are the same before and after. */
  lemma ApartKeepsOthers(s: State, t: State, ddl: Ddl, def: IndexDef, other: IndexDef)
    requires TwoViews(s) && ChangedApart(s, t, ddl, def)
    requires other.name != def.name
    ensures Under(t.entries, other.EntryPrefix()) == Under(s.entries, other.EntryPrefix())
    ensures other.name in t.defs <==> other.name in s.defs
    ensures other.name in s.defs ==> t.defs[other.name] == s.defs[other.name]
  {
    forall k ensures k in Under(t.entries, other.EntryPrefix()) <==> k in Under(s.entries, other.EntryPrefix()) {
      ApartShows(s, t, ddl, def, k);
      EntryUnder(s, def, k);
      EntryUnder(s, other, k);
      EntryUnder(t, other, k);
    }
  }

  lemma ApartShows(s: State, t: State, ddl: Ddl, def: IndexDef, k: Bytes)
    requires TwoViews(s) && ChangedApart(s, t, ddl, def)
    ensures k in t.entries <==> k in s.entries && !StartsWith(k, def.EntryPrefix())
  {
    hide RefOf;
    HeldIsListed(s, k);
    HeldIsListed(t, k);
  }

  // ── The dry run is exact ──────────────────────────────────────────────────

  /** Both states hold every listed index, durable ones with the same entries. */
  ghost predicate Alike(s: State, t: State, defs: seq<IndexDef>) {
    forall d :: d in defs ==>
      && d.name in s.defs && s.defs[d.name] == d && d.name in t.defs && t.defs[d.name] == d
      && (IsDurable(d) ==> Under(s.entries, d.EntryPrefix()) == Under(t.entries, d.EntryPrefix()))
  }

  /** State invariants a run of changes keeps. */
  ghost predicate Ready(s: State) {
    TwoViews(s) && s.sink.None?
  }

  lemma {:induction false} ChangeAllApart(s: State, ddl: Ddl, defs: seq<IndexDef>, other: IndexDef)
    requires Ready(s) && DistinctNames(defs)
    requires forall d :: d in defs ==> d.name in s.defs && s.defs[d.name] == d
    requires forall d :: d in defs ==> d.name != other.name
    ensures Ready(ChangeAll(s, ddl, defs).state)
    ensures Under(ChangeAll(s, ddl, defs).state.entries, other.EntryPrefix()) == Under(s.entries, other.EntryPrefix())
    ensures other.name in ChangeAll(s, ddl, defs).state.defs <==> other.name in s.defs
    ensures other.name in s.defs ==> ChangeAll(s, ddl, defs).state.defs[other.name] == s.defs[other.name]
    decreases |defs|
  {
    hide ChangeOne;
    hide TwoViews;
    if defs != [] {
      var init, last := defs[..|defs| - 1], defs[|defs| - 1];
      assert forall d :: d in init ==> d in defs;
      ChangeAllApart(s, ddl, init, other);
      LastIsApart(defs);
      ChangeAllApart(s, ddl, init, last);
      var t := ChangeAll(s, ddl, init).state;
      assert last in defs;
      ChangeOneApart(t, ddl, last);
      ApartKeepsOthers(t, ChangeOne(t, ddl, last).state, ddl, last, other);
    }
  }

  lemma LastIsApart(defs: seq<IndexDef>)
    requires DistinctNames(defs) && defs != []
    ensures forall d :: d in defs[..|defs| - 1] ==> d.name != defs[|defs| - 1].name
    ensures DistinctNames(defs[..|defs| - 1])
  {
  }

  /** The storage writes two states yield for the same change are the same when
      the states hold the same durable indexes, whatever else differs. */
  lemma {:induction false} SameOps(s: State, t: State, ddl: Ddl, defs: seq<IndexDef>)
    requires Ready(s) && Ready(t) && DistinctNames(defs) && Alike(s, t, defs)
    ensures ChangeAll(s, ddl, defs).ops == ChangeAll(t, ddl, defs).ops
    decreases |defs|
  {
    hide ChangeOne;
    hide Ready;
    hide OpsFor;
    if defs != [] {
      var init, last := defs[..|defs| - 1], defs[|defs| - 1];
      assert forall d :: d in init ==> d in defs;
      assert last in defs;
      LastIsApart(defs);
      SameOps(s, t, ddl, init);
      ChangeAllApart(s, ddl, init, last);
      ChangeAllApart(t, ddl, init, last);
      var a, b := ChangeAll(s, ddl, init).state, ChangeAll(t, ddl, init).state;
      ChangeOneOps(a, ddl, last);
      ChangeOneOps(b, ddl, last);
      OpsForSame(a.entries, b.entries, ddl, last);
    }
  }

  lemma OpsForSame(a: set<Bytes>, b: set<Bytes>, ddl: Ddl, def: IndexDef)
    requires IsDurable(def) ==> Under(a, def.EntryPrefix()) == Under(b, def.EntryPrefix())
    ensures OpsFor(a, ddl, def) == OpsFor(b, ddl, def)
  {
    PrefixScanExact(a, def.EntryPrefix());
    PrefixScanExact(b, def.EntryPrefix());
  }

  /** Dry-run exactness: the writes computed on the scratch copy of `s` are those
      the catalog yields when the change reaches it, though its document indexes
      have moved on meanwhile. */
  lemma DryRunIsExact(s: State, later: State, ddl: Ddl, defs: seq<IndexDef>)
    requires Ready(s) && Ready(later) && DistinctNames(defs) && Alike(s, later, defs)
    ensures ChangeAll(Scratch(s, defs), ddl, defs).ops == ChangeAll(later, ddl, defs).ops
  {
    ScratchHolds(s, defs);
    var scratch := Scratch(s, defs);
    forall d | d in defs
      ensures d.name in scratch.defs && scratch.defs[d.name] == d
      ensures Under(scratch.entries, d.EntryPrefix()) == Under(s.entries, d.EntryPrefix())
    {
      ScratchDefs(s, defs, d);
      forall k | StartsWith(k, d.EntryPrefix()) ensures k in scratch.entries <==> k in s.entries {
        assert k in s.entries ==> Selected(defs, k);
      }
    }
    assert Alike(scratch, later, defs);
    SameOps(scratch, later, ddl, defs);
  }

  // ── Memory and storage after the change ───────────────────────────────────

  lemma {:induction false} BatchesJoin(cells: Cells, a: seq<WriteOp>, b: seq<WriteOp>)
    ensures ApplyAll(cells, a + b) == ApplyAll(ApplyAll(cells, a), b)
    decreases |b|
  {
    if b == [] {
      assert a + b == a;
    } else {
      BatchesJoin(cells, a, b[..|b| - 1]);
      assert (a + b)[..|a + b| - 1] == a + b[..|b| - 1];
    }
  }

  /** Some entry of the index has a mark pending. */
  ghost predicate HeldMarked(s: State, def: IndexDef) {
    exists k :: k in s.dirty && k in s.entries && StartsWith(k, def.EntryPrefix())
  }

  /** No change stored at once goes to a key with a mark pending. */
  ghost predicate Settled(s: State, ddl: Ddl, def: IndexDef) {
    && (IsDurable(def) ==> !HeldMarked(s, def))
    && (def.Key() in s.dirty ==>
          match ddl
          case Drop => !IsDurable(def)
          case Move(engine) => engine == DocumentRows || engine == def.engine)
  }

  ghost predicate OwnKeys(keys: seq<Bytes>, def: IndexDef) {
    forall k :: k in keys ==> StartsWith(k, def.EntryPrefix())
  }

  lemma ScanIsOwn(entries: set<Bytes>, def: IndexDef)
    ensures OwnKeys(PrefixScan(entries, def.EntryPrefix()), def)
  {
    PrefixScanExact(entries, def.EntryPrefix());
  }

  lemma {:induction false} ClearAllMarks(s: State, doomed: seq<Bytes>, k: Bytes)
    requires k !in doomed
    ensures k in ClearAll(s, doomed).dirty <==> k in s.dirty
    ensures k in s.dirty ==> ClearAll(s, doomed).dirty[k] == s.dirty[k]
    decreases |doomed|
  {
    hide RefOf;
    if doomed != [] {
      assert forall x :: x in doomed[..|doomed| - 1] ==> x in doomed;
      ClearAllMarks(s, doomed[..|doomed| - 1], k);
      assert doomed[|doomed| - 1] in doomed;
    }
  }

  /** Clearing marks only entries of the index. */
  lemma ClearOneMarks(s: State, def: IndexDef, k: Bytes)
    requires !StartsWith(k, def.EntryPrefix())
    ensures k in ClearOne(s, def).state.dirty <==> k in s.dirty
    ensures k in s.dirty ==> ClearOne(s, def).state.dirty[k] == s.dirty[k]
  {
    ScanIsOwn(s.entries, def);
    hide PrefixScan;
    ClearAllMarks(s, PrefixScan(s.entries, def.EntryPrefix()), k);
    ClearAllMarks(Collecting(s), PrefixScan(s.entries, def.EntryPrefix()), k);
  }

  lemma ClearOneDurableMarks(s: State, def: IndexDef)
    requires TwoViews(s) && IsDurable(def)
    ensures ClearOne(s, def).state.dirty == s.dirty
  {
    hide ClearPrefix;
    ClearPrefixTraced(Collecting(s), def, {def.collection});
  }

  lemma DefKeyNotUnder(def: IndexDef, other: IndexDef)
    ensures !StartsWith(def.Key(), other.EntryPrefix())
  {
    var key := def.Key();
    assert EntriesPrefix()[4] == ENTRY && DefsPrefix()[4] == DEF;
    assert DefsPrefix() <= key && key[4] == DEF;
    assert EntriesPrefix() <= other.EntryPrefix() && other.EntryPrefix()[4] == ENTRY;
  }

  // ── One change: exactly when it leaves memory and storage in step ─────────

  lemma EntryIsTold(s: State, k: Bytes)
    requires TwoViews(s)
    ensures k in s.entries <==> k != FormatKey() && Told(s, k) == Some(EntryCell)
  {
    HeldIsListed(s, k);
    KindsAreDisjoint(k);
  }

  lemma ClearTold(s: State, def: IndexDef, k: Bytes)
    requires TwoViews(s) && k != FormatKey()
    ensures Told(ClearPrefix(s, def.EntryPrefix()), k) == Told(s, k) <==> !(k in s.entries && StartsWith(k, def.EntryPrefix()))
  {
    hide ClearPrefix;
    hide StartsWith;
    ClearPrefixShows(s, def.EntryPrefix(), k);
    ClearPrefixRemoves(s, def.EntryPrefix());
    EntryIsTold(s, k);
    EntryIsTold(ClearPrefix(s, def.EntryPrefix()), k);
    hide TwoViews;
  }

  lemma ClearOneMirrorsIff(cells: Cells, s: State, def: IndexDef)
    requires Ready(s) && Mirrors(cells, s)
    ensures Mirrors(ApplyAll(cells, ClearOne(s, def).ops), ClearOne(s, def).state) <==> (IsDurable(def) ==> !HeldMarked(s, def))
  {
    hide ClearPrefix;
    hide Mirrors;
    hide Told;
    SinkIsIgnored(s, Some([]));
    if IsDurable(def) {
      var t := ClearPrefix(Collecting(s), def.EntryPrefix());
      CollectingKeepsMirror(cells, s);
      ClearPrefixKeepsMirror(cells, Collecting(s), def.EntryPrefix());
      ClearPrefixTraced(Collecting(s), def, {def.collection});
      hide TwoViews;
      StoredMirrorsIff(cells, s, t);
      ToldIgnoresSink(s, Some([]));
      forall k | k != FormatKey() ensures Told(t, k) == Told(s, k) <==> !(k in s.entries && StartsWith(k, def.EntryPrefix())) {
        ClearTold(Collecting(s), def, k);
      }
      EntryPrefixIsNoFormat(def);
    } else {
      assert ApplyAll(cells, []) == cells;
      ClearPrefixKeepsMirror(cells, s, def.EntryPrefix());
    }
  }

  lemma ToldIgnoresSink(s: State, sink: Option<seq<WriteOp>>)
    ensures forall k :: Told(s.(sink := sink), k) == Told(s, k)
  {
  }

  lemma EntryPrefixIsNoFormat(def: IndexDef)
    ensures !StartsWith(FormatKey(), def.EntryPrefix())
  {
    assert EntriesPrefix()[4] == ENTRY && FormatKey()[4] == FORMAT;
    assert EntriesPrefix() <= def.EntryPrefix() && def.EntryPrefix()[4] == ENTRY;
  }

  lemma DeclareTold(s: State, def: IndexDef, k: Bytes)
    requires TwoViews(s) && KeepsCollection(s, def)
    ensures Told(PutDef(s, def), k) == Told(s, k) <==> (k == def.Key() ==> def.name in s.defs && s.defs[def.name] == def)
  {
    hide ParseDef;
    DefKeyIsNoEntry(def);
    HeldIsListed(s, def.Key());
    OnlyOwnKey(def, k);
    hide RefOf;
  }

  lemma DeclareOneMirrorsIff(cells: Cells, s: State, def: IndexDef)
    requires Ready(s) && Mirrors(cells, s) && KeepsCollection(s, def)
    ensures Mirrors(ApplyAll(cells, DeclareOne(s, def).ops), DeclareOne(s, def).state)
       <==> (IsDurable(def) && def.Key() in s.dirty ==> def.name in s.defs && s.defs[def.name] == def)
  {
    hide Mirrors;
    hide Told;
    SinkIsIgnored(s, Some([]));
    hide TwoViews;
    if IsDurable(def) {
      var t := PutDef(Collecting(s), def);
      CollectingKeepsMirror(cells, s);
      PutDefMirror(cells, Collecting(s), def);
      StoredMirrorsIff(cells, s, t);
      ToldIgnoresSink(s, Some([]));
      forall k ensures Told(t, k) == Told(s, k) <==> (k == def.Key() ==> def.name in s.defs && s.defs[def.name] == def) {
        DeclareTold(Collecting(s), def, k);
      }
      DefKeyIsNoEntry(def);
    } else {
      assert ApplyAll(cells, []) == cells;
      PutDefMirror(cells, s, def);
    }
  }

  lemma DropTold(s: State, def: IndexDef, k: Bytes)
    requires TwoViews(s) && k != FormatKey() && def.name in s.defs && s.defs[def.name] == def
    ensures Told(RemoveDef(s, def.name), k) == Told(s, k)
       <==> k != def.Key() && !(k in s.entries && StartsWith(k, def.EntryPrefix()))
  {
    hide RemoveDef;
    hide ParseDef;
    RemoveDefRemoves(s, def.name);
    RemoveDefShows(s, def.name, k);
    DefKeyIsNoEntry(def);
    HeldIsListed(s, def.Key());
    OnlyOwnKey(def, k);
    EntryUnder(s, def, k);
    if k in s.entries { EntryIsNoDef(k); }
    hide TwoViews;
    hide ParseEntry;
    hide StartsWith;
  }

  lemma DropOneMirrorsIff(cells: Cells, s: State, def: IndexDef)
    requires Ready(s) && Mirrors(cells, s) && def.name in s.defs && s.defs[def.name] == def
    ensures Mirrors(ApplyAll(cells, DropOne(s, def).ops), DropOne(s, def).state)
       <==> (IsDurable(def) ==> def.Key() !in s.dirty && !HeldMarked(s, def))
  {
    hide Mirrors;
    hide RemoveDef;
    hide Told;
    SinkIsIgnored(s, Some([]));
    hide TwoViews;
    if IsDurable(def) {
      var t := RemoveDef(Collecting(s), def.name);
      CollectingKeepsMirror(cells, s);
      RemoveDefKeepsMirror(cells, Collecting(s), def.name);
      RemoveDefTraced(Collecting(s), def.name, {def.collection});
      StoredMirrorsIff(cells, s, t);
      ToldIgnoresSink(s, Some([]));
      forall k | k != FormatKey()
        ensures Told(t, k) == Told(s, k) <==> k != def.Key() && !(k in s.entries && StartsWith(k, def.EntryPrefix()))
      {
        DropTold(Collecting(s), def, k);
      }
      DefKeyIsNoEntry(def);
      EntryPrefixIsNoFormat(def);
    } else {
      assert ApplyAll(cells, []) == cells;
      RemoveDefKeepsMirror(cells, s, def.name);
    }
  }

  /** A change elsewhere than at `k` leaves what is shown and told of it. */
  lemma ChangeOneElsewhere(cells: Cells, s: State, ddl: Ddl, def: IndexDef, k: Bytes)
    requires Ready(s) && def.name in s.defs && s.defs[def.name] == def
    requires k != def.Key() && !StartsWith(k, def.EntryPrefix())
    ensures var t := ChangeOne(s, ddl, def);
      && Told(t.state, k) == Told(s, k)
      && Shown(ApplyAll(cells, t.ops), t.state, k) == Shown(cells, s, k)
  {
    hide ChangeOne;
    hide ParseDef;
    hide ApplyAll;
    var t := ChangeOne(s, ddl, def);
    ChangeOneApart(s, ddl, def);
    ChangeOneMarks(s, ddl, def, k);
    ChangeOneWrites(s, ddl, def, k);
    BatchShows(cells, t.ops, k);
    LatestOfOthers(t.ops, k, Seen(cells, k));
    OnlyOwnKey(def, k);
    HeldIsListed(s, k);
    HeldIsListed(t.state, k);
    hide TwoViews;
    hide RefOf;
  }

  lemma {:induction false} DeletesOnly(keys: seq<Bytes>, k: Bytes)
    requires k !in keys
    ensures !WritesKey(DeleteOps(keys), k)
    decreases |keys|
  {
    if keys != [] {
      assert forall x :: x in keys[..|keys| - 1] ==> x in keys;
      assert keys[|keys| - 1] in keys;
      DeletesOnly(keys[..|keys| - 1], k);
    }
  }

  lemma ChangeOneWrites(s: State, ddl: Ddl, def: IndexDef, k: Bytes)
    requires Ready(s) && def.name in s.defs && s.defs[def.name] == def
    requires k != def.Key() && !StartsWith(k, def.EntryPrefix())
    ensures !WritesKey(ChangeOne(s, ddl, def).ops, k)
  {
    hide ChangeOne;
    hide PrefixScan;
    ChangeOneOps(s, ddl, def);
    ScanIsOwn(s.entries, def);
    DeletesOnly(PrefixScan(s.entries, def.EntryPrefix()), k);
    hide DeleteOps;
    hide StartsWith;
  }

  lemma ChangeOneMirrorsIff(cells: Cells, s: State, ddl: Ddl, def: IndexDef)
    requires Ready(s) && Mirrors(cells, s) && def.name in s.defs && s.defs[def.name] == def
    ensures Mirrors(ApplyAll(cells, ChangeOne(s, ddl, def).ops), ChangeOne(s, ddl, def).state) <==> Settled(s, ddl, def)
  {
    hide Mirrors;
    hide DropOne;
    hide MoveOne;
    match ddl
    case Drop => DropOneMirrorsIff(cells, s, def);
    case Move(engine) => MoveOneMirrorsIff(cells, s, def, engine);
  }

  lemma MoveOneMirrorsIff(cells: Cells, s: State, def: IndexDef, engine: Engine)
    requires Ready(s) && Mirrors(cells, s) && def.name in s.defs && s.defs[def.name] == def
    ensures Mirrors(ApplyAll(cells, MoveOne(s, def, engine).ops), MoveOne(s, def, engine).state) <==> Settled(s, Move(engine), def)
  {
    hide Mirrors;
    hide ClearOne;
    hide DeclareOne;
    hide TwoViews;
    hide ApplyAll;
    hide HeldMarked;
    var cleared, next := ClearOne(s, def), def.(engine := engine);
    ClearOneMirrorsIff(cells, s, def);
    ClearOneApart(s, def);
    DefKeyNotUnder(next, def);
    ClearOneMarks(s, def, next.Key());
    assert next.Key() == def.Key();
    BatchesJoin(cells, cleared.ops, DeclareOne(cleared.state, next).ops);
    if IsDurable(def) && HeldMarked(s, def) {
      ClearedMarkStays(cells, s, def, engine);
    } else {
      DeclareOneMirrorsIff(ApplyAll(cells, cleared.ops), cleared.state, next);
    }
  }

  lemma ClearedMarkStays(cells: Cells, s: State, def: IndexDef, engine: Engine)
    requires Ready(s) && Mirrors(cells, s) && def.name in s.defs && s.defs[def.name] == def
    requires IsDurable(def) && HeldMarked(s, def)
    ensures !Mirrors(ApplyAll(cells, MoveOne(s, def, engine).ops), MoveOne(s, def, engine).state)
  {
    hide ApplyAll;
    hide MoveOne;
    hide Told;
    hide HeldMarked;
    var k := MarkedEntry(s, def);
    var t := MoveOne(s, def, engine);
    EntryIsTold(s, k);
    MovedMark(s, def, engine, k);
    ChangeOneApart(s, Move(engine), def);
    MovedEntryGone(s, t.state, def, k);
    EntryIsTold(t.state, k);
    hide TwoViews;
    assert Shown(cells, s, k) == Told(s, k);
    assert Shown(ApplyAll(cells, t.ops), t.state, k) == Some(EntryCell);
  }

  ghost function MarkedEntry(s: State, def: IndexDef): (k: Bytes)
    requires HeldMarked(s, def)
    ensures k in s.dirty && k in s.entries && StartsWith(k, def.EntryPrefix())
  {
    var k :| k in s.dirty && k in s.entries && StartsWith(k, def.EntryPrefix());
    k
  }

  lemma MovedMark(s: State, def: IndexDef, engine: Engine, k: Bytes)
    requires Ready(s) && IsDurable(def) && k in s.dirty && StartsWith(k, def.EntryPrefix())
    ensures k in MoveOne(s, def, engine).state.dirty && MoveOne(s, def, engine).state.dirty[k] == s.dirty[k]
  {
    hide ClearOne;
    ClearOneDurableMarks(s, def);
    DefKeyNotUnder(def.(engine := engine), def);
    hide TwoViews;
    hide StartsWith;
  }

  lemma MovedEntryGone(s: State, t: State, def: IndexDef, k: Bytes)
    requires TwoViews(t) && (forall ref :: Held(t, ref) == Outside(Held(s, ref), def.EntryPrefix())) && StartsWith(k, def.EntryPrefix())
    ensures k !in t.entries
  {
    HeldIsListed(t, k);
  }

  // ── A run of changes ──────────────────────────────────────────────────────

  /** A change to one index puts marks on that index's keys only. */
  lemma ChangeOneMarks(s: State, ddl: Ddl, def: IndexDef, k: Bytes)
    requires TwoViews(s) && s.sink.None? && def.name in s.defs && s.defs[def.name] == def
    requires k != def.Key() && !StartsWith(k, def.EntryPrefix())
    ensures k in ChangeOne(s, ddl, def).state.dirty <==> k in s.dirty
    ensures k in s.dirty ==> ChangeOne(s, ddl, def).state.dirty[k] == s.dirty[k]
  {
    hide ClearPrefix;
    hide TwoViews;
    match ddl
    case Drop => DropOneMarks(s, def, k);
    case Move(engine) =>
      var cleared, next := ClearOne(s, def), def.(engine := engine);
      ClearOneMarks(s, def, k);
      hide ClearOne;
      assert next.Key() == def.Key();
  }

  lemma DropOneMarks(s: State, def: IndexDef, k: Bytes)
    requires k != def.Key() && !StartsWith(k, def.EntryPrefix()) && def.name in s.defs && s.defs[def.name] == def
    ensures k in DropOne(s, def).state.dirty <==> k in s.dirty
    ensures k in s.dirty ==> DropOne(s, def).state.dirty[k] == s.dirty[k]
  {
    ScanIsOwn(s.entries, def);
    hide PrefixScan;
    var bare := s.(defs := s.defs - {def.name});
    ClearAllMarks(bare, PrefixScan(s.entries, def.EntryPrefix()), k);
    ClearAllMarks(Collecting(s).(defs := s.defs - {def.name}), PrefixScan(s.entries, def.EntryPrefix()), k);
  }

  /** A key of one index is no key of another. */
  lemma OtherKeys(def: IndexDef, other: IndexDef, k: Bytes)
    requires other.name != def.name && (k == other.Key() || StartsWith(k, other.EntryPrefix()))
    ensures k != def.Key() && !StartsWith(k, def.EntryPrefix())
  {
    DefParses(def.collection, def.name);
    DefParses(other.collection, other.name);
    DefKeyNotUnder(other, def);
    DefKeyNotUnder(def, other);
    hide StartsWith;
    if StartsWith(k, def.EntryPrefix()) && StartsWith(k, other.EntryPrefix()) {
      PrefixesApart(k, def.collection, def.name, other.collection, other.name);
    }
  }

  /** Changes to other indexes leave the keys of `other` and their marks. */
  lemma {:induction false} ChangeAllElsewhere(cells: Cells, s: State, ddl: Ddl, defs: seq<IndexDef>, other: IndexDef, k: Bytes)
    requires Ready(s) && DistinctNames(defs)
    requires forall d :: d in defs ==> d.name in s.defs && s.defs[d.name] == d
    requires forall d :: d in defs ==> d.name != other.name
    requires k == other.Key() || StartsWith(k, other.EntryPrefix())
    ensures var t := ChangeAll(s, ddl, defs);
      && (k in t.state.dirty <==> k in s.dirty)
      && Told(t.state, k) == Told(s, k)
      && Shown(ApplyAll(cells, t.ops), t.state, k) == Shown(cells, s, k)
    decreases |defs|
  {
    hide Ready;
    hide ChangeOne;
    hide StartsWith;
    hide Told;
    hide Shown;
    if defs == [] {
      assert ApplyAll(cells, []) == cells;
    } else {
      hide ApplyAll;
      var init, last := defs[..|defs| - 1], defs[|defs| - 1];
      assert forall d :: d in init ==> d in defs;
      assert last in defs;
      LastIsApart(defs);
      ChangeAllElsewhere(cells, s, ddl, init, other, k);
      ChangeAllApart(s, ddl, init, last);
      OtherKeys(last, other, k);
      var before := ChangeAll(s, ddl, init);
      MarksElsewhere(before.state, ddl, last, k);
      ChangeOneElsewhere(ApplyAll(cells, before.ops), before.state, ddl, last, k);
      BatchesJoin(cells, before.ops, ChangeOne(before.state, ddl, last).ops);
    }
  }

  lemma MarksElsewhere(s: State, ddl: Ddl, def: IndexDef, k: Bytes)
    requires Ready(s) && def.name in s.defs && s.defs[def.name] == def
    requires k != def.Key() && !StartsWith(k, def.EntryPrefix())
    ensures k in ChangeOne(s, ddl, def).state.dirty <==> k in s.dirty
  {
    ChangeOneMarks(s, ddl, def, k);
  }

  lemma SettledStays(s: State, ddl: Ddl, defs: seq<IndexDef>, other: IndexDef)
    requires Ready(s) && DistinctNames(defs)
    requires forall d :: d in defs ==> d.name in s.defs && s.defs[d.name] == d
    requires forall d :: d in defs ==> d.name != other.name
    ensures Settled(ChangeAll(s, ddl, defs).state, ddl, other) <==> Settled(s, ddl, other)
  {
    hide ChangeAll;
    hide StartsWith;
    var t := ChangeAll(s, ddl, defs).state;
    ChangeAllApart(s, ddl, defs, other);
    ChangeAllElsewhere(map[], s, ddl, defs, other, other.Key());
    forall k | StartsWith(k, other.EntryPrefix()) ensures (k in t.dirty <==> k in s.dirty) && (k in t.entries <==> k in s.entries) {
      ChangeAllElsewhere(map[], s, ddl, defs, other, k);
      assert k in Under(t.entries, other.EntryPrefix()) <==> k in Under(s.entries, other.EntryPrefix());
    }
    hide Ready;
    hide Told;
  }

  /** Storing the writes of any run of drops or moves and then changing memory
      leaves the two in step exactly when none goes to a key with a mark that
      says otherwise. */
  lemma {:induction false} ChangeAllMirrorsIff(cells: Cells, s: State, ddl: Ddl, defs: seq<IndexDef>)
    requires Ready(s) && Mirrors(cells, s) && DistinctNames(defs)
    requires forall d :: d in defs ==> d.name in s.defs && s.defs[d.name] == d
    ensures Mirrors(ApplyAll(cells, ChangeAll(s, ddl, defs).ops), ChangeAll(s, ddl, defs).state)
       <==> forall d :: d in defs ==> Settled(s, ddl, d)
    decreases |defs|
  {
    hide Settled;
    hide Ready;
    hide ChangeOne;
    hide Mirrors;
    if defs == [] {
      assert ApplyAll(cells, []) == cells;
    } else {
      hide ApplyAll;
      var init, last := defs[..|defs| - 1], defs[|defs| - 1];
      assert forall d :: d in defs <==> d in init || d == last;
      LastIsApart(defs);
      ChangeAllMirrorsIff(cells, s, ddl, init);
      ChangeAllApart(s, ddl, init, last);
      SettledStays(s, ddl, init, last);
      var before := ChangeAll(s, ddl, init);
      BatchesJoin(cells, before.ops, ChangeOne(before.state, ddl, last).ops);
      if Mirrors(ApplyAll(cells, before.ops), before.state) {
        ChangeOneMirrorsIff(ApplyAll(cells, before.ops), before.state, ddl, last);
      } else {
        LostStays(cells, s, ddl, init, last);
      }
    }
  }

  /** What parted by one change stays so through the others. */
  lemma LostStays(cells: Cells, s: State, ddl: Ddl, init: seq<IndexDef>, last: IndexDef)
    requires Ready(s) && Mirrors(cells, s) && DistinctNames(init) && last.name in s.defs && s.defs[last.name] == last
    requires forall d :: d in init ==> d.name in s.defs && s.defs[d.name] == d && d.name != last.name
    requires var before := ChangeAll(s, ddl, init); Ready(before.state) && !Mirrors(ApplyAll(cells, before.ops), before.state)
    ensures var before := ChangeAll(s, ddl, init);
      var t := ChangeOne(before.state, ddl, last);
      !Mirrors(ApplyAll(ApplyAll(cells, before.ops), t.ops), t.state)
  {
    hide Ready;
    hide ChangeOne;
    hide ChangeAll;
    hide StartsWith;
    hide Told;
    hide Shown;
    hide ApplyAll;
    var before := ChangeAll(s, ddl, init);
    var k :| k != FormatKey() && Shown(ApplyAll(cells, before.ops), before.state, k) != Told(before.state, k);
    ChangeAllApart(s, ddl, init, last);
    if k == last.Key() || StartsWith(k, last.EntryPrefix()) {
      ChangeAllElsewhere(cells, s, ddl, init, last, k);
    } else {
      ChangeOneElsewhere(ApplyAll(cells, before.ops), before.state, ddl, last, k);
    }
  }

  // ── Moving document indexes: exactly when it is safe ──────────────────────

  lemma {:induction false} MovedIsDeclared(s: State, engine: Engine, defs: seq<IndexDef>, d: IndexDef)
    requires Ready(s) && DistinctNames(defs) && d in defs
    requires forall x :: x in defs ==> x.name in s.defs && s.defs[x.name] == x
    ensures d.name in ChangeAll(s, Move(engine), defs).state.defs
    ensures ChangeAll(s, Move(engine), defs).state.defs[d.name] == d.(engine := engine)
    ensures Ready(ChangeAll(s, Move(engine), defs).state)
    decreases |defs|
  {
    hide ChangeOne;
    hide TwoViews;
    var init, last := defs[..|defs| - 1], defs[|defs| - 1];
    assert forall x :: x in init ==> x in defs;
    assert last in defs;
    LastIsApart(defs);
    ChangeAllApart(s, Move(engine), init, last);
    var t := ChangeAll(s, Move(engine), init).state;
    ChangeOneApart(t, Move(engine), last);
    if d != last {
      assert d in init;
      MovedIsDeclared(s, engine, init, d);
    }
  }

  /** The definitions a move leaves on the collection are the moved ones. */
  lemma MovedAre(s: State, collection: Ident, engine: Engine, list: seq<IndexDef>, moved: seq<IndexDef>)
    requires Ready(s) && DistinctNames(list)
    requires forall d :: d in list <==> d.name in s.defs && s.defs[d.name] == d && d.collection == collection
    requires |moved| == |list| && forall i :: 0 <= i < |list| ==> moved[i] == list[i].(engine := engine)
    ensures var t := ChangeAll(s, Move(engine), list).state;
      && (forall d :: d in moved <==> d.name in t.defs && t.defs[d.name] == d && d.collection == collection)
      && (forall d :: d in moved ==> exists e :: e in list && d == e.(engine := engine))
  {
    hide ChangeAll;
    hide RefOf;
    var t := ChangeAll(s, Move(engine), list).state;
    forall i | 0 <= i < |list| ensures moved[i].name in t.defs && t.defs[moved[i].name] == moved[i] {
      MovedIsDeclared(s, engine, list, list[i]);
    }
    forall d: IndexDef | d.name in t.defs && t.defs[d.name] == d && d.collection == collection ensures d in moved {
      if i :| 0 <= i < |list| && list[i].name == d.name {
        assert moved[i] == d;
      } else {
        ChangeAllApart(s, Move(engine), list, d);
      }
    }
  }

  /** Moving a document collection's indexes to a durable engine leaves storage
      and memory in step exactly when no definition of theirs awaits a flush: an
      older mark would later overwrite the definition stored at once. */
  lemma MoveMirrorsIff(cells: Cells, s: State, engine: Engine, defs: seq<IndexDef>)
    requires Ready(s) && Mirrors(cells, s) && DistinctNames(defs) && engine != DocumentRows
    requires forall d :: d in defs ==> d.name in s.defs && s.defs[d.name] == d && !IsDurable(d)
    ensures Mirrors(ApplyAll(cells, ChangeAll(s, Move(engine), defs).ops), ChangeAll(s, Move(engine), defs).state)
       <==> forall d :: d in defs ==> d.Key() !in s.dirty
  {
    hide Mirrors;
    hide Ready;
    hide ChangeAll;
    hide ApplyAll;
    hide HeldMarked;
    ChangeAllMirrorsIff(cells, s, Move(engine), defs);
    forall d | d in defs ensures Settled(s, Move(engine), d) <==> d.Key() !in s.dirty { }
  }

  /** A document index declared and moved before any flush: the waiting mark
      holds the definition of the old engine, and storage would return to it. */
  lemma MoveBeforeFlushDiverges(def: IndexDef, engine: Engine)
    requires !IsDurable(def) && engine != DocumentRows
    ensures Mirrors(map[], PutDef(EMPTY, def))
    ensures var moved := ChangeAll(PutDef(EMPTY, def), Move(engine), [def]);
      !Mirrors(ApplyAll(map[], moved.ops), moved.state)
  {
    var none: Cells := map[];
    assert Mirrors(none, EMPTY);
    assert TwoViews(EMPTY);
    hide Mirrors;
    PutDefMirror(none, EMPTY, def);
    PutDefKeepsViews(EMPTY, def);
    MoveMirrorsIff(none, PutDef(EMPTY, def), engine, [def]);
    assert def in [def] && def.Key() in PutDef(EMPTY, def).dirty;
  }

  // ── A build whose storage write failed ────────────────────────────────────

  /** Remove an index from memory only. */
  function Forgotten(s: State, name: Ident): State {
    Closed(RemoveDef(Collecting(s), name))
  }

  lemma ForgetShows(s: State, name: Ident, k: Bytes)
    requires Ready(s) && name in s.defs
    ensures Ready(Forgotten(s, name)) && Forgotten(s, name).defs == s.defs - {name} && Forgotten(s, name).dirty == s.dirty
    ensures k in Forgotten(s, name).entries
       <==> k in s.entries && !(ParseEntry(k).Some? && Names(ParseEntry(k).value, s.defs[name]))
  {
    SinkIsIgnored(s, Some([]));
    hide TwoViews;
    hide RemoveDef;
    hide ParseEntry;
    var from := Collecting(s);
    RemoveDefRemoves(from, name);
    RemoveDefShows(from, name, k);
    RemoveDefTraced(from, name, {s.defs[name].collection});
    SinkIsIgnored(RemoveDef(from, name), None);
  }

  lemma BuiltInMemory(env: Env, s: State, def: IndexDef, rows: seq<Listed>, k: Bytes)
    requires Ready(s) && KeepsCollection(s, def)
    ensures var t := Closed(Installed(env, Collecting(s), def, rows));
      && Ready(t) && t.defs == s.defs[def.name := def] && t.dirty == s.dirty
      && (ParseEntry(k).None? || !Names(ParseEntry(k).value, def) ==> (k in t.entries <==> k in s.entries))
  {
    SinkIsIgnored(s, Some([]));
    hide TwoViews;
    hide Installed;
    hide ParseEntry;
    InstalledShows(env, Collecting(s), def, rows, k);
    InstalledTraced(env, Collecting(s), def, rows);
    SinkIsIgnored(Installed(env, Collecting(s), def, rows), None);
  }

  /** Undoing a new durable index restores definitions, entries and marks. */
  lemma ForgottenBuildLeavesNoTrace(env: Env, s: State, def: IndexDef, rows: seq<Listed>, k: Bytes)
    requires Ready(s) && Owned(s) && def.name !in s.defs
    ensures var t := Forgotten(Closed(Installed(env, Collecting(s), def, rows)), def.name);
      && Ready(t) && t.defs == s.defs && t.dirty == s.dirty
      && (k in t.entries <==> k in s.entries)
  {
    hide Ready;
    hide Installed;
    hide Forgotten;
    BuiltInMemory(env, s, def, rows, k);
    var built := Closed(Installed(env, Collecting(s), def, rows));
    ForgetShows(built, def.name, k);
    assert s.defs[def.name := def] - {def.name} == s.defs;
    if k in s.entries { NotOurs(s, def, k); }
  }

  lemma NotOurs(s: State, def: IndexDef, k: Bytes)
    requires Owned(s) && def.name !in s.defs && k in s.entries
    ensures ParseEntry(k).Some? && !Names(ParseEntry(k).value, def)
  {
  }

  /** States with the same definitions and entries tell the same cells. */
  lemma SameTold(s: State, t: State)
    requires TwoViews(s) && TwoViews(t)
    ensures (forall k :: k != FormatKey() ==> Told(s, k) == Told(t, k)) <==> s.entries == t.entries && s.defs == t.defs
  {
    if forall k :: k != FormatKey() ==> Told(s, k) == Told(t, k) {
      forall k ensures k in s.entries <==> k in t.entries {
        EntryIsTold(s, k);
        EntryIsTold(t, k);
      }
      forall n ensures n in s.defs <==> n in t.defs
        ensures n in s.defs ==> s.defs[n] == t.defs[n]
      {
        if n in s.defs { DefIsTold(s, t, n); }
        if n in t.defs { DefIsTold(t, s, n); }
      }
    }
  }

  lemma DefIsTold(s: State, t: State, n: Ident)
    requires TwoViews(s) && TwoViews(t) && n in s.defs && forall k :: k != FormatKey() ==> Told(s, k) == Told(t, k)
    ensures n in t.defs && t.defs[n] == s.defs[n]
  {
    var def := s.defs[n];
    DefKeyIsNoEntry(def);
    HeldIsListed(s, def.Key());
    HeldIsListed(t, def.Key());
    assert Told(s, def.Key()) == Told(t, def.Key());
  }

  /** A rebuild of an index already there, whose write failed, is not undone:
      memory stays in step with storage exactly when the rebuild changes neither
      the definition nor the entries. */
  lemma FailedRebuildMirrorsIff(env: Env, cells: Cells, s: State, def: IndexDef, rows: seq<Listed>)
    requires Ready(s) && Mirrors(cells, s) && def.name in s.defs && KeepsCollection(s, def)
    ensures Mirrors(cells, Closed(Installed(env, Collecting(s), def, rows)))
       <==> s.defs[def.name] == def && Under(s.entries, def.EntryPrefix()) == KeysOf(env, def, rows)
  {
    hide TwoViews;
    hide Installed;
    hide KeysOf;
    hide Under;
    hide ParseEntry;
    hide Told;
    var t := Closed(Installed(env, Collecting(s), def, rows));
    BuiltInMemory(env, s, def, rows, FormatKey());
    FailedRebuildEntries(env, s, def, rows);
    SameTold(s, t);
    forall k ensures Shown(cells, t, k) == Shown(cells, s, k) { }
    assert Mirrors(cells, t) <==> forall k :: k != FormatKey() ==> Told(s, k) == Told(t, k);
    assert s.defs == t.defs <==> s.defs[def.name] == def;
  }

  /** So rebuilding an index that holds entries over no rows, with the write
      failing, leaves memory without entries that storage still has. */
  lemma FailedRebuildDiverges(env: Env, cells: Cells, s: State, def: IndexDef)
    requires Ready(s) && Mirrors(cells, s) && def.name in s.defs && s.defs[def.name] == def
    requires Under(s.entries, def.EntryPrefix()) != {}
    ensures !Mirrors(cells, Closed(Installed(env, Collecting(s), def, [])))
  {
    hide Mirrors;
    hide TwoViews;
    hide Installed;
    FailedRebuildMirrorsIff(env, cells, s, def, []);
  }

  /** In step, it is as if nothing had been attempted. */
  lemma FailedRebuildStays(env: Env, s: State, def: IndexDef, rows: seq<Listed>)
    requires Ready(s) && def.name in s.defs && s.defs[def.name] == def
    requires Under(s.entries, def.EntryPrefix()) == KeysOf(env, def, rows)
    ensures Closed(Installed(env, Collecting(s), def, rows)) == s
  {
    hide TwoViews;
    hide Installed;
    hide KeysOf;
    hide Under;
    hide ParseEntry;
    var t := Closed(Installed(env, Collecting(s), def, rows));
    SinkIsIgnored(s, Some([]));
    BuiltInMemory(env, s, def, rows, FormatKey());
    InstalledShows(env, Collecting(s), def, rows, FormatKey());
    InstalledTraced(env, Collecting(s), def, rows);
    FailedRebuildEntries(env, s, def, rows);
    SamePostings(s, t);
  }

  lemma SamePostings(s: State, t: State)
    requires TwoViews(s) && TwoViews(t) && s.entries == t.entries
    ensures s.postings == t.postings
  {
    hide RefOf;
    forall ref ensures ref in s.postings <==> ref in t.postings
      ensures ref in s.postings ==> s.postings[ref] == t.postings[ref]
    {
      if ref in s.postings { HasAll(s, t, ref); }
      if ref in t.postings { HasAll(t, s, ref); }
    }
  }

  lemma HasAll(s: State, t: State, ref: DocRef)
    requires TwoViews(s) && TwoViews(t) && s.entries == t.entries && ref in s.postings
    ensures ref in t.postings && s.postings[ref] <= t.postings[ref]
  {
    hide RefOf;
    var k :| k in s.postings[ref];
    assert k in t.entries && RefOf(k) == Some(ref);
    forall x | x in s.postings[ref] ensures x in t.postings[ref] { assert x in t.entries && RefOf(x) == Some(ref); }
  }

  lemma FailedRebuildEntries(env: Env, s: State, def: IndexDef, rows: seq<Listed>)
    requires Ready(s) && def.name in s.defs && KeepsCollection(s, def)
    ensures var t := Closed(Installed(env, Collecting(s), def, rows));
      s.entries == t.entries <==> Under(s.entries, def.EntryPrefix()) == KeysOf(env, def, rows)
  {
    hide TwoViews;
    hide Installed;
    hide KeysOf;
    hide StartsWith;
    SinkIsIgnored(s, Some([]));
    var t := Closed(Installed(env, Collecting(s), def, rows));
    InstalledEntries(env, Collecting(s), def, rows);
    assert Under(t.entries, def.EntryPrefix()) == KeysOf(env, def, rows);
    forall k | !StartsWith(k, def.EntryPrefix()) ensures k in s.entries <==> k in t.entries {
      ElsewhereStays(env, s, def, rows, k);
    }
    SameUnderSame(s.entries, t.entries, def.EntryPrefix());
  }

  lemma SameUnderSame(a: set<Bytes>, b: set<Bytes>, prefix: Bytes)
    requires forall k :: !StartsWith(k, prefix) ==> (k in a <==> k in b)
    ensures a == b <==> Under(a, prefix) == Under(b, prefix)
  {
    hide StartsWith;
    if Under(a, prefix) == Under(b, prefix) {
      forall k ensures k in a <==> k in b {
        assert k in Under(a, prefix) <==> k in Under(b, prefix);
      }
    }
  }

  lemma ElsewhereStays(env: Env, s: State, def: IndexDef, rows: seq<Listed>, k: Bytes)
    requires Ready(s) && KeepsCollection(s, def) && !StartsWith(k, def.EntryPrefix())
    ensures k in s.entries <==> k in Closed(Installed(env, Collecting(s), def, rows)).entries
  {
    hide Installed;
    BuiltInMemory(env, s, def, rows, k);
    var t := Closed(Installed(env, Collecting(s), def, rows));
    if k in s.entries { EntryUnder(s, def, k); }
    if k in t.entries { EntryUnder(t, def, k); }
  }

  // ── Clearing a document collection's entries ──────────────────────────────

  /** The definitions named, in name order. */
  function InOrder(names: set<Ident>): (list: seq<Ident>)
    ensures forall n :: n in list <==> n in names
  {
    var keys := Ascending(names);
    assert forall i :: 0 <= i < |keys| ==> keys[i] in names;
    keys
  }

  lemma InOrderIsDistinct(names: set<Ident>)
    ensures forall i, j :: 0 <= i < j < |InOrder(names)| ==> InOrder(names)[i] != InOrder(names)[j]
  {
    forall i, j | 0 <= i < j < |InOrder(names)| ensures InOrder(names)[i] != InOrder(names)[j] {
      Trichotomy(InOrder(names)[i], InOrder(names)[j]);
    }
  }

  lemma {:induction false} ChangeAllKeepsTombstones(s: State, ddl: Ddl, defs: seq<IndexDef>)
    requires Ready(s) && DistinctNames(defs) && forall d :: d in defs ==> d.name in s.defs && s.defs[d.name] == d
    ensures ChangeAll(s, ddl, defs).state.tombstoned == s.tombstoned
    decreases |defs|
  {
    hide ChangeOne;
    hide TwoViews;
    if defs != [] {
      var init, last := defs[..|defs| - 1], defs[|defs| - 1];
      assert forall d :: d in init ==> d in defs;
      assert last in defs;
      LastIsApart(defs);
      ChangeAllKeepsTombstones(s, ddl, init);
      ChangeAllApart(s, ddl, init, last);
      ChangeOneApart(ChangeAll(s, ddl, init).state, ddl, last);
    }
  }

  function DefList(defs: map<Ident, IndexDef>, names: seq<Ident>): (list: seq<IndexDef>)
    requires forall n :: n in names ==> n in defs
    ensures |list| == |names| && forall i :: 0 <= i < |names| ==> list[i] == defs[names[i]]
  {
    seq(|names|, i requires 0 <= i < |names| => assert names[i] in names; defs[names[i]])
  }

  function DocumentDefs(s: State, collection: Ident): seq<IndexDef> {
    DefList(s.defs, InOrder(DefsOn(s.defs, collection, DocumentRows)))
  }

  function ClearEach(s: State, defs: seq<IndexDef>): State {
    if defs == [] then s else ClearPrefix(ClearEach(s, defs[..|defs| - 1]), defs[|defs| - 1].EntryPrefix())
  }

  /** Empty the collection's document indexes. */
  function ClearDocuments(s: State, collection: Ident): State {
    ClearEach(s, DocumentDefs(s, collection))
  }

  lemma {:induction false} ClearEachShows(s: State, defs: seq<IndexDef>, k: Bytes)
    requires TwoViews(s)
    ensures TwoViews(ClearEach(s, defs)) && SameCatalog(s, ClearEach(s, defs))
    ensures k in ClearEach(s, defs).entries <==> k in s.entries && !Selected(defs, k)
    decreases |defs|
  {
    hide TwoViews;
    hide ClearPrefix;
    if defs != [] {
      var init := defs[..|defs| - 1];
      ClearEachShows(s, init, k);
      ClearPrefixRemoves(ClearEach(s, init), defs[|defs| - 1].EntryPrefix());
      ClearPrefixShows(ClearEach(s, init), defs[|defs| - 1].EntryPrefix(), k);
      SelectedGrows(defs, k);
      hide Selected;
    }
  }

  lemma {:induction false} ClearEachKeepsMirror(cells: Cells, s: State, defs: seq<IndexDef>)
    requires TwoViews(s) && Mirrors(cells, s)
    ensures Mirrors(cells, ClearEach(s, defs))
    decreases |defs|
  {
    hide TwoViews;
    hide Mirrors;
    hide ClearPrefix;
    if defs != [] {
      var init := defs[..|defs| - 1];
      ClearEachKeepsMirror(cells, s, init);
      ClearEachShows(s, init, FormatKey());
      ClearPrefixKeepsMirror(cells, ClearEach(s, init), defs[|defs| - 1].EntryPrefix());
    }
  }

  lemma {:induction false} ClearEachTraced(s: State, defs: seq<IndexDef>, collections: set<Ident>)
    requires TwoViews(s) && forall i :: 0 <= i < |defs| ==> defs[i].collection in collections
    ensures Traced(s, ClearEach(s, defs), collections)
    decreases |defs|
  {
    hide TwoViews;
    hide Traced;
    hide ClearPrefix;
    if defs == [] {
      TracedReflexive(s, collections);
    } else {
      var init := defs[..|defs| - 1];
      ClearEachTraced(s, init, collections);
      ClearEachShows(s, init, FormatKey());
      ClearPrefixTraced(ClearEach(s, init), defs[|defs| - 1], collections);
      TracedTransitive(s, ClearEach(s, init), ClearEach(s, defs), collections);
    }
  }

  lemma DocumentDefsAt(s: State, collection: Ident, i: nat)
    requires TwoViews(s) && i < |DocumentDefs(s, collection)|
    ensures var d := DocumentDefs(s, collection)[i];
      d.collection == collection && d.name in s.defs && s.defs[d.name] == d
  {
    hide RefOf;
    var names := InOrder(DefsOn(s.defs, collection, DocumentRows));
    assert names[i] in names;
  }

  lemma DocumentDefsHas(s: State, collection: Ident, n: Ident)
    requires TwoViews(s) && n in DefsOn(s.defs, collection, DocumentRows)
    ensures s.defs[n] in DocumentDefs(s, collection) && s.defs[n].name == n
  {
    hide RefOf;
    var names := InOrder(DefsOn(s.defs, collection, DocumentRows));
    var i :| 0 <= i < |names| && names[i] == n;
    assert DocumentDefs(s, collection)[i] == s.defs[n];
  }

  lemma DocumentDefsSelect(s: State, collection: Ident, k: Bytes)
    requires TwoViews(s) && k in s.entries && Owned(s) && OneEngine(s.defs, collection, DocumentRows)
    ensures Selected(DocumentDefs(s, collection), k) <==> ParseEntry(k).value.collection == collection
  {
    hide TwoViews;
    hide DocumentDefs;
    var list, p := DocumentDefs(s, collection), ParseEntry(k).value;
    hide ParseEntry;
    if p.collection == collection {
      assert p.index in DefsOn(s.defs, collection, DocumentRows);
      DocumentDefsHas(s, collection, p.index);
      EntryUnder(s, s.defs[p.index], k);
    }
    if Selected(list, k) {
      var d :| d in list && StartsWith(k, d.EntryPrefix());
      var i :| 0 <= i < |list| && list[i] == d;
      DocumentDefsAt(s, collection, i);
      EntryUnder(s, d, k);
    }
  }

  /** Clearing a document collection removes exactly its entries. */
  lemma ClearDocumentsShows(s: State, collection: Ident, k: Bytes)
    requires TwoViews(s) && Owned(s) && OneEngine(s.defs, collection, DocumentRows)
    ensures TwoViews(ClearDocuments(s, collection)) && SameCatalog(s, ClearDocuments(s, collection))
    ensures k in ClearDocuments(s, collection).entries
       <==> k in s.entries && ParseEntry(k).value.collection != collection
  {
    hide TwoViews;
    hide DocumentDefs;
    hide ParseEntry;
    ClearEachShows(s, DocumentDefs(s, collection), k);
    if k in s.entries { DocumentDefsSelect(s, collection, k); }
  }

  lemma ClearDocumentsTraced(s: State, collection: Ident)
    requires TwoViews(s)
    ensures Traced(s, ClearDocuments(s, collection), {collection})
  {
    hide Traced;
    var names := InOrder(DefsOn(s.defs, collection, DocumentRows));
    var list := DocumentDefs(s, collection);
    forall i | 0 <= i < |list| ensures list[i].collection in {collection} {
      assert names[i] in names;
    }
    ClearEachTraced(s, list, {collection});
  }

  function WithoutCollection(rows: Rows, collection: Ident): Rows {
    map ref | ref in rows && ref.0 != collection :: rows[ref]
  }

  lemma ClearDocumentsAgrees(env: Env, s: State, collection: Ident, rows: Rows)
    requires TwoViews(s) && Agrees(env, s, rows) && OneEngine(s.defs, collection, DocumentRows)
    ensures Agrees(env, ClearDocuments(s, collection), WithoutCollection(rows, collection))
  {
    AgreementOwns(env, s, rows);
    hide ClearDocuments;
    hide TwoViews;
    forall k ensures AgreesOn(env, ClearDocuments(s, collection), WithoutCollection(rows, collection), k) {
      assert AgreesOn(env, s, rows, k);
      ClearDocumentsShows(s, collection, k);
      hide ParseEntry;
    }
  }
}
