/** Strict and key-value writes: rows and entries reach storage together, memory
    comes after, and marks left for the flush may still wait on the same keys. */
module Durable {
  import opened Options
  import opened ByteOrder
  import opened Utf8
  import opened Key
  import opened Document
  import opened Store
  import opened Maintain
  import opened Install
  import opened Views
  import opened Traces

  /** What a write makes of one row; no contents means it is removed. */
  datatype RowImage = RowImage(collection: Ident, docId: Text, row: Option<Value>) {
    function Ref(): DocRef {
      (collection, docId)
    }
  }

  function ApplyImage(rows: Rows, image: RowImage): Rows {
    match image.row
    case Some(value) => rows[image.Ref() := value]
    case None => rows - {image.Ref()}
  }

  /** The rows a write leaves: a row listed twice ends as its last image. */
  function ApplyImages(rows: Rows, images: seq<RowImage>): Rows {
    if images == [] then rows else ApplyImage(ApplyImages(rows, images[..|images| - 1]), images[|images| - 1])
  }

  predicate Touches(images: seq<RowImage>, ref: DocRef) {
    exists i :: 0 <= i < |images| && images[i].Ref() == ref
  }

  // ── Planning ──────────────────────────────────────────────────────────────

  /** A row and the changes to its entries. */
  datatype RowChange = RowChange(ref: DocRef, ops: seq<EntryOp>)

  /** The plan so far: what each planned row will hold, and the changes. */
  datatype Plan = Plan(held: map<DocRef, set<Bytes>>, changes: seq<RowChange>)

  function WillHold(s: State, plan: Plan, ref: DocRef): set<Bytes> {
    if ref in plan.held then plan.held[ref] else Held(s, ref)
  }

  function PlanImage(env: Env, s: State, engine: Engine, plan: Plan, image: RowImage): Plan {
    var names := DefsOn(s.defs, image.collection, engine);
    if names == {} then plan
    else
      var had := WillHold(s, plan, image.Ref());
      var ops := PlanOps(had, NewKeys(env, s.defs, names, image.docId, image.row));
      Plan(plan.held[image.Ref() := After(had, ops)], plan.changes + [RowChange(image.Ref(), ops)])
  }

  function PlanImages(env: Env, s: State, engine: Engine, images: seq<RowImage>): Plan {
    if images == [] then Plan(map[], [])
    else PlanImage(env, s, engine, PlanImages(env, s, engine, images[..|images| - 1]), images[|images| - 1])
  }

  function ApplyChanges(s: State, changes: seq<RowChange>): State {
    if changes == [] then s
    else
      var last := changes[|changes| - 1];
      Apply(ApplyChanges(s, changes[..|changes| - 1]), last.ref, last.ops)
  }

  function StoreOp(op: EntryOp): WriteOp {
    match op case PutEntry(k) => Put(k, EntryCell) case DeleteEntry(k) => Delete(k)
  }

  function StoreOps(ops: seq<EntryOp>): (out: seq<WriteOp>)
    ensures |out| == |ops|
  {
    if ops == [] then [] else StoreOps(ops[..|ops| - 1]) + [StoreOp(ops[|ops| - 1])]
  }

  /** The entry writes of a plan, in order. */
  function BatchOf(changes: seq<RowChange>): seq<WriteOp> {
    if changes == [] then [] else BatchOf(changes[..|changes| - 1]) + StoreOps(changes[|changes| - 1].ops)
  }

  /** The state `s` collecting its storage writes. */
  function Collecting(s: State): State {
    s.(sink := Some([]))
  }

  function Collected(s: State): seq<WriteOp> {
    match s.sink case Some(ops) => ops case None => []
  }

  function Closed(s: State): State {
    s.(sink := None)
  }

  // ── Settling images one after another ─────────────────────────────────────

  function SettleImage(env: Env, s: State, engine: Engine, image: RowImage): (t: State)
    ensures t.defs == s.defs && t.tombstoned == s.tombstoned
  {
    var names := DefsOn(s.defs, image.collection, engine);
    if names == {} then s
    else
      ApplyKeepsDefs(s, image.Ref(), PlanOps(Held(s, image.Ref()), NewKeys(env, s.defs, names, image.docId, image.row)));
      Settle(env, s, names, image.Ref(), image.row)
  }

  function SettleImages(env: Env, s: State, engine: Engine, images: seq<RowImage>): (t: State)
    ensures t.defs == s.defs && t.tombstoned == s.tombstoned
    decreases |images|
  {
    if images == [] then s
    else SettleImage(env, SettleImages(env, s, engine, images[..|images| - 1]), engine, images[|images| - 1])
  }

  lemma SettleImageMoves(env: Env, s: State, engine: Engine, image: RowImage)
    requires TwoViews(s)
    ensures TwoViews(SettleImage(env, s, engine, image))
    ensures var names := DefsOn(s.defs, image.collection, engine);
      names != {} ==> Held(SettleImage(env, s, engine, image), image.Ref()) == NewKeys(env, s.defs, names, image.docId, image.row)
    ensures forall r :: r != image.Ref() || DefsOn(s.defs, image.collection, engine) == {} ==>
      Held(SettleImage(env, s, engine, image), r) == Held(s, r)
  {
    hide TwoViews;
    hide Settle;
    hide NewKeys;
    var names := DefsOn(s.defs, image.collection, engine);
    if names != {} {
      SettleMoves(env, s, names, image.Ref(), image.row);
    }
  }

  lemma {:induction false} ApplySinks(s: State, ref: DocRef, ops: seq<EntryOp>)
    requires s.sink.Some?
    ensures Apply(s, ref, ops).sink == Some(s.sink.value + StoreOps(ops))
    decreases |ops|
  {
    if ops == [] {
      assert s.sink.value + [] == s.sink.value;
    } else {
      ApplySinks(s, ref, ops[..|ops| - 1]);
      assert s.sink.value + StoreOps(ops)
        == (s.sink.value + StoreOps(ops[..|ops| - 1])) + [StoreOp(ops[|ops| - 1])];
    }
  }

  /** A plan foresees what each row will hold. */
  ghost predicate Foresees(s: State, plan: Plan, t: State) {
    forall ref :: WillHold(s, plan, ref) == Held(t, ref)
  }

  lemma PlanForesees(env: Env, s: State, t: State, engine: Engine, plan: Plan, image: RowImage)
    requires TwoViews(t) && s.defs == t.defs && Foresees(s, plan, t)
    ensures Foresees(s, PlanImage(env, s, engine, plan, image), SettleImage(env, t, engine, image))
  {
    hide TwoViews;
    hide PlanOps;
    hide NewKeys;
    hide SettleImage;
    SettleImageMoves(env, t, engine, image);
    var names := DefsOn(s.defs, image.collection, engine);
    assert WillHold(s, plan, image.Ref()) == Held(t, image.Ref());
    PlanReaches(Held(t, image.Ref()), NewKeys(env, s.defs, names, image.docId, image.row));
    var u, next := SettleImage(env, t, engine, image), PlanImage(env, s, engine, plan, image);
    forall r ensures WillHold(s, next, r) == Held(u, r) {
      assert WillHold(s, plan, r) == Held(t, r);
    }
  }

  lemma PlanApplies(env: Env, s: State, t: State, engine: Engine, plan: Plan, image: RowImage)
    requires s.defs == t.defs && Foresees(s, plan, t) && s.sink.Some?
    requires ApplyChanges(s, plan.changes) == t && t.sink == Some(s.sink.value + BatchOf(plan.changes))
    ensures var next, u := PlanImage(env, s, engine, plan, image), SettleImage(env, t, engine, image);
      ApplyChanges(s, next.changes) == u && u.sink == Some(s.sink.value + BatchOf(next.changes))
  {
    hide PlanOps;
    hide NewKeys;
    hide ApplyChanges;
    hide BatchOf;
    hide Apply;
    var names := DefsOn(s.defs, image.collection, engine);
    assert WillHold(s, plan, image.Ref()) == Held(t, image.Ref());
    if names != {} {
      var ops := PlanOps(Held(t, image.Ref()), NewKeys(env, s.defs, names, image.docId, image.row));
      ChangeApplies(s, t, plan.changes, RowChange(image.Ref(), ops));
    }
  }

  lemma ChangeApplies(s: State, t: State, changes: seq<RowChange>, change: RowChange)
    requires s.sink.Some? && ApplyChanges(s, changes) == t && t.sink == Some(s.sink.value + BatchOf(changes))
    ensures var u := Apply(t, change.ref, change.ops);
      ApplyChanges(s, changes + [change]) == u && u.sink == Some(s.sink.value + BatchOf(changes + [change]))
  {
    hide Apply;
    ApplySinks(t, change.ref, change.ops);
    var all := changes + [change];
    assert all[..|all| - 1] == changes;
    assert s.sink.value + BatchOf(all) == (s.sink.value + BatchOf(changes)) + StoreOps(change.ops);
  }

  /** Each image planned against what earlier ones will leave: together the plan
      makes the changes, and collects the writes, of settling them in turn. */
  lemma {:induction false} PlanMatchesSettling(env: Env, s: State, engine: Engine, images: seq<RowImage>)
    requires TwoViews(s) && s.sink.Some?
    ensures TwoViews(SettleImages(env, s, engine, images))
    ensures ApplyChanges(s, PlanImages(env, s, engine, images).changes) == SettleImages(env, s, engine, images)
    ensures SettleImages(env, s, engine, images).sink
         == Some(s.sink.value + BatchOf(PlanImages(env, s, engine, images).changes))
    ensures Foresees(s, PlanImages(env, s, engine, images), SettleImages(env, s, engine, images))
    decreases |images|
  {
    hide TwoViews;
    if images == [] {
      assert s.sink.value + [] == s.sink.value;
    } else {
      hide Foresees;
      hide PlanImage;
      hide SettleImage;
      var init, image := images[..|images| - 1], images[|images| - 1];
      PlanMatchesSettling(env, s, engine, init);
      var plan, t := PlanImages(env, s, engine, init), SettleImages(env, s, engine, init);
      SettleImageMoves(env, t, engine, image);
      PlanForesees(env, s, t, engine, plan, image);
      PlanApplies(env, s, t, engine, plan, image);
    }
  }

  // ── What a committed write leaves ─────────────────────────────────────────

  lemma {:induction false} ImagesElsewhere(rows: Rows, images: seq<RowImage>, ref: DocRef)
    requires !Touches(images, ref)
    ensures RowOf(ApplyImages(rows, images), ref) == RowOf(rows, ref)
    decreases |images|
  {
    if images != [] {
      TouchesSplits(images, ref);
      ImagesElsewhere(rows, images[..|images| - 1], ref);
    }
  }

  lemma ImageRow(rows: Rows, image: RowImage, ref: DocRef)
    ensures RowOf(ApplyImage(rows, image), ref) == if ref == image.Ref() then image.row else RowOf(rows, ref)
  {
  }

  lemma TouchesSplits(images: seq<RowImage>, ref: DocRef)
    requires images != []
    ensures Touches(images, ref) <==> Touches(images[..|images| - 1], ref) || images[|images| - 1].Ref() == ref
  {
    var init := images[..|images| - 1];
    if Touches(init, ref) {
      var i :| 0 <= i < |init| && init[i].Ref() == ref;
      assert images[i].Ref() == ref;
    }
    if Touches(images, ref) {
      var i :| 0 <= i < |images| && images[i].Ref() == ref;
      assert i < |init| ==> init[i].Ref() == ref;
    }
  }

  /** Every touched row of an indexed collection ends with exactly the entries
      of its last image, and every other row keeps its own. */
  lemma {:induction false} SettleImagesMoves(env: Env, s: State, engine: Engine, images: seq<RowImage>, rows: Rows, ref: DocRef)
    requires TwoViews(s)
    ensures TwoViews(SettleImages(env, s, engine, images))
    ensures Held(SettleImages(env, s, engine, images), ref) ==
      var names := DefsOn(s.defs, ref.0, engine);
      if Touches(images, ref) && names != {}
      then NewKeys(env, s.defs, names, ref.1, RowOf(ApplyImages(rows, images), ref))
      else Held(s, ref)
    decreases |images|
  {
    hide TwoViews;
    hide SettleImage;
    hide NewKeys;
    if images != [] {
      var init, image := images[..|images| - 1], images[|images| - 1];
      SettleImagesMoves(env, s, engine, init, rows, ref);
      TouchesSplits(images, ref);
      hide Touches;
      hide ApplyImage;
      ImageRow(ApplyImages(rows, init), image, ref);
      SettleImageMoves(env, SettleImages(env, s, engine, init), engine, image);
    }
  }

  ghost predicate ImagesOn(images: seq<RowImage>, assign: Assignment, engine: Engine) {
    forall i :: 0 <= i < |images| ==> assign(images[i].collection) == engine
  }

  ghost predicate Engines(defs: map<Ident, IndexDef>, assign: Assignment) {
    forall n :: n in defs ==> defs[n].engine == assign(defs[n].collection)
  }

  /** A write of all images keeps the entries in agreement with the rows. */
  lemma SettleImagesAgrees(env: Env, assign: Assignment, s: State, engine: Engine, images: seq<RowImage>, rows: Rows)
    requires TwoViews(s) && Agrees(env, s, rows) && Engines(s.defs, assign) && ImagesOn(images, assign, engine)
    ensures Agrees(env, SettleImages(env, s, engine, images), ApplyImages(rows, images))
  {
    hide TwoViews;
    hide SettleImages;
    AgreementOwns(env, s, rows);
    forall k ensures AgreesOn(env, SettleImages(env, s, engine, images), ApplyImages(rows, images), k) {
      assert AgreesOn(env, s, rows, k);
      SettleImagesAgreesOn(env, assign, s, engine, images, rows, k);
    }
  }

  lemma RowMatters(env: Env, s: State, rows: Rows, later: Rows, k: Bytes)
    requires RefOf(k).Some? ==> RowOf(rows, RefOf(k).value) == RowOf(later, RefOf(k).value)
    ensures AgreesOn(env, s, rows, k) <==> AgreesOn(env, s, later, k)
  {
  }

  lemma SettleImagesAgreesOn(env: Env, assign: Assignment, s: State, engine: Engine, images: seq<RowImage>, rows: Rows, k: Bytes)
    requires TwoViews(s) && Owned(s) && AgreesOn(env, s, rows, k)
    requires Engines(s.defs, assign) && ImagesOn(images, assign, engine)
    ensures AgreesOn(env, SettleImages(env, s, engine, images), ApplyImages(rows, images), k)
  {
    hide TwoViews;
    hide Owned;
    hide AgreesOn;
    hide RefOf;
    hide NewKeys;
    var t := SettleImages(env, s, engine, images);
    var later := ApplyImages(rows, images);
    if RefOf(k) == None {
      SettleImagesViews(env, s, engine, images);
      NoDocumentAgrees(env, t, later, k);
    } else {
      var ref := RefOf(k).value;
      SettleImagesMoves(env, s, engine, images, rows, ref);
      var on := set n | n in s.defs && s.defs[n].collection == ref.0;
      if Touches(images, ref) {
        assert on == DefsOn(s.defs, ref.0, engine);
        if on == {} {
          assert forall n :: n in s.defs ==> n !in on;
          UnindexedAgrees(env, s, t, later, k);
        } else {
          SettledAgrees(env, s, t, later, k, on);
        }
      } else {
        ImagesElsewhere(rows, images, ref);
        RowMatters(env, s, rows, later, k);
        SettledAgrees(env, s, t, later, k, on);
      }
    }
  }

  lemma SettleImagesViews(env: Env, s: State, engine: Engine, images: seq<RowImage>)
    requires TwoViews(s)
    ensures TwoViews(SettleImages(env, s, engine, images))
  {
    hide TwoViews;
    SettleImagesMoves(env, s, engine, images, map[], ([], []));
  }

  lemma UnindexedAgrees(env: Env, s: State, t: State, rows: Rows, k: Bytes)
    requires TwoViews(s) && TwoViews(t) && Owned(s) && s.defs == t.defs && RefOf(k).Some?
    requires Held(t, RefOf(k).value) == Held(s, RefOf(k).value)
    requires forall n :: n in s.defs ==> s.defs[n].collection != RefOf(k).value.0
    ensures AgreesOn(env, t, rows, k)
  {
    HeldIsListed(s, k);
    HeldIsListed(t, k);
  }

  lemma {:induction false} SettleImagesKeepsMirror(env: Env, cells: Cells, s: State, engine: Engine, images: seq<RowImage>)
    requires TwoViews(s) && Mirrors(cells, s)
    ensures Mirrors(cells, SettleImages(env, s, engine, images))
    decreases |images|
  {
    hide TwoViews;
    hide Mirrors;
    hide Settle;
    if images != [] {
      var init, image := images[..|images| - 1], images[|images| - 1];
      SettleImagesKeepsMirror(env, cells, s, engine, init);
      SettleImagesViews(env, s, engine, init);
      var t := SettleImages(env, s, engine, init);
      var names := DefsOn(t.defs, image.collection, engine);
      if names != {} { SettleKeepsMirror(env, cells, t, names, image.Ref(), image.row); }
    }
  }

  function CollectionsOf(images: seq<RowImage>): set<Ident> {
    set i | 0 <= i < |images| :: images[i].collection
  }

  lemma {:induction false} SettleImagesTraced(env: Env, s: State, engine: Engine, images: seq<RowImage>, collections: set<Ident>)
    requires TwoViews(s) && forall i :: 0 <= i < |images| ==> images[i].collection in collections
    ensures Traced(s, SettleImages(env, s, engine, images), collections)
    decreases |images|
  {
    hide TwoViews;
    hide Traced;
    hide Settle;
    if images == [] {
      TracedReflexive(s, collections);
    } else {
      var init, image := images[..|images| - 1], images[|images| - 1];
      SettleImagesTraced(env, s, engine, init, collections);
      SettleImagesViews(env, s, engine, init);
      var t := SettleImages(env, s, engine, init);
      var names := DefsOn(t.defs, image.collection, engine);
      if names != {} {
        SettleTraced(env, t, names, image.Ref(), image.row, collections);
        TracedTransitive(s, t, SettleImages(env, s, engine, images), collections);
      }
    }
  }

  // ── Committing collected writes ───────────────────────────────────────────

  ghost predicate Clean(ops: seq<WriteOp>, marks: map<Bytes, Dirty>) {
    forall i :: 0 <= i < |ops| ==> ops[i].key !in marks
  }

  lemma {:induction false} LatestOfOthers(ops: seq<WriteOp>, key: Bytes, before: Option<Cell>)
    requires forall i :: 0 <= i < |ops| ==> ops[i].key != key
    ensures Latest(ops, key, before) == before
    decreases |ops|
  {
    if ops != [] {
      LatestOfOthers(ops[..|ops| - 1], key, before);
    }
  }

  predicate WritesKey(ops: seq<WriteOp>, key: Bytes) {
    exists i :: 0 <= i < |ops| && ops[i].key == key
  }

  lemma {:induction false} LatestOfWritten(ops: seq<WriteOp>, key: Bytes, a: Option<Cell>, b: Option<Cell>)
    requires WritesKey(ops, key)
    ensures Latest(ops, key, a) == Latest(ops, key, b)
    decreases |ops|
  {
    var init, last := ops[..|ops| - 1], ops[|ops| - 1];
    if last.key != key {
      var i :| 0 <= i < |ops| && ops[i].key == key;
      assert init[i].key == key;
      LatestOfWritten(init, key, a, b);
    }
  }

  /** Each mark on a key the collected writes touch says what memory tells. */
  ghost predicate MarksCurrent(s: State)
    requires s.sink.Some?
  {
    forall k :: k in s.dirty && k != FormatKey() && WritesKey(s.sink.value, k) ==> s.dirty[k].cell == Told(s, k)
  }

  /** Storing the collected writes leaves storage under the marks equal to memory
      exactly when no touched key has a mark that says otherwise: a waiting mark
      is laid over the write at the next flush. */
  lemma CommitMirrorsIff(cells: Cells, s: State)
    requires s.sink.Some? && Mirrors(cells, s)
    ensures Mirrors(ApplyAll(cells, s.sink.value), Closed(s)) <==> MarksCurrent(s)
  {
    var ops, t := s.sink.value, Closed(s);
    var later := ApplyAll(cells, ops);
    forall k | k != FormatKey()
      ensures Shown(later, t, k) == Told(t, k) <==> !(k in s.dirty && WritesKey(ops, k) && s.dirty[k].cell != Told(s, k))
    {
      CommitShows(cells, s, k);
    }
    hide WritesKey;
    hide Shown;
    hide Told;
  }

  lemma CommitShows(cells: Cells, s: State, k: Bytes)
    requires s.sink.Some? && Mirrors(cells, s) && k != FormatKey()
    ensures var later, t := ApplyAll(cells, s.sink.value), Closed(s);
      && Told(t, k) == Told(s, k)
      && (Shown(later, t, k) == Told(t, k) <==> !(k in s.dirty && WritesKey(s.sink.value, k) && s.dirty[k].cell != Told(s, k)))
  {
    var ops := s.sink.value;
    assert Shown(cells, s, k) == Told(s, k);
    BatchShows(cells, ops, k);
    if k in s.dirty {
      if !WritesKey(ops, k) { LatestOfOthers(ops, k, s.dirty[k].cell); }
    }
  }

  /** In particular when no mark waits on them. */
  lemma CommitKeepsMirror(cells: Cells, s: State)
    requires s.sink.Some? && Mirrors(cells, s) && Clean(s.sink.value, s.dirty)
    ensures Mirrors(ApplyAll(cells, s.sink.value), Closed(s))
  {
    hide Mirrors;
    CommitMirrorsIff(cells, s);
  }

  /** Every key with a mark shows in `t` what it showed in `s`. */
  ghost predicate MarkedStay(s: State, t: State) {
    forall k :: k in s.dirty && k != FormatKey() ==> Told(t, k) == Told(s, k)
  }

  /** A change collected from a state with nothing collected and then stored
      keeps the two in step exactly when it leaves every marked key as it was. */
  lemma StoredMirrorsIff(cells: Cells, s: State, t: State)
    requires s.sink.None? && t.sink.Some? && t.dirty == s.dirty && Mirrors(cells, s) && Mirrors(cells, t)
    ensures Mirrors(ApplyAll(cells, Collected(t)), Closed(t)) <==> MarkedStay(s, t)
  {
    CommitMirrorsIff(cells, t);
    forall k | k in s.dirty && k != FormatKey()
      ensures Told(s, k) == s.dirty[k].cell && (!WritesKey(t.sink.value, k) ==> Told(t, k) == s.dirty[k].cell)
    {
      assert Shown(cells, s, k) == Told(s, k) && Shown(cells, t, k) == Told(t, k);
      if !WritesKey(t.sink.value, k) { LatestOfOthers(t.sink.value, k, s.dirty[k].cell); }
    }
    hide Mirrors;
    hide Told;
    hide WritesKey;
  }

  lemma CollectingKeepsMirror(cells: Cells, s: State)
    requires s.sink.None? && Mirrors(cells, s)
    ensures Mirrors(cells, Collecting(s))
  {
    forall k | k != FormatKey() ensures Shown(cells, Collecting(s), k) == Told(Collecting(s), k) {
      assert Shown(cells, s, k) == Told(s, k);
    }
  }

  lemma {:induction false} PlanIgnoresSink(env: Env, s: State, engine: Engine, images: seq<RowImage>)
    ensures PlanImages(env, Collecting(s), engine, images) == PlanImages(env, s, engine, images)
    decreases |images|
  {
    hide PlanOps;
    hide NewKeys;
    if images != [] {
      PlanIgnoresSink(env, s, engine, images[..|images| - 1]);
    }
  }

  lemma SinkIsIgnored(s: State, sink: Option<seq<WriteOp>>)
    requires TwoViews(s)
    ensures TwoViews(s.(sink := sink))
    ensures forall ref :: Held(s.(sink := sink), ref) == Held(s, ref)
  {
    hide RefOf;
  }

  /** What settling from a collecting state gives. */
  lemma SettledToStore(env: Env, cells: Cells, s: State, engine: Engine, images: seq<RowImage>)
    requires TwoViews(s) && s.sink.None? && Mirrors(cells, s)
    ensures var t := SettleImages(env, Collecting(s), engine, images);
      && t.sink.Some? && t.dirty == s.dirty && t.defs == s.defs
      && TwoViews(t) && TwoViews(Closed(t)) && Mirrors(cells, t)
  {
    hide Mirrors;
    hide SettleImages;
    hide TwoViews;
    var t := SettleImages(env, Collecting(s), engine, images);
    SinkIsIgnored(s, Some([]));
    CollectingKeepsMirror(cells, s);
    SettleImagesMoves(env, Collecting(s), engine, images, map[], ([], []));
    SettleImagesKeepsMirror(env, cells, Collecting(s), engine, images);
    SettleImagesTraced(env, Collecting(s), engine, images, CollectionsOf(images));
    SinkIsIgnored(t, None);
  }

  /** The entries a write gives a touched document: those of its last image. */
  ghost function LastKeys(env: Env, s: State, engine: Engine, images: seq<RowImage>, rows: Rows, ref: DocRef): set<Bytes> {
    NewKeys(env, s.defs, DefsOn(s.defs, ref.0, engine), ref.1, RowOf(ApplyImages(rows, images), ref))
  }

  /** No entry of a touched document comes or goes while its key has a mark. */
  ghost predicate MarkedEntriesStay(env: Env, s: State, engine: Engine, images: seq<RowImage>, rows: Rows) {
    forall k :: k in s.dirty && RefOf(k).Some? && Touches(images, RefOf(k).value)
                && DefsOn(s.defs, RefOf(k).value.0, engine) != {} ==>
      (k in Held(s, RefOf(k).value) <==> k in LastKeys(env, s, engine, images, rows, RefOf(k).value))
  }

  lemma EntryTold(s: State, k: Bytes)
    requires TwoViews(s)
    ensures RefOf(k).Some? ==> Told(s, k) == if k in Held(s, RefOf(k).value) then Some(EntryCell) else None
    ensures RefOf(k).None? ==> Told(s, k) == ToldDef(s.defs, ParseDef(k))
  {
    HeldIsListed(s, k);
    if RefOf(k).Some? { EntryIsNoDef(k); }
  }

  /** A write of strict or key-value rows, stored, leaves memory and storage in
      step exactly when no marked key gains or loses its entry by it. */
  lemma RowsMirrorIff(env: Env, cells: Cells, s: State, engine: Engine, images: seq<RowImage>, rows: Rows)
    requires TwoViews(s) && s.sink.None? && Mirrors(cells, s)
    ensures var t := SettleImages(env, Collecting(s), engine, images);
      Mirrors(ApplyAll(cells, Collected(t)), Closed(t)) <==> MarkedEntriesStay(env, s, engine, images, rows)
  {
    hide Mirrors;
    hide SettleImages;
    hide TwoViews;
    hide RefOf;
    hide Touches;
    hide LastKeys;
    hide DefsOn;
    var t := SettleImages(env, Collecting(s), engine, images);
    SettledToStore(env, cells, s, engine, images);
    StoredMirrorsIff(cells, s, t);
    forall k | k in s.dirty && k != FormatKey()
      ensures Told(t, k) == Told(s, k)
         <==> (RefOf(k).Some? && Touches(images, RefOf(k).value) && DefsOn(s.defs, RefOf(k).value.0, engine) != {} ==>
                 (k in Held(s, RefOf(k).value) <==> k in LastKeys(env, s, engine, images, rows, RefOf(k).value)))
    {
      RowKeyTold(env, s, engine, images, rows, k);
    }
    FormatKeyHasNoRef();
    hide Told;
  }

  lemma FormatKeyHasNoRef()
    ensures RefOf(FormatKey()) == None
  {
    KindsAreDisjoint(FormatKey());
  }

  lemma RowKeyTold(env: Env, s: State, engine: Engine, images: seq<RowImage>, rows: Rows, k: Bytes)
    requires TwoViews(s) && s.sink.None?
    requires var t := SettleImages(env, Collecting(s), engine, images); TwoViews(t) && t.defs == s.defs
    ensures var t := SettleImages(env, Collecting(s), engine, images);
      (Told(t, k) == Told(s, k)) <==>
        (RefOf(k).Some? && Touches(images, RefOf(k).value) && DefsOn(s.defs, RefOf(k).value.0, engine) != {} ==>
           (k in Held(s, RefOf(k).value) <==> k in LastKeys(env, s, engine, images, rows, RefOf(k).value)))
  {
    hide SettleImages;
    hide TwoViews;
    hide Told;
    hide RefOf;
    hide NewKeys;
    hide Touches;
    hide ApplyImages;
    var t := SettleImages(env, Collecting(s), engine, images);
    EntryTold(s, k);
    EntryTold(t, k);
    if RefOf(k).Some? {
      SinkIsIgnored(s, Some([]));
      SettleImagesMoves(env, Collecting(s), engine, images, rows, RefOf(k).value);
    }
  }

  /** A committed write leaves each document it touches with exactly the entries
      of its last image, and every other document with what it had; storage shows
      the same on every key that has no mark or that the write puts or deletes. */
  lemma CommitIsExact(env: Env, cells: Cells, s: State, engine: Engine, images: seq<RowImage>, rows: Rows, k: Bytes)
    requires TwoViews(s) && s.sink.None? && Mirrors(cells, s)
    requires RefOf(k).Some? && DefsOn(s.defs, RefOf(k).value.0, engine) != {}
    ensures var t, ref := SettleImages(env, Collecting(s), engine, images), RefOf(k).value;
      && (Touches(images, ref) ==> (k in Held(Closed(t), ref) <==> k in LastKeys(env, s, engine, images, rows, ref)))
      && (!Touches(images, ref) ==> Held(Closed(t), ref) == Held(s, ref))
      && (k !in s.dirty || WritesKey(Collected(t), k) ==>
            (Seen(ApplyAll(cells, Collected(t)), k) == Some(EntryCell) <==> k in Held(Closed(t), ref)))
  {
    hide Mirrors;
    hide TwoViews;
    hide RefOf;
    hide Touches;
    hide ApplyImages;
    hide SettleImages;
    hide NewKeys;
    hide ApplyAll;
    hide WritesKey;
    SinkIsIgnored(s, Some([]));
    SettledToStore(env, cells, s, engine, images);
    var t, ref := SettleImages(env, Collecting(s), engine, images), RefOf(k).value;
    SettleImagesMoves(env, Collecting(s), engine, images, rows, ref);
    if k !in s.dirty || WritesKey(Collected(t), k) {
      StoredTells(cells, t, k);
    }
  }

  lemma StoredTells(cells: Cells, t: State, k: Bytes)
    requires TwoViews(t) && t.sink.Some? && Mirrors(cells, t) && RefOf(k).Some?
    requires k !in t.dirty || WritesKey(t.sink.value, k)
    ensures Seen(ApplyAll(cells, t.sink.value), k) == Some(EntryCell) <==> k in Held(t, RefOf(k).value)
  {
    hide TwoViews;
    EntryTold(t, k);
    FormatKeyHasNoRef();
    assert Shown(cells, t, k) == Told(t, k);
    BatchShows(cells, t.sink.value, k);
    if k in t.dirty { LatestOfWritten(t.sink.value, k, t.dirty[k].cell, Seen(cells, k)); }
  }
}
