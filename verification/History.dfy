/** Documents deleted in a history that keep a live-looking copy elsewhere: how
    they stay out of the indexes, come back, and count in a build. */
module History {
  import opened Options
  import opened ByteOrder
  import opened Utf8
  import opened Key
  import opened Document
  import opened Store
  import opened Maintain
  import opened Install
  import opened Unique

  function Refs(collection: Ident, ids: seq<Text>): set<DocRef> {
    set id | id in ids :: (collection, id)
  }

  /** Record `ids` as deleted and remove their entries. */
  function Tombstone(env: Env, s: State, collection: Ident, ids: seq<Text>): State {
    Resync(env, s.(tombstoned := s.tombstoned + Refs(collection, ids)), collection, ids, map[])
  }

  function Revive(s: State, ref: DocRef): State {
    s.(tombstoned := s.tombstoned - {ref})
  }

  lemma TombstonedKeepsViews(s: State, tombstoned: set<DocRef>)
    requires TwoViews(s)
    ensures TwoViews(s.(tombstoned := tombstoned))
    ensures forall ref :: Held(s.(tombstoned := tombstoned), ref) == Held(s, ref)
  {
    hide RefOf;
  }

  /** What a row holds after a resync of `ids`. */
  function Resynced(env: Env, s: State, collection: Ident, ids: seq<Text>, rows: Rows, ref: DocRef): set<Bytes> {
    var names := DefsOn(s.defs, collection, DocumentRows);
    if ref.0 == collection && ref.1 in ids && names != {}
    then NewKeys(env, s.defs, names, ref.1, LiveRow(s, rows, ref))
    else Held(s, ref)
  }

  /** A resync moves exactly the listed rows, to the entries of their live rows. */
  lemma ResyncMoves(env: Env, s: State, collection: Ident, ids: seq<Text>, rows: Rows)
    requires TwoViews(s)
    ensures TwoViews(Resync(env, s, collection, ids, rows)) && SameCatalog(s, Resync(env, s, collection, ids, rows))
    ensures forall ref :: Held(Resync(env, s, collection, ids, rows), ref) == Resynced(env, s, collection, ids, rows, ref)
  {
    hide TwoViews;
    hide ResyncAll;
    var names := DefsOn(s.defs, collection, DocumentRows);
    if names != {} {
      ResyncAllMoves(env, s, names, collection, ids, rows);
    }
  }

  /** A resync leaves everything as it was, with no mark made, exactly when each
      listed row has its entries already. */
  lemma ResyncIsIdleIff(env: Env, s: State, collection: Ident, ids: seq<Text>, rows: Rows)
    requires TwoViews(s)
    ensures Resync(env, s, collection, ids, rows) == s
       <==> forall id :: id in ids ==> Held(s, (collection, id)) == Resynced(env, s, collection, ids, rows, (collection, id))
  {
    hide TwoViews;
    hide ResyncAll;
    hide NewKeys;
    ResyncMoves(env, s, collection, ids, rows);
    var names := DefsOn(s.defs, collection, DocumentRows);
    if names != {} && forall id :: id in ids ==> Held(s, (collection, id)) == Resynced(env, s, collection, ids, rows, (collection, id)) {
      ResyncAllIdle(env, s, names, collection, ids, rows);
    }
  }

  lemma {:induction false} ResyncAllIdle(env: Env, s: State, names: set<Ident>, collection: Ident, ids: seq<Text>, rows: Rows)
    requires names <= s.defs.Keys
    requires forall id :: id in ids ==>
      Held(s, (collection, id)) == NewKeys(env, s.defs, names, id, LiveRow(s, rows, (collection, id)))
    ensures ResyncAll(env, s, names, collection, ids, rows) == s
    decreases |ids|
  {
    hide NewKeys;
    hide PlanOps;
    if ids != [] {
      var init, last := ids[..|ids| - 1], ids[|ids| - 1];
      assert forall id :: id in ids <==> id in init || id == last;
      ResyncAllIdle(env, s, names, collection, init, rows);
      UnchangedPlansNothing(Held(s, (collection, last)), NewKeys(env, s.defs, names, last, LiveRow(s, rows, (collection, last))));
    }
  }

  /** A document collection's rows hold nothing when none of its indexes does. */
  ghost predicate HoldsNothing(s: State, ref: DocRef) {
    Held(s, ref) == {}
  }

  lemma UnindexedHoldsNothing(s: State, ref: DocRef)
    requires TwoViews(s) && Owned(s) && OneEngine(s.defs, ref.0, DocumentRows)
    requires DefsOn(s.defs, ref.0, DocumentRows) == {}
    ensures HoldsNothing(s, ref)
  {
    assert forall n :: n in s.defs && s.defs[n].collection == ref.0 ==> n in DefsOn(s.defs, ref.0, DocumentRows);
    forall k ensures k !in Held(s, ref) {
      if RefOf(k) == Some(ref) {
        HeldIsListed(s, k);
      } else {
        NotHeldElsewhere(s, ref, k);
      }
    }
  }

  /** Tombstoned rows hold no entries, and no other row changes. */
  lemma TombstoneRemoves(env: Env, s: State, collection: Ident, ids: seq<Text>)
    requires TwoViews(s) && Owned(s) && OneEngine(s.defs, collection, DocumentRows)
    ensures var t := Tombstone(env, s, collection, ids);
      && TwoViews(t) && t.defs == s.defs && t.tombstoned == s.tombstoned + Refs(collection, ids)
      && (forall ref :: ref in Refs(collection, ids) ==> HoldsNothing(t, ref))
      && (forall ref :: ref !in Refs(collection, ids) ==> Held(t, ref) == Held(s, ref))
  {
    hide TwoViews;
    hide Owned;
    hide Resync;
    var marked := s.(tombstoned := s.tombstoned + Refs(collection, ids));
    TombstonedKeepsViews(s, s.tombstoned + Refs(collection, ids));
    ResyncMoves(env, marked, collection, ids, map[]);
    forall ref | ref in Refs(collection, ids) ensures HoldsNothing(Tombstone(env, s, collection, ids), ref) {
      if DefsOn(s.defs, collection, DocumentRows) == {} { UnindexedHoldsNothing(s, ref); }
    }
  }

  // ── Building from history ─────────────────────────────────────────────────

  predicate IsLive(live: seq<Listed>, id: Text) {
    exists i :: 0 <= i < |live| && live[i].0 == id
  }

  /** The copies with no live version. */
  function DeadCopies(live: seq<Listed>, copies: seq<Text>): (dead: seq<Text>)
    ensures forall id :: id in dead <==> (id in copies && !IsLive(live, id))
  {
    if copies == [] then []
    else
      assert forall id :: id in copies <==> id == copies[0] || id in copies[1..];
      (if IsLive(live, copies[0]) then [] else [copies[0]]) + DeadCopies(live, copies[1..])
  }

  /** Install from the live rows of the history, then tombstone the other CRDT
      copies. */
  function BuiltFromHistory(env: Env, s: State, def: IndexDef, live: seq<Listed>, copies: seq<Text>): State {
    Tombstone(env, Installed(env, s, def, live), def.collection, DeadCopies(live, copies))
  }

  // ── Runs ──────────────────────────────────────────────────────────────────

  datatype Event =
    /** The CRDT copies of `ids` changed and the catalog was resynced. */
    | Synced(collection: Ident, ids: seq<Text>, rows: Rows)
    | Deleted(collection: Ident, ids: seq<Text>)
    | Revived(ref: DocRef)
    /** An index was built from the live rows of the history. */
    | Built(def: IndexDef, live: seq<Listed>, copies: seq<Text>)

  function Apply1(env: Env, s: State, e: Event): State {
    match e
    case Synced(collection, ids, rows) => Resync(env, s, collection, ids, rows)
    case Deleted(collection, ids) => Tombstone(env, s, collection, ids)
    case Revived(ref) => Revive(s, ref)
    case Built(def, live, copies) => BuiltFromHistory(env, s, def, live, copies)
  }

  /** The event makes the row live: it is revived, or a build lists it. */
  predicate MakesLive(e: Event, ref: DocRef) {
    match e
    case Revived(r) => r == ref
    case Built(def, live, _) => def.collection == ref.0 && IsLive(live, ref.1)
    case _ => false
  }

  function ApplyEvents(env: Env, s: State, events: seq<Event>): State {
    if events == [] then s else Apply1(env, ApplyEvents(env, s, events[..|events| - 1]), events[|events| - 1])
  }

  ghost predicate Gone(s: State, ref: DocRef) {
    ref in s.tombstoned && HoldsNothing(s, ref)
  }

  lemma TombstoneKeepsGone(env: Env, s: State, collection: Ident, ids: seq<Text>, ref: DocRef)
    requires TwoViews(s) && Gone(s, ref)
    ensures TwoViews(Tombstone(env, s, collection, ids)) && Gone(Tombstone(env, s, collection, ids), ref)
  {
    hide TwoViews;
    hide Resync;
    TombstonedKeepsViews(s, s.tombstoned + Refs(collection, ids));
    ResyncMoves(env, s.(tombstoned := s.tombstoned + Refs(collection, ids)), collection, ids, map[]);
  }

  lemma InstallKeepsGone(env: Env, s: State, def: IndexDef, live: seq<Listed>, ref: DocRef)
    requires TwoViews(s) && Gone(s, ref) && !(def.collection == ref.0 && IsLive(live, ref.1))
    ensures TwoViews(Installed(env, s, def, live)) && Gone(Installed(env, s, def, live), ref)
  {
    hide Installed;
    hide TwoViews;
    InstallAddsListed(env, s, def, live, FormatKey());
    var t := Installed(env, s, def, live);
    forall k ensures k !in Held(t, ref) {
      if k in Held(t, ref) {
        HeldHasRef(t, ref, k);
        InstallAddsListed(env, s, def, live, k);
        HeldIsListed(s, k);
        NotListed(env, def, live, k, ref);
      }
    }
  }

  lemma HeldHasRef(s: State, ref: DocRef, k: Bytes)
    requires TwoViews(s) && k in Held(s, ref)
    ensures k in s.entries && RefOf(k) == Some(ref)
  {
    hide RefOf;
  }

  lemma NotListed(env: Env, def: IndexDef, live: seq<Listed>, k: Bytes, ref: DocRef)
    requires RefOf(k) == Some(ref) && !(def.collection == ref.0 && IsLive(live, ref.1))
    ensures !(ParseEntry(k).Some? && Names(ParseEntry(k).value, def) && ListedHolds(env, def, live, ParseEntry(k).value))
  {
    hide EncodedValues;
  }

  lemma EventKeepsGone(env: Env, s: State, e: Event, ref: DocRef)
    requires TwoViews(s) && Gone(s, ref) && !MakesLive(e, ref)
    ensures TwoViews(Apply1(env, s, e)) && Gone(Apply1(env, s, e), ref)
  {
    hide TwoViews;
    hide Resync;
    match e
    case Synced(collection, ids, rows) => ResyncMoves(env, s, collection, ids, rows);
    case Deleted(collection, ids) => TombstoneKeepsGone(env, s, collection, ids, ref);
    case Built(def, live, copies) =>
      InstallKeepsGone(env, s, def, live, ref);
      TombstoneKeepsGone(env, Installed(env, s, def, live), def.collection, DeadCopies(live, copies), ref);
    case Revived(r) => TombstonedKeepsViews(s, s.tombstoned - {r});
  }

  /** From its tombstone until its revival, whatever reaches the CRDT copies, a
      row has no entry and is a candidate in no unique check. */
  lemma {:induction false} GoneUntilRevived(env: Env, s: State, events: seq<Event>, ref: DocRef)
    requires TwoViews(s) && Gone(s, ref) && forall e :: e in events ==> !MakesLive(e, ref)
    ensures TwoViews(ApplyEvents(env, s, events)) && Gone(ApplyEvents(env, s, events), ref)
    ensures forall def: IndexDef, writes, value :: def.collection == ref.0 ==>
      !Candidate(env, ApplyEvents(env, s, events), def, writes, value, ref.1)
    decreases |events|
  {
    hide TwoViews;
    hide HoldsNothing;
    if events != [] {
      var init := events[..|events| - 1];
      assert forall e :: e in init ==> e in events;
      assert events[|events| - 1] in events;
      GoneUntilRevived(env, s, init, ref);
      EventKeepsGone(env, ApplyEvents(env, s, init), events[|events| - 1], ref);
    }
  }

  // ── A write that revives its row ──────────────────────────────────────────

  /** The tombstones of the written rows are cleared before the check. */
  function RevivedBy(s: State, collection: Ident, writes: seq<RowWrite>): State {
    if writes == [] then s
    else Revive(RevivedBy(s, collection, writes[..|writes| - 1]), (collection, writes[|writes| - 1].0))
  }

  lemma {:induction false} RevivedTombstones(s: State, collection: Ident, writes: seq<RowWrite>, ref: DocRef)
    ensures RevivedBy(s, collection, writes) == s.(tombstoned := RevivedBy(s, collection, writes).tombstoned)
    ensures ref in RevivedBy(s, collection, writes).tombstoned <==> ref in s.tombstoned && !(ref.0 == collection && Writes(writes, ref.1))
    decreases |writes|
  {
    if writes != [] {
      RevivedTombstones(s, collection, writes[..|writes| - 1], ref);
      WritesSplits(writes, ref.1);
      hide Writes;
    }
  }

  /** Deleted rows may be written again: if the live rows were unique before their
      tombstones were cleared and the write passes the check after, the rows it
      leaves are unique, the revived ones among them. */
  lemma RevivingWriteKeepsUnique(env: Env, s: State, def: IndexDef, writes: seq<RowWrite>, rows: Rows)
    requires Lawful(env) && def.name in s.defs && s.defs[def.name] == def
    requires UniqueIn(env, def, LiveRows(s, rows)) && AgreesOutside(env, s, LiveRows(s, rows), def.collection, writes)
    requires AcceptedBy(env, RevivedBy(s, def.collection, writes), def, writes, rows)
    ensures UniqueIn(env, def, LiveRows(RevivedBy(s, def.collection, writes), ApplyWrites(rows, def.collection, writes)))
    ensures forall i :: 0 <= i < |writes| ==> (def.collection, writes[i].0) !in RevivedBy(s, def.collection, writes).tombstoned
  {
    hide Lawful;
    hide AcceptedBy;
    hide Collide;
    hide RefOf;
    hide AgreesOn;
    var t := RevivedBy(s, def.collection, writes);
    forall ref: DocRef ensures ref in t.tombstoned <==> ref in s.tombstoned && !(ref.0 == def.collection && Writes(writes, ref.1)) {
      RevivedTombstones(s, def.collection, writes, ref);
    }
    RevivedTombstones(s, def.collection, writes, (def.collection, []));
    hide RevivedBy;
    RevivedAgrees(env, s, t, def, writes, rows);
    RevivedUnique(env, s, t, def, writes, rows);
    hide UniqueIn;
    hide UniqueOutside;
    hide AgreesOutside;
    AcceptedKeepsUnique(env, t, def, writes, rows);
    assert forall i :: 0 <= i < |writes| ==> Writes(writes, writes[i].0);
  }

  lemma RevivedUnique(env: Env, s: State, t: State, def: IndexDef, writes: seq<RowWrite>, rows: Rows)
    requires UniqueIn(env, def, LiveRows(s, rows))
    requires forall ref: DocRef :: ref in t.tombstoned <==> ref in s.tombstoned && !(ref.0 == def.collection && Writes(writes, ref.1))
    ensures UniqueOutside(env, def, LiveRows(t, rows), writes)
  {
    hide Writes;
    hide Collide;
  }

  lemma RevivedAgrees(env: Env, s: State, t: State, def: IndexDef, writes: seq<RowWrite>, rows: Rows)
    requires t == s.(tombstoned := t.tombstoned) && AgreesOutside(env, s, LiveRows(s, rows), def.collection, writes)
    requires forall ref: DocRef :: ref in t.tombstoned <==> ref in s.tombstoned && !(ref.0 == def.collection && Writes(writes, ref.1))
    ensures AgreesOutside(env, t, LiveRows(t, rows), def.collection, writes)
  {
    hide Writes;
    hide RefOf;
    forall k | RefOf(k).Some? && RefOf(k).value.0 == def.collection && !Writes(writes, RefOf(k).value.1)
      ensures AgreesOn(env, t, LiveRows(t, rows), k)
    {
      assert AgreesOn(env, s, LiveRows(s, rows), k);
      StateRowMatters(env, s, t, LiveRows(s, rows), LiveRows(t, rows), k);
    }
  }

  lemma StateRowMatters(env: Env, s: State, t: State, rows: Rows, later: Rows, k: Bytes)
    requires t.entries == s.entries && t.defs == s.defs
    requires RefOf(k).Some? && RowOf(rows, RefOf(k).value) == RowOf(later, RefOf(k).value)
    ensures AgreesOn(env, s, rows, k) <==> AgreesOn(env, t, later, k)
  {
  }

  // ── A reviving write that is refused ──────────────────────────────────────

  /** The write names a deleted document that has an old copy. */
  predicate Returns(s: State, collection: Ident, writes: seq<RowWrite>, rows: Rows, id: Text) {
    Writes(writes, id) && (collection, id) in rows && (collection, id) in s.tombstoned
  }

  /** The tombstones are cleared before the check and stay cleared if it refuses:
      the live rows are then still unique exactly when no old copy the write
      brought back collides with another live row. */
  lemma RevivalUniqueIff(env: Env, s: State, def: IndexDef, writes: seq<RowWrite>, rows: Rows)
    requires Lawful(env) && UniqueIn(env, def, LiveRows(s, rows))
    ensures var c, live := def.collection, LiveRows(RevivedBy(s, def.collection, writes), rows);
      UniqueIn(env, def, live) <==>
        (forall id, other :: Returns(s, c, writes, rows, id) && (c, other) in live && other != id ==>
           !Collide(env, def, rows[(c, id)], live[(c, other)]))
  {
    hide Lawful;
    hide Collide;
    hide RevivedBy;
    hide Writes;
    var c, t := def.collection, RevivedBy(s, def.collection, writes);
    var live := LiveRows(t, rows);
    forall ref: DocRef ensures ref in t.tombstoned <==> ref in s.tombstoned && !(ref.0 == c && Writes(writes, ref.1)) {
      RevivedTombstones(s, c, writes, ref);
    }
    if forall id, other :: Returns(s, c, writes, rows, id) && (c, other) in live && other != id ==>
         !Collide(env, def, rows[(c, id)], live[(c, other)])
    {
      forall a, b | a in live && b in live && a.0 == c && b.0 == c && a != b ensures !Collide(env, def, live[a], live[b]) {
        assert a == (c, a.1) && b == (c, b.1);
        CollideSymmetric(env, def, live[a], live[b]);
      }
    }
  }

  /** A document deleted while it holds `row`, its value then taken by another. */
  function DeletedAndTaken(def: IndexDef, a: Text, b: Text, row: Value): seq<Event> {
    var c := def.collection;
    [Built(def, [], []), Synced(c, [a], map[(c, a) := row]), Deleted(c, [a]), Synced(c, [b], BothHold(c, a, b, row))]
  }

  function BothHold(collection: Ident, a: Text, b: Text, row: Value): Rows {
    map[(collection, a) := row, (collection, b) := row]
  }

  lemma FirstBuild(env: Env, def: IndexDef)
    ensures var s := Apply1(env, EMPTY, Built(def, [], [])); TwoViews(s) && s.defs == map[def.name := def] && s.tombstoned == {}
  {
    var s := Installed(env, EMPTY, def, []);
    assert TwoViews(EMPTY);
    InstalledShows(env, EMPTY, def, [], FormatKey());
    hide TwoViews;
    hide Installed;
    assert Refs(def.collection, []) == {} && s.tombstoned + {} == s.tombstoned;
  }

  lemma TakenState(env: Env, def: IndexDef, a: Text, b: Text, row: Value)
    requires def.engine == DocumentRows && a != b
    ensures var s := ApplyEvents(env, EMPTY, DeletedAndTaken(def, a, b, row));
      && TwoViews(s) && s.defs == map[def.name := def] && s.tombstoned == {(def.collection, a)}
      && Held(s, (def.collection, b)) == NewKeys(env, s.defs, {def.name}, b, Some(row))
  {
    hide TwoViews;
    hide Installed;
    hide Resync;
    hide NewKeys;
    var c, events := def.collection, DeletedAndTaken(def, a, b, row);
    var one, two, three := events[..1], events[..2], events[..3];
    assert three[..2] == two && two[..1] == one && one[..0] == [] && events[..3] == three;
    var s1 := Apply1(env, EMPTY, events[0]);
    FirstBuild(env, def);
    assert ApplyEvents(env, EMPTY, one) == s1;
    ResyncMoves(env, s1, c, [a], map[(c, a) := row]);
    var s2 := Apply1(env, s1, events[1]);
    assert ApplyEvents(env, EMPTY, two) == s2;
    TombstonedKeepsViews(s2, s2.tombstoned + Refs(c, [a]));
    ResyncMoves(env, s2.(tombstoned := s2.tombstoned + Refs(c, [a])), c, [a], map[]);
    var s3 := Apply1(env, s2, events[2]);
    assert ApplyEvents(env, EMPTY, three) == s3;
    assert Refs(c, [a]) == {(c, a)};
    ResyncMoves(env, s3, c, [b], BothHold(c, a, b, row));
    assert DefsOn(s3.defs, c, DocumentRows) == {def.name} && b in [b];
  }

  /** The deleted document written again with the value it held: the write is
      refused, yet the live rows, unique before it, no longer are, and at the next
      resync both documents have their entries in the unique index. */
  lemma RefusedRevivalDiverges(env: Env, def: IndexDef, a: Text, b: Text, row: Value, v: Value)
    requires Lawful(env) && def.engine == DocumentRows && a != b && v in IndexValues(env, def, row) && env.eq(v, v)
    ensures var s, rows := ApplyEvents(env, EMPTY, DeletedAndTaken(def, a, b, row)), BothHold(def.collection, a, b, row);
      var t := RevivedBy(s, def.collection, [(a, Some(row))]);
      && UniqueIn(env, def, LiveRows(s, rows))
      && !AcceptedBy(env, t, def, [(a, Some(row))], rows) && !UniqueIn(env, def, LiveRows(t, rows))
      && EntryKeys(env, def, a, row) + EntryKeys(env, def, b, row) <= Resync(env, t, def.collection, [a], rows).entries
  {
    hide TwoViews;
    hide ApplyEvents;
    hide EntryKeys;
    hide Resync;
    hide AcceptedBy;
    var c := def.collection;
    var s, rows := ApplyEvents(env, EMPTY, DeletedAndTaken(def, a, b, row)), BothHold(c, a, b, row);
    TakenState(env, def, a, b, row);
    hide DeletedAndTaken;
    hide Candidate;
    var t := s.(tombstoned := {});
    assert RevivedBy(s, c, [(a, Some(row))]) == t by { assert [(a, Some(row))][..0] == []; }
    TombstonedKeepsViews(s, {});
    TakenTwice(env, s, t, def, a, b, row, v);
    hide UniqueIn;
    RefusedAgain(env, t, def, a, b, row, v);
    BothReturn(env, t, def, a, b, row);
  }

  lemma TakenTwice(env: Env, s: State, t: State, def: IndexDef, a: Text, b: Text, row: Value, v: Value)
    requires a != b && v in IndexValues(env, def, row) && env.eq(v, v)
    requires s.tombstoned == {(def.collection, a)} && t.tombstoned == {}
    ensures var rows := BothHold(def.collection, a, b, row);
      UniqueIn(env, def, LiveRows(s, rows)) && !UniqueIn(env, def, LiveRows(t, rows))
  {
    assert Collide(env, def, row, row);
    hide Collide;
    var rows := BothHold(def.collection, a, b, row);
    assert (def.collection, a) in LiveRows(t, rows) && (def.collection, b) in LiveRows(t, rows);
  }

  lemma BothReturn(env: Env, t: State, def: IndexDef, a: Text, b: Text, row: Value)
    requires a != b && def.engine == DocumentRows
    requires TwoViews(t) && t.defs == map[def.name := def] && t.tombstoned == {}
    requires Held(t, (def.collection, b)) == NewKeys(env, t.defs, {def.name}, b, Some(row))
    ensures EntryKeys(env, def, a, row) + EntryKeys(env, def, b, row)
         <= Resync(env, t, def.collection, [a], BothHold(def.collection, a, b, row)).entries
  {
    hide TwoViews;
    hide EntryKeys;
    hide Resync;
    var c, rows := def.collection, BothHold(def.collection, a, b, row);
    ResyncMoves(env, t, c, [a], rows);
    assert a in [a] && DefsOn(t.defs, c, DocumentRows) == {def.name};
    var u := Resync(env, t, c, [a], rows);
    assert Held(u, (c, a)) == NewKeys(env, t.defs, {def.name}, a, Some(row));
    forall k | k in EntryKeys(env, def, a, row) + EntryKeys(env, def, b, row) ensures k in u.entries {
      if k in EntryKeys(env, def, a, row) { HeldHasRef(u, (c, a), k); } else { HeldHasRef(u, (c, b), k); }
    }
  }

  lemma RefusedAgain(env: Env, t: State, def: IndexDef, a: Text, b: Text, row: Value, v: Value)
    requires Lawful(env) && a != b && v in IndexValues(env, def, row) && env.eq(v, v)
    requires TwoViews(t) && t.defs == map[def.name := def] && t.tombstoned == {}
    requires Held(t, (def.collection, b)) == NewKeys(env, t.defs, {def.name}, b, Some(row))
    ensures !AcceptedBy(env, t, def, [(a, Some(row))], BothHold(def.collection, a, b, row))
  {
    hide RefOf;
    hide EncodeCoercible;
    hide NewKeys;
    var c, rows := def.collection, BothHold(def.collection, a, b, row);
    forall k | RefOf(k) == Some((c, b)) ensures AgreesOn(env, t, rows, k) {
      SettledAgrees(env, t, t, rows, k, {def.name});
    }
    hide TwoViews;
    hide AgreesOn;
    IndexValuesAreIndexable(env, def, row);
    EqualValueHasEntry(env, t, def, rows, b, v, v);
    var writes: seq<RowWrite> := [(a, Some(row))];
    assert writes[0].1.Some? && !Writes(writes, b);
    assert Candidate(env, t, def, writes, v, b) && HeldBy(env, def, v, row);
  }

  /** Of a single document: once revived, the next resync leaves it without
      entries exactly when its old copy has nothing to index. */
  lemma RevivedCopyReturns(env: Env, s: State, ref: DocRef, rows: Rows)
    requires TwoViews(s) && Gone(s, ref)
    ensures HoldsNothing(Resync(env, Revive(s, ref), ref.0, [ref.1], rows), ref)
       <==> NewKeys(env, s.defs, DefsOn(s.defs, ref.0, DocumentRows), ref.1, RowOf(rows, ref)) == {}
  {
    hide TwoViews;
    hide Resync;
    hide EntryKeys;
    TombstonedKeepsViews(s, s.tombstoned - {ref});
    ResyncMoves(env, Revive(s, ref), ref.0, [ref.1], rows);
    assert ref.1 in [ref.1];
  }

  lemma BuildTombstones(env: Env, s: State, def: IndexDef, live: seq<Listed>, copies: seq<Text>, id: Text)
    requires TwoViews(s) && Owned(s) && KeepsCollection(s, def) && def.engine == DocumentRows
    requires OneEngine(s.defs, def.collection, DocumentRows)
    requires id in copies && !IsLive(live, id)
    ensures Gone(BuiltFromHistory(env, s, def, live, copies), (def.collection, id))
  {
    hide TwoViews;
    hide Installed;
    hide Tombstone;
    InstalledIsOwned(env, s, def, live);
    InstalledShows(env, s, def, live, FormatKey());
    TombstoneRemoves(env, Installed(env, s, def, live), def.collection, DeadCopies(live, copies));
  }

  lemma InstalledIsOwned(env: Env, s: State, def: IndexDef, live: seq<Listed>)
    requires TwoViews(s) && Owned(s) && KeepsCollection(s, def)
    ensures Owned(Installed(env, s, def, live))
  {
    hide TwoViews;
    hide Installed;
    forall k | k in Installed(env, s, def, live).entries
      ensures ParseEntry(k).Some?
      ensures ToldDef(Installed(env, s, def, live).defs, Some((ParseEntry(k).value.collection, ParseEntry(k).value.index))).Some?
    {
      InstalledShows(env, s, def, live, k);
    }
  }

  /** A bitemporal build leaves under the index exactly the entries of the live
      history rows, and every other CRDT copy tombstoned without entries. */
  lemma BuildIsExact(env: Env, s: State, def: IndexDef, live: seq<Listed>, copies: seq<Text>, k: Bytes)
    requires TwoViews(s) && Owned(s) && KeepsCollection(s, def) && def.engine == DocumentRows
    requires OneEngine(s.defs, def.collection, DocumentRows)
    requires ParseEntry(k).Some? && Names(ParseEntry(k).value, def)
    ensures k in BuiltFromHistory(env, s, def, live, copies).entries <==> ListedHolds(env, def, live, ParseEntry(k).value)
  {
    var p := ParseEntry(k).value;
    assert RefOf(k) == Some((def.collection, p.docId));
    hide ParseEntry;
    hide RefOf;
    hide TwoViews;
    hide Installed;
    hide Tombstone;
    hide Owned;
    var t := Installed(env, s, def, live);
    InstalledIsOwned(env, s, def, live);
    InstalledShows(env, s, def, live, k);
    TombstoneRemoves(env, t, def.collection, DeadCopies(live, copies));
    var u := BuiltFromHistory(env, s, def, live, copies);
    HeldIsListed(t, k);
    HeldIsListed(u, k);
    if (def.collection, p.docId) in Refs(def.collection, DeadCopies(live, copies)) {
      assert !IsLive(live, p.docId);
      assert !ListedHolds(env, def, live, p);
    }
  }
}
