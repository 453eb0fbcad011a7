/** The unique check: which writes it accepts, and that accepted writes leave
    every unique index unique. */
module Unique {
  import opened Options
  import opened Utf8
  import opened Key
  import opened Document
  import opened Store
  import opened Maintain
  import opened Install
  import opened Durable

  /** A row a write gives contents to, or removes. */
  type RowWrite = (Text, Option<Value>)

  function ApplyWrites(rows: Rows, collection: Ident, writes: seq<RowWrite>): Rows {
    if writes == [] then rows
    else
      var init, last := ApplyWrites(rows, collection, writes[..|writes| - 1]), writes[|writes| - 1];
      match last.1
      case Some(row) => init[(collection, last.0) := row]
      case None => init - {(collection, last.0)}
  }

  predicate Writes(writes: seq<RowWrite>, docId: Text) {
    exists i :: 0 <= i < |writes| && writes[i].0 == docId
  }

  /** Row `i` is the last of its document among the first `j`. */
  predicate LastBefore(writes: seq<RowWrite>, i: nat, j: nat)
    requires i < j <= |writes|
  {
    forall m :: i < m < j ==> writes[m].0 != writes[i].0
  }

  /** The rows a list of images gives one collection, in order. */
  function WritesOn(images: seq<RowImage>, collection: Ident): seq<RowWrite> {
    if images == [] then []
    else
      var init, last := WritesOn(images[..|images| - 1], collection), images[|images| - 1];
      if last.collection == collection then init + [(last.docId, last.row)] else init
  }

  // ── Collisions ────────────────────────────────────────────────────────────

  /** Two rows give the index values coerced equality holds equal. */
  ghost predicate Collide(env: Env, def: IndexDef, a: Value, b: Value) {
    exists v, w :: v in IndexValues(env, def, a) && w in IndexValues(env, def, b) && env.eq(v, w)
  }

  /** No two documents hold equal values. */
  ghost predicate UniqueIn(env: Env, def: IndexDef, rows: Rows) {
    forall a, b :: a in rows && b in rows && a.0 == def.collection && b.0 == def.collection && a != b
      ==> !Collide(env, def, rows[a], rows[b])
  }

  /** While the write is read in order, a row meets a value another document of
      the write holds at that point. */
  ghost predicate ClashWithin(env: Env, def: IndexDef, writes: seq<RowWrite>) {
    exists i, j :: 0 <= i < j < |writes| && writes[i].0 != writes[j].0 && LastBefore(writes, i, j)
      && writes[i].1.Some? && writes[j].1.Some? && Collide(env, def, writes[i].1.value, writes[j].1.value)
  }

  /** A document outside the write with an entry under a key of `value`. */
  ghost predicate Candidate(env: Env, s: State, def: IndexDef, writes: seq<RowWrite>, value: Value, other: Text) {
    && (exists j :: 0 <= j < |writes| && writes[j].1.Some? && value in IndexValues(env, def, writes[j].1.value))
    && (exists e :: e in EncodeCoercible(env, value) && EntryKey(def.EntryPrefix(), e, other) in s.entries)
    && !Writes(writes, other) && (def.collection, other) !in s.tombstoned
  }

  predicate HeldBy(env: Env, def: IndexDef, value: Value, row: Value) {
    exists held :: held in IndexValues(env, def, row) && env.eq(held, value)
  }

  /** The write passes the check of one unique index. */
  ghost predicate AcceptedBy(env: Env, s: State, def: IndexDef, writes: seq<RowWrite>, rows: Rows) {
    && !ClashWithin(env, def, writes)
    && forall value, other :: Candidate(env, s, def, writes, value, other) && (def.collection, other) in rows
         ==> !HeldBy(env, def, value, rows[(def.collection, other)])
  }

  /** The write passes the check of every unique index on the collection. */
  ghost predicate Accepted(env: Env, s: State, collection: Ident, engine: Engine, writes: seq<RowWrite>, rows: Rows) {
    forall n :: n in DefsOn(s.defs, collection, engine) && s.defs[n].unique ==> AcceptedBy(env, s, s.defs[n], writes, rows)
  }

  // ── Accepted writes keep uniqueness ───────────────────────────────────────

  /** Row `i` is the document's last, and its contents are what is left. */
  ghost predicate EndsAs(rows: Rows, collection: Ident, writes: seq<RowWrite>, docId: Text, i: nat) {
    && i < |writes| && writes[i].0 == docId && LastBefore(writes, i, |writes|)
    && RowOf(ApplyWrites(rows, collection, writes), (collection, docId)) == writes[i].1
  }

  lemma WritesSplits(writes: seq<RowWrite>, docId: Text)
    requires writes != []
    ensures Writes(writes, docId) <==> Writes(writes[..|writes| - 1], docId) || writes[|writes| - 1].0 == docId
  {
    var init := writes[..|writes| - 1];
    if Writes(init, docId) {
      var i :| 0 <= i < |init| && init[i].0 == docId;
      assert writes[i].0 == docId;
    }
    if Writes(writes, docId) {
      var i :| 0 <= i < |writes| && writes[i].0 == docId;
      assert i < |init| ==> init[i].0 == docId;
    }
  }

  lemma {:induction false} UnwrittenRow(rows: Rows, collection: Ident, writes: seq<RowWrite>, docId: Text)
    requires !Writes(writes, docId)
    ensures RowOf(ApplyWrites(rows, collection, writes), (collection, docId)) == RowOf(rows, (collection, docId))
    decreases |writes|
  {
    if writes != [] {
      WritesSplits(writes, docId);
      UnwrittenRow(rows, collection, writes[..|writes| - 1], docId);
    }
  }

  lemma {:induction false} WrittenRow(rows: Rows, collection: Ident, writes: seq<RowWrite>, docId: Text) returns (i: nat)
    requires Writes(writes, docId)
    ensures EndsAs(rows, collection, writes, docId, i)
    decreases |writes|
  {
    var n := |writes| - 1;
    WritesSplits(writes, docId);
    hide Writes;
    if writes[n].0 == docId {
      i := n;
    } else {
      i := WrittenRow(rows, collection, writes[..n], docId);
    }
  }

  lemma CollideSymmetric(env: Env, def: IndexDef, a: Value, b: Value)
    requires Lawful(env)
    ensures Collide(env, def, a, b) ==> Collide(env, def, b, a)
  {
  }

  /** A row holding a value equal to `value` has an entry under one of its keys. */
  lemma EqualValueHasEntry(env: Env, s: State, def: IndexDef, rows: Rows, docId: Text, held: Value, value: Value)
    requires Lawful(env) && env.eq(held, value) && Indexable(value)
    requires (def.collection, docId) in rows && held in IndexValues(env, def, rows[(def.collection, docId)])
    requires def.name in s.defs && s.defs[def.name] == def
    requires forall k :: RefOf(k) == Some((def.collection, docId)) ==> AgreesOn(env, s, rows, k)
    ensures exists e :: e in EncodeCoercible(env, value) && EntryKey(def.EntryPrefix(), e, docId) in s.entries
  {
    SharedKeyIffSharedReading(env, held, value);
    var e :| e in EncodeCoercible(env, held) && e in EncodeCoercible(env, value);
    var row := rows[(def.collection, docId)];
    var k := EntryKey(def.EntryPrefix(), e, docId);
    assert e in EncodedValues(env, def, row);
    EncodedValuesAreEncoded(env, def, row, e);
    EntryParses(def.collection, def.name, e, docId);
    assert AgreesOn(env, s, rows, k);
  }

  /** The documents a write leaves alone have the entries of their rows. */
  ghost predicate AgreesOutside(env: Env, s: State, rows: Rows, collection: Ident, writes: seq<RowWrite>) {
    forall k :: RefOf(k).Some? && RefOf(k).value.0 == collection && !Writes(writes, RefOf(k).value.1) ==> AgreesOn(env, s, rows, k)
  }

  /** A written row and a row outside the write. */
  lemma NoClashOutside(env: Env, s: State, def: IndexDef, writes: seq<RowWrite>, rows: Rows, i: nat, other: Text)
    requires Lawful(env) && AcceptedBy(env, s, def, writes, rows)
    requires i < |writes| && writes[i].1.Some? && !Writes(writes, other)
    requires (def.collection, other) in rows && (def.collection, other) !in s.tombstoned
    requires def.name in s.defs && s.defs[def.name] == def
    requires forall k :: RefOf(k) == Some((def.collection, other)) ==> AgreesOn(env, s, rows, k)
    ensures !Collide(env, def, writes[i].1.value, rows[(def.collection, other)])
  {
    hide RefOf;
    hide AgreesOn;
    var row, there := writes[i].1.value, rows[(def.collection, other)];
    forall v, w | v in IndexValues(env, def, row) && w in IndexValues(env, def, there) ensures !env.eq(v, w) {
      if env.eq(w, v) {
        IndexValuesAreIndexable(env, def, row);
        EqualValueHasEntry(env, s, def, rows, other, w, v);
        assert Candidate(env, s, def, writes, v, other);
      }
    }
  }

  /** The live rows a write leaves alone. */
  function LeftAlone(s: State, rows: Rows, collection: Ident, writes: seq<RowWrite>): Rows {
    map ref | ref in rows && ref !in s.tombstoned && !(ref.0 == collection && Writes(writes, ref.1)) :: rows[ref]
  }

  /** The rows while the write is read in order: those it leaves alone, and its
      first `j` rows. */
  function ReadSoFar(s: State, rows: Rows, collection: Ident, writes: seq<RowWrite>, j: nat): Rows
    requires j <= |writes|
  {
    ApplyWrites(LeftAlone(s, rows, collection, writes), collection, writes[..j])
  }

  /** No two documents the write leaves alone hold equal values. */
  ghost predicate UniqueOutside(env: Env, def: IndexDef, rows: Rows, writes: seq<RowWrite>) {
    forall a, b :: a in rows && b in rows && a.0 == def.collection && b.0 == def.collection && a != b
                   && !Writes(writes, a.1) && !Writes(writes, b.1)
      ==> !Collide(env, def, rows[a], rows[b])
  }

  /** What one row is once `j` rows are read. */
  ghost predicate ReadsAs(s: State, rows: Rows, collection: Ident, writes: seq<RowWrite>, j: nat, id: Text, i: nat)
    requires j <= |writes|
  {
    if Writes(writes[..j], id)
    then i < j && writes[i].0 == id && LastBefore(writes, i, j)
         && RowOf(ReadSoFar(s, rows, collection, writes, j), (collection, id)) == writes[i].1
    else RowOf(ReadSoFar(s, rows, collection, writes, j), (collection, id))
         == if Writes(writes, id) then None else RowOf(LiveRows(s, rows), (collection, id))
  }

  lemma ReadRow(s: State, rows: Rows, collection: Ident, writes: seq<RowWrite>, j: nat, id: Text) returns (i: nat)
    requires j <= |writes|
    ensures ReadsAs(s, rows, collection, writes, j, id, i)
  {
    var base, read := LeftAlone(s, rows, collection, writes), writes[..j];
    if Writes(read, id) {
      i := WrittenRow(base, collection, read, id);
      assert forall m :: 0 <= m < j ==> read[m] == writes[m];
    } else {
      i := 0;
      UnwrittenRow(base, collection, read, id);
    }
  }

  lemma OneLast(writes: seq<RowWrite>, i: nat, m: nat, j: nat)
    requires i < j <= |writes| && m < j && writes[i].0 == writes[m].0 && LastBefore(writes, i, j) && LastBefore(writes, m, j)
    ensures i == m
  {
  }

  // ── The check, exactly ────────────────────────────────────────────────────

  /** A write, read in order, meets no equal value at any point. */
  ghost predicate UniqueThroughout(env: Env, s: State, def: IndexDef, writes: seq<RowWrite>, rows: Rows) {
    forall j :: 0 <= j <= |writes| ==> UniqueIn(env, def, ReadSoFar(s, rows, def.collection, writes, j))
  }

  /** The check accepts exactly the writes after each of whose rows, over the rows
      it leaves alone, no two documents hold equal values: repeated ids, removals,
      array fields, partial predicates and tombstones included. */
  lemma AcceptedIffUniqueThroughout(env: Env, s: State, def: IndexDef, writes: seq<RowWrite>, rows: Rows)
    requires Lawful(env) && def.name in s.defs && s.defs[def.name] == def
    requires UniqueOutside(env, def, LiveRows(s, rows), writes)
    requires AgreesOutside(env, s, LiveRows(s, rows), def.collection, writes)
    ensures AcceptedBy(env, s, def, writes, rows) <==> UniqueThroughout(env, s, def, writes, rows)
  {
    hide Collide;
    hide AcceptedBy;
    hide RefOf;
    hide AgreesOn;
    hide Lawful;
    hide ReadSoFar;
    if AcceptedBy(env, s, def, writes, rows) {
      forall j, a, b | 0 <= j <= |writes| && a in ReadSoFar(s, rows, def.collection, writes, j)
                       && b in ReadSoFar(s, rows, def.collection, writes, j)
                       && a.0 == def.collection && b.0 == def.collection && a != b
        ensures var read := ReadSoFar(s, rows, def.collection, writes, j); !Collide(env, def, read[a], read[b])
      {
        PairStaysApart(env, s, def, writes, rows, j, a.1, b.1);
      }
    }
    if UniqueThroughout(env, s, def, writes, rows) {
      UniqueIsAccepted(env, s, def, writes, rows);
    }
  }

  lemma AcceptedOnLive(env: Env, s: State, def: IndexDef, writes: seq<RowWrite>, rows: Rows)
    requires AcceptedBy(env, s, def, writes, rows)
    ensures AcceptedBy(env, s, def, writes, LiveRows(s, rows))
  {
    hide Candidate;
    hide HeldBy;
  }

  lemma PairStaysApart(env: Env, s: State, def: IndexDef, writes: seq<RowWrite>, rows: Rows, j: nat, a: Text, b: Text)
    requires Lawful(env) && def.name in s.defs && s.defs[def.name] == def
    requires AcceptedBy(env, s, def, writes, rows) && UniqueOutside(env, def, LiveRows(s, rows), writes)
    requires AgreesOutside(env, s, LiveRows(s, rows), def.collection, writes)
    requires a != b && j <= |writes|
    requires (def.collection, a) in ReadSoFar(s, rows, def.collection, writes, j)
    requires (def.collection, b) in ReadSoFar(s, rows, def.collection, writes, j)
    ensures var read := ReadSoFar(s, rows, def.collection, writes, j);
      !Collide(env, def, read[(def.collection, a)], read[(def.collection, b)])
  {
    hide Collide;
    hide AcceptedBy;
    hide RefOf;
    hide AgreesOn;
    hide Lawful;
    hide ReadSoFar;
    hide Writes;
    hide LastBefore;
    var c := def.collection;
    var read, live := ReadSoFar(s, rows, c, writes, j), LiveRows(s, rows);
    AcceptedOnLive(env, s, def, writes, rows);
    assert RowOf(read, (c, a)) == Some(read[(c, a)]) && RowOf(read, (c, b)) == Some(read[(c, b)]);
    var i := ReadRow(s, rows, c, writes, j, a);
    var m := ReadRow(s, rows, c, writes, j, b);
    CollideSymmetric(env, def, read[(c, a)], read[(c, b)]);
    if Writes(writes[..j], a) && Writes(writes[..j], b) {
      NoClashInside(env, s, def, writes, live, i, m, j);
    } else if Writes(writes[..j], a) {
      NoClashOutside(env, s, def, writes, live, i, b);
    } else if Writes(writes[..j], b) {
      NoClashOutside(env, s, def, writes, live, m, a);
    } else {
      assert RowOf(live, (c, a)) == Some(live[(c, a)]) && RowOf(live, (c, b)) == Some(live[(c, b)]);
    }
  }

  lemma NoClashInside(env: Env, s: State, def: IndexDef, writes: seq<RowWrite>, rows: Rows, i: nat, m: nat, j: nat)
    requires Lawful(env) && AcceptedBy(env, s, def, writes, rows)
    requires i < j <= |writes| && m < j && writes[i].0 != writes[m].0
    requires LastBefore(writes, i, j) && LastBefore(writes, m, j)
    requires writes[i].1.Some? && writes[m].1.Some?
    ensures !Collide(env, def, writes[i].1.value, writes[m].1.value)
  {
    CollideSymmetric(env, def, writes[i].1.value, writes[m].1.value);
    hide Collide;
    if i < m {
      assert LastBefore(writes, i, m);
    } else {
      assert LastBefore(writes, m, i);
    }
  }

  lemma UniqueIsAccepted(env: Env, s: State, def: IndexDef, writes: seq<RowWrite>, rows: Rows)
    requires UniqueThroughout(env, s, def, writes, rows)
    ensures AcceptedBy(env, s, def, writes, rows)
  {
    hide Collide;
    hide Candidate;
    hide HeldBy;
    hide UniqueThroughout;
    forall i, j | 0 <= i < j < |writes| && writes[i].0 != writes[j].0 && LastBefore(writes, i, j)
                  && writes[i].1.Some? && writes[j].1.Some?
      ensures !Collide(env, def, writes[i].1.value, writes[j].1.value)
    {
      InsidersApart(env, s, def, writes, rows, i, j);
    }
    forall value, other | Candidate(env, s, def, writes, value, other) && (def.collection, other) in rows
      ensures !HeldBy(env, def, value, rows[(def.collection, other)])
    {
      OutsiderApart(env, s, def, writes, rows, value, other);
    }
  }

  lemma InsidersApart(env: Env, s: State, def: IndexDef, writes: seq<RowWrite>, rows: Rows, i: nat, j: nat)
    requires UniqueThroughout(env, s, def, writes, rows)
    requires i < j < |writes| && writes[i].0 != writes[j].0 && LastBefore(writes, i, j) && writes[i].1.Some? && writes[j].1.Some?
    ensures !Collide(env, def, writes[i].1.value, writes[j].1.value)
  {
    hide Collide;
    hide ReadSoFar;
    var c := def.collection;
    JustRead(s, rows, c, writes, i, j + 1);
    JustRead(s, rows, c, writes, j, j + 1);
    var read := ReadSoFar(s, rows, c, writes, j + 1);
    assert UniqueIn(env, def, read) && (c, writes[i].0) in read && (c, writes[j].0) in read;
  }

  lemma OutsiderApart(env: Env, s: State, def: IndexDef, writes: seq<RowWrite>, rows: Rows, value: Value, other: Text)
    requires UniqueThroughout(env, s, def, writes, rows)
    requires Candidate(env, s, def, writes, value, other) && (def.collection, other) in rows
    ensures !HeldBy(env, def, value, rows[(def.collection, other)])
  {
    hide UniqueThroughout;
    hide HeldBy;
    hide EncodeCoercible;
    hide EntryKey;
    hide Writes;
    var j :| 0 <= j < |writes| && writes[j].1.Some? && value in IndexValues(env, def, writes[j].1.value);
    WrittenApart(env, s, def, writes, rows, j, other);
    NotHeld(env, def, value, rows[(def.collection, other)], writes[j].1.value);
  }

  lemma WrittenApart(env: Env, s: State, def: IndexDef, writes: seq<RowWrite>, rows: Rows, j: nat, other: Text)
    requires UniqueThroughout(env, s, def, writes, rows) && j < |writes| && writes[j].1.Some?
    requires !Writes(writes, other) && (def.collection, other) in rows && (def.collection, other) !in s.tombstoned
    ensures !Collide(env, def, rows[(def.collection, other)], writes[j].1.value)
  {
    hide Collide;
    hide ReadSoFar;
    var c := def.collection;
    OutsiderIsRead(s, rows, c, writes, j + 1, other);
    JustRead(s, rows, c, writes, j, j + 1);
    var read := ReadSoFar(s, rows, c, writes, j + 1);
    assert Writes(writes, writes[j].0);
    assert UniqueIn(env, def, read) && (c, other) in read && (c, writes[j].0) in read;
  }

  lemma JustRead(s: State, rows: Rows, collection: Ident, writes: seq<RowWrite>, i: nat, j: nat)
    requires i < j <= |writes| && LastBefore(writes, i, j)
    ensures RowOf(ReadSoFar(s, rows, collection, writes, j), (collection, writes[i].0)) == writes[i].1
  {
    hide ReadSoFar;
    var m := ReadRow(s, rows, collection, writes, j, writes[i].0);
    assert writes[..j][i].0 == writes[i].0 && Writes(writes[..j], writes[i].0);
    OneLast(writes, i, m, j);
  }

  lemma OutsiderIsRead(s: State, rows: Rows, collection: Ident, writes: seq<RowWrite>, j: nat, other: Text)
    requires j <= |writes| && !Writes(writes, other) && (collection, other) in rows && (collection, other) !in s.tombstoned
    ensures RowOf(ReadSoFar(s, rows, collection, writes, j), (collection, other)) == Some(rows[(collection, other)])
  {
    hide ReadSoFar;
    var m := ReadRow(s, rows, collection, writes, j, other);
  }

  // ── What acceptance means for the rows left ───────────────────────────────

  /** Fewer rows of a collection stay unique. */
  lemma FewerStayUnique(env: Env, def: IndexDef, rows: Rows, fewer: Rows)
    requires UniqueIn(env, def, rows)
    requires forall ref: DocRef :: ref in fewer && ref.0 == def.collection ==> ref in rows && rows[ref] == fewer[ref]
    ensures UniqueIn(env, def, fewer)
  {
    hide Collide;
  }

  /** What a row ends as is what it is once all is read, unless it is deleted. */
  lemma EndIsRead(s: State, rows: Rows, collection: Ident, writes: seq<RowWrite>, id: Text)
    ensures RowOf(ReadSoFar(s, rows, collection, writes, |writes|), (collection, id)) ==
      if Writes(writes, id) then RowOf(ApplyWrites(rows, collection, writes), (collection, id))
      else RowOf(LiveRows(s, ApplyWrites(rows, collection, writes)), (collection, id))
  {
    hide ReadSoFar;
    assert writes[..|writes|] == writes;
    var m := ReadRow(s, rows, collection, writes, |writes|, id);
    if Writes(writes, id) {
      var i := WrittenRow(rows, collection, writes, id);
      OneLast(writes, i, m, |writes|);
    } else {
      UnwrittenRow(rows, collection, writes, id);
    }
  }

  /** An accepted write leaves a unique index unique over the live rows. Of the
      rows before, only those it leaves alone need be unique: a written row's old
      copy may be a deleted one whose value another row has taken since. */
  lemma AcceptedKeepsUnique(env: Env, s: State, def: IndexDef, writes: seq<RowWrite>, rows: Rows)
    requires Lawful(env) && def.name in s.defs && s.defs[def.name] == def
    requires AcceptedBy(env, s, def, writes, rows) && UniqueOutside(env, def, LiveRows(s, rows), writes)
    requires AgreesOutside(env, s, LiveRows(s, rows), def.collection, writes)
    ensures UniqueIn(env, def, LiveRows(s, ApplyWrites(rows, def.collection, writes)))
  {
    hide AcceptedBy;
    hide AgreesOutside;
    hide UniqueOutside;
    hide UniqueIn;
    hide ReadSoFar;
    hide Lawful;
    hide ApplyWrites;
    hide Writes;
    AcceptedIffUniqueThroughout(env, s, def, writes, rows);
    var read, later := ReadSoFar(s, rows, def.collection, writes, |writes|), LiveRows(s, ApplyWrites(rows, def.collection, writes));
    forall ref: DocRef | ref in later && ref.0 == def.collection ensures ref in read && read[ref] == later[ref] {
      EndIsRead(s, rows, def.collection, writes, ref.1);
      assert RowOf(read, ref) == Some(later[ref]);
    }
    FewerStayUnique(env, def, read, later);
  }

  // ── Rows listed once ──────────────────────────────────────────────────────

  ghost predicate DistinctIds(writes: seq<RowWrite>) {
    forall i, j :: 0 <= i < j < |writes| ==> writes[i].0 != writes[j].0
  }

  /** A write listing each row once, none of them tombstoned, is accepted exactly
      when it leaves the index unique. */
  lemma AcceptedIffUnique(env: Env, s: State, def: IndexDef, writes: seq<RowWrite>, rows: Rows)
    requires Lawful(env) && def.name in s.defs && s.defs[def.name] == def
    requires UniqueOutside(env, def, LiveRows(s, rows), writes)
    requires AgreesOutside(env, s, LiveRows(s, rows), def.collection, writes)
    requires DistinctIds(writes) && forall i :: 0 <= i < |writes| ==> (def.collection, writes[i].0) !in s.tombstoned
    ensures AcceptedBy(env, s, def, writes, rows)
       <==> UniqueIn(env, def, LiveRows(s, ApplyWrites(rows, def.collection, writes)))
  {
    hide AcceptedBy;
    hide AgreesOutside;
    hide UniqueOutside;
    hide UniqueIn;
    hide ReadSoFar;
    hide Lawful;
    hide ApplyWrites;
    if AcceptedBy(env, s, def, writes, rows) {
      AcceptedKeepsUnique(env, s, def, writes, rows);
    }
    var later := LiveRows(s, ApplyWrites(rows, def.collection, writes));
    if UniqueIn(env, def, later) {
      forall j | 0 <= j <= |writes| ensures UniqueIn(env, def, ReadSoFar(s, rows, def.collection, writes, j)) {
        var read := ReadSoFar(s, rows, def.collection, writes, j);
        forall ref: DocRef | ref in read && ref.0 == def.collection ensures ref in later && later[ref] == read[ref] {
          ReadStays(s, rows, def.collection, writes, j, ref.1);
        }
        FewerStayUnique(env, def, later, read);
      }
      AcceptedIffUniqueThroughout(env, s, def, writes, rows);
    }
  }

  lemma ReadStays(s: State, rows: Rows, collection: Ident, writes: seq<RowWrite>, j: nat, id: Text)
    requires DistinctIds(writes) && forall i :: 0 <= i < |writes| ==> (collection, writes[i].0) !in s.tombstoned
    requires j <= |writes| && (collection, id) in ReadSoFar(s, rows, collection, writes, j)
    ensures var later := LiveRows(s, ApplyWrites(rows, collection, writes));
      (collection, id) in later && later[(collection, id)] == ReadSoFar(s, rows, collection, writes, j)[(collection, id)]
  {
    hide ReadSoFar;
    var read := ReadSoFar(s, rows, collection, writes, j);
    assert RowOf(read, (collection, id)) == Some(read[(collection, id)]);
    var m := ReadRow(s, rows, collection, writes, j, id);
    EndIsRead(s, rows, collection, writes, id);
    if Writes(writes[..j], id) {
      assert LastBefore(writes, m, |writes|);
      JustRead(s, rows, collection, writes, m, |writes|);
    } else {
      OutsiderIsRead(s, rows, collection, writes, |writes|, id);
    }
  }

  lemma NotHeld(env: Env, def: IndexDef, value: Value, row: Value, written: Value)
    requires value in IndexValues(env, def, written) && !Collide(env, def, row, written)
    ensures !HeldBy(env, def, value, row)
  {
  }

  // ── Which indexes are asked ───────────────────────────────────────────────

  /** A unique index of the engine on the collection. */
  predicate Guards(s: State, n: Ident, collection: Ident, engine: Engine) {
    n in s.defs && s.defs[n].collection == collection && s.defs[n].engine == engine && s.defs[n].unique
  }

  /** What the check relies on: entries and uniqueness outside the write. */
  ghost predicate CheckReady(env: Env, s: State, collection: Ident, engine: Engine, writes: seq<RowWrite>, rows: Rows) {
    && (forall n :: n in s.defs ==> s.defs[n].name == n)
    && AgreesOutside(env, s, LiveRows(s, rows), collection, writes)
    && (forall n :: Guards(s, n, collection, engine) ==> UniqueOutside(env, s.defs[n], LiveRows(s, rows), writes))
  }

  /** A collection's write passes exactly when every unique index of the engine on
      it stays unique while the write is read; no other index has a say. */
  lemma AcceptedIffAllUnique(env: Env, s: State, collection: Ident, engine: Engine, writes: seq<RowWrite>, rows: Rows)
    requires Lawful(env) && CheckReady(env, s, collection, engine, writes, rows)
    ensures Accepted(env, s, collection, engine, writes, rows)
       <==> forall n :: Guards(s, n, collection, engine) ==> UniqueThroughout(env, s, s.defs[n], writes, rows)
  {
    hide Lawful;
    hide AgreesOutside;
    hide UniqueOutside;
    hide AcceptedBy;
    hide UniqueThroughout;
    forall n | Guards(s, n, collection, engine)
      ensures AcceptedBy(env, s, s.defs[n], writes, rows) <==> UniqueThroughout(env, s, s.defs[n], writes, rows)
    {
      AcceptedIffUniqueThroughout(env, s, s.defs[n], writes, rows);
    }
    if Accepted(env, s, collection, engine, writes, rows) {
      forall n | Guards(s, n, collection, engine) ensures AcceptedBy(env, s, s.defs[n], writes, rows) {
        assert n in DefsOn(s.defs, collection, engine);
      }
    }
  }

  /** Without a unique index every write passes. */
  lemma UnguardedIsAccepted(env: Env, s: State, collection: Ident, engine: Engine, writes: seq<RowWrite>, rows: Rows)
    requires forall n :: !Guards(s, n, collection, engine)
    ensures Accepted(env, s, collection, engine, writes, rows)
  {
    hide AcceptedBy;
    forall n | n in DefsOn(s.defs, collection, engine) ensures !s.defs[n].unique {
      assert !Guards(s, n, collection, engine);
    }
  }

  /** Listing a row twice can be refused though the rows it leaves are unique: a
      later image frees a value only for the rows listed after it. */
  lemma RepeatedIdMayBeRefused(env: Env, s: State, def: IndexDef, a: Text, b: Text, row: Value, v: Value)
    requires a != b && v in IndexValues(env, def, row) && env.eq(v, v)
    ensures var writes := [(a, Some(row)), (b, Some(row)), (a, None)];
      && !AcceptedBy(env, s, def, writes, map[])
      && UniqueIn(env, def, LiveRows(s, ApplyWrites(map[], def.collection, writes)))
  {
    var writes: seq<RowWrite> := [(a, Some(row)), (b, Some(row)), (a, None)];
    assert LastBefore(writes, 0, 1) && Collide(env, def, row, row);
    var none: Rows := map[];
    var c := def.collection;
    assert writes[..2] == [(a, Some(row)), (b, Some(row))] && writes[..2][..1] == [(a, Some(row))];
    assert writes[..2][..1][..0] == [];
    assert ApplyWrites(none, c, writes[..2][..1]) == none[(c, a) := row];
    assert ApplyWrites(none, c, writes[..2]) == none[(c, a) := row][(c, b) := row];
    assert ApplyWrites(none, c, writes) == none[(c, a) := row][(c, b) := row] - {(c, a)};
  }

  // ── Reading the write in order ────────────────────────────────────────────

  /** The ids outside the write that are not tombstoned. */
  function Others(ids: seq<Text>, writes: seq<RowWrite>, tombstoned: set<DocRef>, collection: Ident): (kept: seq<Text>)
    ensures forall id :: id in kept <==> (id in ids && !Writes(writes, id) && (collection, id) !in tombstoned)
  {
    if ids == [] then []
    else
      assert forall id :: id in ids <==> id == ids[0] || id in ids[1..];
      (if Writes(writes, ids[0]) || (collection, ids[0]) in tombstoned then [] else [ids[0]])
      + Others(ids[1..], writes, tombstoned, collection)
  }

  /** A value claimed by a document of the write. */
  type Claim = (Text, Value)

  function Retain(claims: seq<Claim>, id: Text): (kept: seq<Claim>)
    ensures forall c :: c in kept <==> (c in claims && c.0 != id)
  {
    if claims == [] then []
    else
      assert forall c :: c in claims <==> c == claims[0] || c in claims[1..];
      (if claims[0].0 == id then [] else [claims[0]]) + Retain(claims[1..], id)
  }

  function ClaimsOf(id: Text, values: seq<Value>): (claims: seq<Claim>)
    ensures forall c :: c in claims <==> (c.0 == id && c.1 in values)
  {
    if values == [] then []
    else
      assert forall v :: v in values <==> v == values[0] || v in values[1..];
      [(id, values[0])] + ClaimsOf(id, values[1..])
  }

  /** The claims standing once the first `j` rows are read. */
  ghost predicate Standing(env: Env, def: IndexDef, writes: seq<RowWrite>, j: nat, c: Claim)
    requires j <= |writes|
  {
    exists i :: 0 <= i < j && writes[i].0 == c.0 && LastBefore(writes, i, j)
      && writes[i].1.Some? && c.1 in IndexValues(env, def, writes[i].1.value)
  }

  function RowValues(env: Env, def: IndexDef, row: Option<Value>): seq<Value> {
    match row case None => [] case Some(value) => IndexValues(env, def, value)
  }

  lemma StandingStep(env: Env, def: IndexDef, writes: seq<RowWrite>, j: nat, c: Claim)
    requires j < |writes|
    ensures Standing(env, def, writes, j + 1, c)
       <==> if c.0 == writes[j].0 then c.1 in RowValues(env, def, writes[j].1) else Standing(env, def, writes, j, c)
  {
    hide IndexValues;
    hide LastBefore;
    LastOneOn(writes, j);
    if c.0 == writes[j].0 {
      if Standing(env, def, writes, j + 1, c) {
        var i :| 0 <= i < j + 1 && writes[i].0 == c.0 && LastBefore(writes, i, j + 1)
          && writes[i].1.Some? && c.1 in IndexValues(env, def, writes[i].1.value);
        assert i == j;
      }
    }
  }

  /** Which row of a document is its last once one more row is read. */
  lemma LastOneOn(writes: seq<RowWrite>, j: nat)
    requires j < |writes|
    ensures LastBefore(writes, j, j + 1)
    ensures forall i :: 0 <= i < j ==>
      (LastBefore(writes, i, j + 1) <==> LastBefore(writes, i, j) && writes[i].0 != writes[j].0)
  {
  }

  /** Row `j` meets a standing claim of another document. */
  ghost predicate ClashAt(env: Env, def: IndexDef, writes: seq<RowWrite>, j: nat)
    requires j < |writes|
  {
    exists c, v :: Standing(env, def, writes, j, c) && c.0 != writes[j].0 && v in RowValues(env, def, writes[j].1) && env.eq(c.1, v)
  }

  lemma ClashIsAt(env: Env, def: IndexDef, writes: seq<RowWrite>, i: nat, j: nat)
    requires i < j < |writes| && writes[i].0 != writes[j].0 && LastBefore(writes, i, j)
    requires writes[i].1.Some? && writes[j].1.Some? && Collide(env, def, writes[i].1.value, writes[j].1.value)
    ensures ClashAt(env, def, writes, j)
  {
    hide IndexValues;
    var v, w :| v in IndexValues(env, def, writes[i].1.value) && w in IndexValues(env, def, writes[j].1.value) && env.eq(v, w);
    assert Standing(env, def, writes, j, (writes[i].0, v));
    assert w in RowValues(env, def, writes[j].1);
  }

  lemma ClashAtIsWithin(env: Env, def: IndexDef, writes: seq<RowWrite>, j: nat)
    requires j < |writes| && ClashAt(env, def, writes, j)
    ensures ClashWithin(env, def, writes)
  {
    hide IndexValues;
    var c, w :| Standing(env, def, writes, j, c) && c.0 != writes[j].0 && w in RowValues(env, def, writes[j].1) && env.eq(c.1, w);
    var i :| 0 <= i < j && writes[i].0 == c.0 && LastBefore(writes, i, j)
      && writes[i].1.Some? && c.1 in IndexValues(env, def, writes[i].1.value);
    assert Collide(env, def, writes[i].1.value, writes[j].1.value);
  }

  lemma ClashIsSomewhere(env: Env, def: IndexDef, writes: seq<RowWrite>)
    ensures ClashWithin(env, def, writes) <==> exists j :: 0 <= j < |writes| && ClashAt(env, def, writes, j)
  {
    if ClashWithin(env, def, writes) {
      hide ClashAt;
      hide Collide;
      var i, j :| 0 <= i < j < |writes| && writes[i].0 != writes[j].0 && LastBefore(writes, i, j)
        && writes[i].1.Some? && writes[j].1.Some? && Collide(env, def, writes[i].1.value, writes[j].1.value);
      ClashIsAt(env, def, writes, i, j);
    } else {
      hide ClashAt;
      hide ClashWithin;
      forall j | 0 <= j < |writes| ensures !ClashAt(env, def, writes, j) {
        if ClashAt(env, def, writes, j) { ClashAtIsWithin(env, def, writes, j); }
      }
    }
  }

  // ── Builds ────────────────────────────────────────────────────────────────

  /** Two listed rows of different documents collide. */
  ghost predicate ClashListed(env: Env, def: IndexDef, rows: seq<Listed>) {
    exists i, j :: 0 <= i < j < |rows| && rows[i].0 != rows[j].0 && Collide(env, def, rows[i].1, rows[j].1)
  }

  /** A build over all of a collection's rows is refused exactly when the index
      would not be unique. */
  lemma BuildRefusedIff(env: Env, def: IndexDef, listed: seq<Listed>, rows: Rows)
    requires Lawful(env) && ListsAll(listed, rows, def.collection)
    ensures ClashListed(env, def, listed) <==> !UniqueIn(env, def, rows)
  {
    hide ClashListed;
    hide UniqueIn;
    hide ListsAll;
    if !UniqueIn(env, def, rows) { RowsClash(env, def, listed, rows); }
    if ClashListed(env, def, listed) { ListedClash(env, def, listed, rows); }
  }

  lemma ListedAt(listed: seq<Listed>, rows: Rows, ref: DocRef) returns (i: nat)
    requires ListsAll(listed, rows, ref.0) && ref in rows
    ensures i < |listed| && listed[i] == (ref.1, rows[ref])
  {
    i :| 0 <= i < |listed| && listed[i].0 == ref.1;
  }

  lemma RowsClash(env: Env, def: IndexDef, listed: seq<Listed>, rows: Rows)
    requires Lawful(env) && ListsAll(listed, rows, def.collection) && !UniqueIn(env, def, rows)
    ensures ClashListed(env, def, listed)
  {
    hide Collide;
    hide Lawful;
    hide ListsAll;
    var a, b :| a in rows && b in rows && a.0 == def.collection && b.0 == def.collection && a != b && Collide(env, def, rows[a], rows[b]);
    var i := ListedAt(listed, rows, a);
    var j := ListedAt(listed, rows, b);
    CollideSymmetric(env, def, rows[a], rows[b]);
    if i < j {
      assert Collide(env, def, listed[i].1, listed[j].1);
    } else {
      assert Collide(env, def, listed[j].1, listed[i].1);
    }
  }

  lemma ListedClash(env: Env, def: IndexDef, listed: seq<Listed>, rows: Rows)
    requires ListsAll(listed, rows, def.collection) && ClashListed(env, def, listed)
    ensures !UniqueIn(env, def, rows)
  {
    hide Collide;
    var i, j :| 0 <= i < j < |listed| && listed[i].0 != listed[j].0 && Collide(env, def, listed[i].1, listed[j].1);
    var a, b := (def.collection, listed[i].0), (def.collection, listed[j].0);
    assert a in rows && b in rows && rows[a] == listed[i].1 && rows[b] == listed[j].1;
  }

  lemma {:induction false} WritesOnApply(rows: Rows, images: seq<RowImage>, collection: Ident, id: Text)
    ensures RowOf(ApplyWrites(rows, collection, WritesOn(images, collection)), (collection, id))
         == RowOf(ApplyImages(rows, images), (collection, id))
    decreases |images|
  {
    if images != [] {
      var init, last := images[..|images| - 1], images[|images| - 1];
      WritesOnApply(rows, init, collection, id);
      ImageRow(ApplyImages(rows, init), last, (collection, id));
      if last.collection == collection {
        var writes := WritesOn(images, collection);
        assert writes[..|writes| - 1] == WritesOn(init, collection);
      }
    }
  }

  /** A write of several collections' rows passes every unique index. */
  ghost predicate AcceptedImages(env: Env, s: State, engine: Engine, images: seq<RowImage>, rows: Rows) {
    forall c :: c in CollectionsOf(images) ==> Accepted(env, s, c, engine, WritesOn(images, c), rows)
  }

  /** A write over several collections passes exactly when every unique index of
      the engine stays unique while the rows given its collection are read. */
  lemma ImagesAcceptedIffAllUnique(env: Env, s: State, engine: Engine, images: seq<RowImage>, rows: Rows)
    requires Lawful(env)
    requires forall c :: c in CollectionsOf(images) ==> CheckReady(env, s, c, engine, WritesOn(images, c), rows)
    ensures AcceptedImages(env, s, engine, images, rows)
       <==> forall i, n :: 0 <= i < |images| && Guards(s, n, images[i].collection, engine) ==>
              UniqueThroughout(env, s, s.defs[n], WritesOn(images, images[i].collection), rows)
  {
    hide Lawful;
    hide CheckReady;
    hide Accepted;
    hide UniqueThroughout;
    hide WritesOn;
    forall i | 0 <= i < |images|
      ensures var c := images[i].collection;
        Accepted(env, s, c, engine, WritesOn(images, c), rows) <==>
          (forall n :: Guards(s, n, c, engine) ==> UniqueThroughout(env, s, s.defs[n], WritesOn(images, c), rows))
    {
      assert images[i].collection in CollectionsOf(images);
      AcceptedIffAllUnique(env, s, images[i].collection, engine, WritesOn(images, images[i].collection), rows);
    }
    if AcceptedImages(env, s, engine, images, rows) {
      forall i | 0 <= i < |images|
        ensures Accepted(env, s, images[i].collection, engine, WritesOn(images, images[i].collection), rows)
      {
        assert images[i].collection in CollectionsOf(images);
      }
    }
  }
}
