/** The unique check as it runs: one pass over the written rows per unique
    index, keeping the values claimed so far. */
module UniqueCheck {
  import opened Utf8
  import opened Key
  import opened Document
  import opened Store
  import opened Maintain
  import opened Install
  import opened Unique
  import opened Lookup

  predicate Meets(env: Env, claimed: seq<Claim>, id: Text, value: Value) {
    exists c :: c in claimed && c.0 != id && env.eq(c.1, value)
  }

  /** Whether another document already claims a value equal to one of `values`. */
  method MeetsClaim(env: Env, claimed: seq<Claim>, id: Text, values: seq<Value>) returns (met: bool)
    ensures met <==> exists v :: v in values && Meets(env, claimed, id, v)
  {
    for m := 0 to |values|
      invariant forall v :: v in values[..m] ==> !Meets(env, claimed, id, v)
    {
      if Meets(env, claimed, id, values[m]) {
        assert values[m] in values;
        return true;
      }
      assert forall v :: v in values[..m + 1] <==> v in values[..m] || v == values[m];
    }
    assert values[..|values|] == values;
    return false;
  }

  /** Whether a stored row outside the write holds a value equal to `value`. */
  method HeldOutside(env: Env, s: State, def: IndexDef, writes: seq<RowWrite>, rows: Rows, value: Value) returns (held: bool)
    requires TwoViews(s)
    ensures held <==> exists other :: Taken(env, s, def, writes, rows, value, other)
  {
    hide EncodeCoercible;
    hide IdsOfKeys;
    hide OutsideEntry;
    hide HeldBy;
    hide TwoViews;
    var encoded := EncodeCoercible(env, value);
    var found := IdsOfKeys(s.entries, def.EntryPrefix(), encoded);
    var others := Others(found, writes, s.tombstoned, def.collection);
    forall id ensures id in others <==> OutsideEntry(env, s, def, writes, value, id) {
      OthersAreOutside(env, s, def, writes, value, id);
    }
    for i := 0 to |others|
      invariant forall id :: id in others[..i] ==>
        !((def.collection, id) in rows && HeldBy(env, def, value, rows[(def.collection, id)]))
    {
      assert others[i] in others;
      var ref := (def.collection, others[i]);
      if ref in rows && HeldBy(env, def, value, rows[ref]) {
        assert Taken(env, s, def, writes, rows, value, others[i]);
        return true;
      }
      assert forall id :: id in others[..i + 1] <==> id in others[..i] || id == others[i];
    }
    assert others[..|others|] == others;
    return false;
  }

  /** A live document outside the write with an entry under a key of `value`. */
  ghost predicate OutsideEntry(env: Env, s: State, def: IndexDef, writes: seq<RowWrite>, value: Value, other: Text) {
    && (exists e :: e in EncodeCoercible(env, value) && EntryKey(def.EntryPrefix(), e, other) in s.entries)
    && !Writes(writes, other) && (def.collection, other) !in s.tombstoned
  }

  ghost predicate Taken(env: Env, s: State, def: IndexDef, writes: seq<RowWrite>, rows: Rows, value: Value, other: Text) {
    && OutsideEntry(env, s, def, writes, value, other)
    && (def.collection, other) in rows && HeldBy(env, def, value, rows[(def.collection, other)])
  }

  lemma OthersAreOutside(env: Env, s: State, def: IndexDef, writes: seq<RowWrite>, value: Value, id: Text)
    requires TwoViews(s)
    ensures id in Others(IdsOfKeys(s.entries, def.EntryPrefix(), EncodeCoercible(env, value)), writes, s.tombstoned, def.collection)
       <==> OutsideEntry(env, s, def, writes, value, id)
  {
    forall e | e in EncodeCoercible(env, value) ensures IsEncoded(e) {
      var _ := KeyHasForm(env, value, e);
    }
    hide TwoViews;
    hide EncodeCoercible;
    IdsOfKeysExact(s, def, EncodeCoercible(env, value), id);
  }

  /** A written value already held by a live document outside the write. */
  ghost predicate TakenAt(env: Env, s: State, def: IndexDef, writes: seq<RowWrite>, rows: Rows, j: nat)
    requires j < |writes|
  {
    exists v, other :: v in RowValues(env, def, writes[j].1) && Taken(env, s, def, writes, rows, v, other)
  }

  method TakenByOther(env: Env, s: State, def: IndexDef, writes: seq<RowWrite>, rows: Rows, values: seq<Value>) returns (taken: bool)
    requires TwoViews(s)
    ensures taken <==> exists v, other :: v in values && Taken(env, s, def, writes, rows, v, other)
  {
    hide Taken;
    for m := 0 to |values|
      invariant forall v, other :: v in values[..m] ==> !Taken(env, s, def, writes, rows, v, other)
    {
      var held := HeldOutside(env, s, def, writes, rows, values[m]);
      if held {
        assert values[m] in values;
        return true;
      }
      assert forall v :: v in values[..m + 1] <==> v in values[..m] || v == values[m];
    }
    assert values[..|values|] == values;
    return false;
  }

  lemma RefusedSomewhere(env: Env, s: State, def: IndexDef, writes: seq<RowWrite>, rows: Rows)
    ensures AcceptedBy(env, s, def, writes, rows)
       <==> forall j :: 0 <= j < |writes| ==> !ClashAt(env, def, writes, j) && !TakenAt(env, s, def, writes, rows, j)
  {
    hide HeldBy;
    hide ClashWithin;
    hide ClashAt;
    hide IndexValues;
    ClashIsSomewhere(env, def, writes);
    if AcceptedBy(env, s, def, writes, rows) {
      forall j | 0 <= j < |writes| ensures !TakenAt(env, s, def, writes, rows, j) {
        forall v, other | v in RowValues(env, def, writes[j].1) ensures !Taken(env, s, def, writes, rows, v, other) {
          if OutsideEntry(env, s, def, writes, v, other) { assert Candidate(env, s, def, writes, v, other); }
        }
      }
    }
    if forall j :: 0 <= j < |writes| ==> !ClashAt(env, def, writes, j) && !TakenAt(env, s, def, writes, rows, j) {
      forall v, other | Candidate(env, s, def, writes, v, other) && (def.collection, other) in rows
        ensures !HeldBy(env, def, v, rows[(def.collection, other)])
      {
        var j :| 0 <= j < |writes| && writes[j].1.Some? && v in IndexValues(env, def, writes[j].1.value);
        assert OutsideEntry(env, s, def, writes, v, other);
        assert !TakenAt(env, s, def, writes, rows, j);
        assert v in RowValues(env, def, writes[j].1) && !Taken(env, s, def, writes, rows, v, other);
      }
    }
  }

  /** The check of one unique index. */
  method CheckIndex(env: Env, s: State, def: IndexDef, writes: seq<RowWrite>, rows: Rows) returns (ok: bool)
    requires TwoViews(s)
    ensures ok <==> AcceptedBy(env, s, def, writes, rows)
  {
    hide AcceptedBy;
    hide TwoViews;
    hide Standing;
    hide Taken;
    hide Meets;
    hide ClashAt;
    hide RowValues;
    RefusedSomewhere(env, s, def, writes, rows);
    var claimed: seq<Claim> := [];
    assert forall c :: !Standing(env, def, writes, 0, c) by { NoneStanding(env, def, writes); }
    for j := 0 to |writes|
      invariant forall c :: c in claimed <==> Standing(env, def, writes, j, c)
      invariant forall i :: 0 <= i < j ==> !ClashAt(env, def, writes, i) && !TakenAt(env, s, def, writes, rows, i)
    {
      var (id, row) := writes[j];
      var values := RowValues(env, def, row);
      var kept := Retain(claimed, id);
      var met := MeetsClaim(env, kept, id, values);
      ClashIsMet(env, def, writes, j, claimed, kept);
      if met {
        return false;
      }
      var taken := TakenByOther(env, s, def, writes, rows, values);
      if taken {
        assert TakenAt(env, s, def, writes, rows, j);
        return false;
      }
      assert !TakenAt(env, s, def, writes, rows, j);
      claimed := kept + ClaimsOf(id, values);
      forall c ensures c in claimed <==> Standing(env, def, writes, j + 1, c) {
        StandingStep(env, def, writes, j, c);
      }
    }
    return true;
  }

  lemma ClashIsMet(env: Env, def: IndexDef, writes: seq<RowWrite>, j: nat, claimed: seq<Claim>, kept: seq<Claim>)
    requires j < |writes| && forall c :: c in claimed <==> Standing(env, def, writes, j, c)
    requires forall c :: c in kept <==> (c in claimed && c.0 != writes[j].0)
    ensures ClashAt(env, def, writes, j)
       <==> exists v :: v in RowValues(env, def, writes[j].1) && Meets(env, kept, writes[j].0, v)
  {
    hide Standing;
    if v :| v in RowValues(env, def, writes[j].1) && Meets(env, kept, writes[j].0, v) {
      var c :| c in kept && c.0 != writes[j].0 && env.eq(c.1, v);
      assert Standing(env, def, writes, j, c);
    }
  }

  lemma NoneStanding(env: Env, def: IndexDef, writes: seq<RowWrite>)
    ensures forall c :: !Standing(env, def, writes, 0, c)
  {
  }

  /** The check of every unique index among `defs`. */
  method CheckEach(env: Env, s: State, defs: seq<IndexDef>, writes: seq<RowWrite>, rows: Rows) returns (ok: bool)
    requires TwoViews(s)
    ensures ok <==> forall m :: 0 <= m < |defs| && defs[m].unique ==> AcceptedBy(env, s, defs[m], writes, rows)
  {
    hide *;
    for i := 0 to |defs|
      invariant forall m :: 0 <= m < i && defs[m].unique ==> AcceptedBy(env, s, defs[m], writes, rows)
    {
      if defs[i].unique {
        var passed := CheckIndex(env, s, defs[i], writes, rows);
        if !passed {
          return false;
        }
      }
    }
    return true;
  }

  ghost predicate ListedClaim(env: Env, def: IndexDef, rows: seq<Listed>, j: nat, c: Claim)
    requires j <= |rows|
  {
    exists i :: 0 <= i < j && rows[i].0 == c.0 && c.1 in IndexValues(env, def, rows[i].1)
  }

  lemma ListedClaimStep(env: Env, def: IndexDef, rows: seq<Listed>, j: nat, c: Claim)
    requires j < |rows|
    ensures ListedClaim(env, def, rows, j + 1, c)
       <==> ListedClaim(env, def, rows, j, c) || (c.0 == rows[j].0 && c.1 in IndexValues(env, def, rows[j].1))
  {
    hide IndexValues;
  }

  lemma ListedMet(env: Env, def: IndexDef, rows: seq<Listed>, j: nat, seen: seq<Claim>)
    requires j < |rows| && forall c :: c in seen <==> ListedClaim(env, def, rows, j, c)
    ensures (exists v :: v in IndexValues(env, def, rows[j].1) && Meets(env, seen, rows[j].0, v))
       <==> exists i :: 0 <= i < j && rows[i].0 != rows[j].0 && Collide(env, def, rows[i].1, rows[j].1)
  {
    hide IndexValues;
    if v :| v in IndexValues(env, def, rows[j].1) && Meets(env, seen, rows[j].0, v) {
      var c :| c in seen && c.0 != rows[j].0 && env.eq(c.1, v);
      assert ListedClaim(env, def, rows, j, c);
      var i :| 0 <= i < j && rows[i].0 == c.0 && c.1 in IndexValues(env, def, rows[i].1);
      assert Collide(env, def, rows[i].1, rows[j].1);
    }
    if i :| 0 <= i < j && rows[i].0 != rows[j].0 && Collide(env, def, rows[i].1, rows[j].1) {
      var v, w :| v in IndexValues(env, def, rows[i].1) && w in IndexValues(env, def, rows[j].1) && env.eq(v, w);
      assert ListedClaim(env, def, rows, j, (rows[i].0, v));
      assert (rows[i].0, v) in seen;
      assert Meets(env, seen, rows[j].0, w);
    }
  }

  /** The check of a build: no two of its rows collide. */
  method CheckListed(env: Env, def: IndexDef, rows: seq<Listed>) returns (ok: bool)
    ensures ok <==> !ClashListed(env, def, rows)
  {
    hide Collide;
    hide IndexValues;
    var seen: seq<Claim> := [];
    for j := 0 to |rows|
      invariant forall c :: c in seen <==> ListedClaim(env, def, rows, j, c)
      invariant forall i, m :: 0 <= i < m < j && rows[i].0 != rows[m].0 ==> !Collide(env, def, rows[i].1, rows[m].1)
    {
      var values := IndexValues(env, def, rows[j].1);
      ListedMet(env, def, rows, j, seen);
      var met := MeetsClaim(env, seen, rows[j].0, values);
      if met {
        return false;
      }
      forall c ensures c in seen + ClaimsOf(rows[j].0, values) <==> ListedClaim(env, def, rows, j + 1, c) {
        ListedClaimStep(env, def, rows, j, c);
      }
      seen := seen + ClaimsOf(rows[j].0, values);
    }
    return true;
  }
}
