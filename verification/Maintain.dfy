/** Following the rows: the changes a row's new contents call for, and what it is
    for a catalog to agree with its rows. */
module Maintain {
  import opened Options
  import opened ByteOrder
  import opened Utf8
  import opened Key
  import opened Document
  import opened Store

  type Rows = map<DocRef, Value>

  function RowOf(rows: Rows, ref: DocRef): Option<Value> {
    if ref in rows then Some(rows[ref]) else None
  }

  // ── Planning ──────────────────────────────────────────────────────────────

  /** The entries `names` hold for a row, none for an absent one. */
  function NewKeys(env: Env, defs: map<Ident, IndexDef>, names: set<Ident>, docId: Text, row: Option<Value>): set<Bytes>
    requires names <= defs.Keys
  {
    match row
    case None => {}
    case Some(value) => set n, k | n in names && k in EntryKeys(env, defs[n], docId, value) :: k
  }

  function Deletes(keys: seq<Bytes>): (ops: seq<EntryOp>)
    ensures |ops| == |keys| && forall i :: 0 <= i < |keys| ==> ops[i] == DeleteEntry(keys[i])
  {
    seq(|keys|, i requires 0 <= i < |keys| => DeleteEntry(keys[i]))
  }

  function Puts(keys: seq<Bytes>): (ops: seq<EntryOp>)
    ensures |ops| == |keys| && forall i :: 0 <= i < |keys| ==> ops[i] == PutEntry(keys[i])
  {
    seq(|keys|, i requires 0 <= i < |keys| => PutEntry(keys[i]))
  }

  /** Delete what is held and not wanted, put what is wanted and not held. */
  function PlanOps(held: set<Bytes>, wanted: set<Bytes>): seq<EntryOp> {
    Deletes(Ascending(held - wanted)) + Puts(Ascending(wanted - held))
  }

  lemma AfterOneDelete(keys: set<Bytes>, ops: seq<EntryOp>, k: Bytes)
    ensures After(keys, ops + [DeleteEntry(k)]) == After(keys, ops) - {k}
  {
    var all := ops + [DeleteEntry(k)];
    assert all[..|all| - 1] == ops;
  }

  lemma AfterOnePut(keys: set<Bytes>, ops: seq<EntryOp>, k: Bytes)
    ensures After(keys, ops + [PutEntry(k)]) == After(keys, ops) + {k}
  {
    var all := ops + [PutEntry(k)];
    assert all[..|all| - 1] == ops;
  }

  lemma MembersGrow(keys: seq<Bytes>)
    requires keys != []
    ensures Members(keys) == Members(keys[..|keys| - 1]) + {keys[|keys| - 1]}
  {
    assert keys == keys[..|keys| - 1] + [keys[|keys| - 1]];
  }

  lemma MembersOfAscending(keys: set<Bytes>)
    ensures Members(Ascending(keys)) == keys
  {
    hide Ascending;
  }

  lemma {:induction false} AfterDeletes(keys: set<Bytes>, gone: seq<Bytes>)
    ensures After(keys, Deletes(gone)) == keys - Members(gone)
    decreases |gone|
  {
    if gone == [] {
      assert Deletes(gone) == [];
    } else {
      hide After;
      var init, last := gone[..|gone| - 1], gone[|gone| - 1];
      AfterDeletes(keys, init);
      AfterOneDelete(keys, Deletes(init), last);
      assert Deletes(gone) == Deletes(init) + [DeleteEntry(last)];
      MembersGrow(gone);
      hide Members;
    }
  }

  lemma {:induction false} AfterPuts(keys: set<Bytes>, ops: seq<EntryOp>, added: seq<Bytes>)
    ensures After(keys, ops + Puts(added)) == After(keys, ops) + Members(added)
    decreases |added|
  {
    hide After;
    if added == [] {
      assert ops + Puts(added) == ops;
    } else {
      var init, last := added[..|added| - 1], added[|added| - 1];
      AfterPuts(keys, ops, init);
      AfterOnePut(keys, ops + Puts(init), last);
      assert ops + Puts(added) == ops + Puts(init) + [PutEntry(last)];
      MembersGrow(added);
      hide Members;
    }
  }

  lemma AfterPutting(keys: set<Bytes>, added: set<Bytes>)
    ensures After(keys, Puts(Ascending(added))) == keys + added
  {
    assert After(keys, []) == keys;
    hide After;
    hide Ascending;
    hide Members;
    AfterPuts(keys, [], Ascending(added));
    assert [] + Puts(Ascending(added)) == Puts(Ascending(added));
    MembersOfAscending(added);
  }

  /** The plan reaches the wanted entries. */
  lemma PlanReaches(held: set<Bytes>, wanted: set<Bytes>)
    ensures After(held, PlanOps(held, wanted)) == wanted
  {
    hide After;
    hide Ascending;
    hide Members;
    var gone, added := Ascending(held - wanted), Ascending(wanted - held);
    AfterDeletes(held, gone);
    AfterPuts(held, Deletes(gone), added);
    MembersOfAscending(held - wanted);
    MembersOfAscending(wanted - held);
  }

  /** A row plans nothing exactly when its entries are already right. */
  lemma UnchangedPlansNothing(held: set<Bytes>, wanted: set<Bytes>)
    ensures PlanOps(held, wanted) == [] <==> held == wanted
  {
    if PlanOps(held, wanted) == [] {
      assert |held - wanted| == 0 && |wanted - held| == 0;
      assert held - wanted == {} && wanted - held == {};
    }
  }

  lemma PlanStaysOn(held: set<Bytes>, wanted: set<Bytes>, ref: DocRef)
    requires forall k :: k in held || k in wanted ==> RefOf(k) == Some(ref)
    ensures AllOn(PlanOps(held, wanted), ref)
  {
    hide RefOf;
    var gone, added := Ascending(held - wanted), Ascending(wanted - held);
    var ops := PlanOps(held, wanted);
    forall i | 0 <= i < |ops| ensures RefOf(ops[i].key) == Some(ref) {
      if i < |gone| {
        assert ops[i].key == gone[i] && gone[i] in gone;
      } else {
        assert ops[i].key == added[i - |gone|] && added[i - |gone|] in added;
      }
    }
  }

  lemma NewKeysBelong(env: Env, defs: map<Ident, IndexDef>, names: set<Ident>, ref: DocRef, row: Option<Value>)
    requires names <= defs.Keys && forall n :: n in names ==> defs[n].collection == ref.0
    ensures forall k :: k in NewKeys(env, defs, names, ref.1, row) ==> RefOf(k) == Some(ref)
  {
    forall k | k in NewKeys(env, defs, names, ref.1, row) ensures RefOf(k) == Some(ref) {
      var n :| n in names && k in EntryKeys(env, defs[n], ref.1, row.value);
      EntryKeysParse(env, defs[n], ref.1, row.value, k);
    }
  }

  // ── Resync ────────────────────────────────────────────────────────────────

  /** Move one row's posting to what `row` should hold under `names`. */
  function Settle(env: Env, s: State, names: set<Ident>, ref: DocRef, row: Option<Value>): State
    requires names <= s.defs.Keys
  {
    Apply(s, ref, PlanOps(Held(s, ref), NewKeys(env, s.defs, names, ref.1, row)))
  }

  lemma SettleMoves(env: Env, s: State, names: set<Ident>, ref: DocRef, row: Option<Value>)
    requires TwoViews(s) && names <= s.defs.Keys && forall n :: n in names ==> s.defs[n].collection == ref.0
    ensures TwoViews(Settle(env, s, names, ref, row)) && SameCatalog(s, Settle(env, s, names, ref, row))
    ensures Held(Settle(env, s, names, ref, row), ref) == NewKeys(env, s.defs, names, ref.1, row)
    ensures forall r :: r != ref ==> Held(Settle(env, s, names, ref, row), r) == Held(s, r)
  {
    SettlePlanStaysOn(env, s, names, ref, row);
    PlanReaches(Held(s, ref), NewKeys(env, s.defs, names, ref.1, row));
    ApplyMovesPosting(s, ref, PlanOps(Held(s, ref), NewKeys(env, s.defs, names, ref.1, row)));
  }

  lemma SettlePlanStaysOn(env: Env, s: State, names: set<Ident>, ref: DocRef, row: Option<Value>)
    requires TwoViews(s) && names <= s.defs.Keys && forall n :: n in names ==> s.defs[n].collection == ref.0
    ensures AllOn(PlanOps(Held(s, ref), NewKeys(env, s.defs, names, ref.1, row)), ref)
  {
    hide RefOf;
    NewKeysBelong(env, s.defs, names, ref, row);
    PlanStaysOn(Held(s, ref), NewKeys(env, s.defs, names, ref.1, row), ref);
  }

  lemma SettleKeepsMirror(env: Env, stored: Cells, s: State, names: set<Ident>, ref: DocRef, row: Option<Value>)
    requires TwoViews(s) && names <= s.defs.Keys && forall n :: n in names ==> s.defs[n].collection == ref.0
    requires Mirrors(stored, s)
    ensures Mirrors(stored, Settle(env, s, names, ref, row))
  {
    SettlePlanStaysOn(env, s, names, ref, row);
    ApplyKeepsMirror(stored, s, ref, PlanOps(Held(s, ref), NewKeys(env, s.defs, names, ref.1, row)));
  }

  /** The row a resync indexes: none when it is gone or tombstoned. */
  function LiveRow(s: State, rows: Rows, ref: DocRef): Option<Value> {
    if ref in s.tombstoned then None else RowOf(rows, ref)
  }

  function ResyncAll(env: Env, s: State, names: set<Ident>, collection: Ident, ids: seq<Text>, rows: Rows): (t: State)
    requires names <= s.defs.Keys
    ensures t.defs == s.defs
    decreases |ids|
  {
    if ids == [] then s
    else
      var t := ResyncAll(env, s, names, collection, ids[..|ids| - 1], rows);
      var ref := (collection, ids[|ids| - 1]);
      ApplyKeepsDefs(t, ref, PlanOps(Held(t, ref), NewKeys(env, t.defs, names, ref.1, LiveRow(t, rows, ref))));
      Settle(env, t, names, ref, LiveRow(t, rows, ref))
  }

  lemma {:induction false} ApplyKeepsDefs(s: State, ref: DocRef, ops: seq<EntryOp>)
    ensures Apply(s, ref, ops).defs == s.defs && Apply(s, ref, ops).tombstoned == s.tombstoned
    decreases |ops|
  {
    if ops != [] {
      ApplyKeepsDefs(s, ref, ops[..|ops| - 1]);
    }
  }

  /** Settle each listed document against its live row. */
  function Resync(env: Env, s: State, collection: Ident, ids: seq<Text>, rows: Rows): State {
    var names := DefsOn(s.defs, collection, DocumentRows);
    if names == {} then s else ResyncAll(env, s, names, collection, ids, rows)
  }

  /** After a resync each listed row holds exactly the entries of its live row
      and every other row holds what it held. */
  lemma {:induction false} ResyncAllMoves(env: Env, s: State, names: set<Ident>, collection: Ident, ids: seq<Text>, rows: Rows)
    requires TwoViews(s) && names <= s.defs.Keys && forall n :: n in names ==> s.defs[n].collection == collection
    ensures var t := ResyncAll(env, s, names, collection, ids, rows);
      && TwoViews(t) && SameCatalog(s, t)
      && forall ref :: Held(t, ref) ==
           if ref.0 == collection && ref.1 in ids
           then NewKeys(env, s.defs, names, ref.1, LiveRow(s, rows, ref))
           else Held(s, ref)
    decreases |ids|
  {
    hide TwoViews;
    hide Settle;
    if ids != [] {
      var init, last := ids[..|ids| - 1], ids[|ids| - 1];
      ResyncAllMoves(env, s, names, collection, init, rows);
      var t := ResyncAll(env, s, names, collection, init, rows);
      SettleMoves(env, t, names, (collection, last), LiveRow(t, rows, (collection, last)));
      assert forall id :: id in ids <==> id in init || id == last;
    }
  }

  lemma {:induction false} ResyncAllKeepsMirror(env: Env, stored: Cells, s: State, names: set<Ident>, collection: Ident, ids: seq<Text>, rows: Rows)
    requires TwoViews(s) && names <= s.defs.Keys && forall n :: n in names ==> s.defs[n].collection == collection
    requires Mirrors(stored, s)
    ensures Mirrors(stored, ResyncAll(env, s, names, collection, ids, rows))
    decreases |ids|
  {
    hide TwoViews;
    hide Mirrors;
    hide Settle;
    if ids != [] {
      var init, last := ids[..|ids| - 1], ids[|ids| - 1];
      ResyncAllMoves(env, s, names, collection, init, rows);
      ResyncAllKeepsMirror(env, stored, s, names, collection, init, rows);
      var t := ResyncAll(env, s, names, collection, init, rows);
      SettleKeepsMirror(env, stored, t, names, (collection, last), LiveRow(t, rows, (collection, last)));
    }
  }

  // ── Agreement with the rows ───────────────────────────────────────────────

  /** Whether a definition, if `cell` is one, holds entry `p` for `rows`. */
  ghost predicate ImpliedBy(env: Env, cell: Option<Cell>, rows: Rows, p: ParsedEntry) {
    && cell.Some? && cell.value.DefCell?
    && (p.collection, p.docId) in rows
    && p.value in EncodedValues(env, cell.value.def, rows[(p.collection, p.docId)])
  }

  /** A key is an entry exactly when its index's definition holds it for the
      rows. */
  ghost predicate AgreesOn(env: Env, s: State, rows: Rows, key: Bytes) {
    match ParseEntry(key)
    case None => key !in s.entries
    case Some(p) => key in s.entries <==> ImpliedBy(env, ToldDef(s.defs, Some((p.collection, p.index))), rows, p)
  }

  ghost predicate Agrees(env: Env, s: State, rows: Rows) {
    forall k :: AgreesOn(env, s, rows, k)
  }

  /** Every index on the collection covers the same engine's rows. */
  ghost predicate OneEngine(defs: map<Ident, IndexDef>, collection: Ident, engine: Engine) {
    forall n :: n in defs && defs[n].collection == collection ==> defs[n].engine == engine
  }

  /** A row whose posting is what all its collection's indexes hold for it
      agrees on every one of its keys. */
  lemma PostingAgrees(env: Env, s: State, rows: Rows, key: Bytes, names: set<Ident>)
    requires TwoViews(s) && RefOf(key).Some?
    requires names == set n | n in s.defs && s.defs[n].collection == RefOf(key).value.0
    ensures AgreesOn(env, s, rows, key)
       <==> (key in Held(s, RefOf(key).value)
             <==> key in NewKeys(env, s.defs, names, RefOf(key).value.1, RowOf(rows, RefOf(key).value)))
  {
    var p := ParseEntry(key).value;
    var ref := RefOf(key).value;
    HeldIsListed(s, key);
    if ref in rows {
      forall n | n in names ensures key in EntryKeys(env, s.defs[n], ref.1, rows[ref])
        <==> n == p.index && p.value in EncodedValues(env, s.defs[n], rows[ref])
      {
        EntryKeysParse(env, s.defs[n], ref.1, rows[ref], key);
      }
    }
  }
}
