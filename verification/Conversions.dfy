/** Runs in which collections change engine: their indexes are moved, their rows
    leave the old engine, and then the change is flushed or cut by a crash. */
module Conversions {
  import opened Options
  import opened ByteOrder
  import opened Utf8
  import opened Key
  import opened Document
  import opened Store
  import opened Maintain
  import opened Install
  import opened Views
  import opened Durable
  import opened Runs
  import opened Moves
  import Ddl
  import Pending

  // ── A move and its flush ──────────────────────────────────────────────────

  /** The collection's indexes moved, its rows gone from the old engine, and all
      of it flushed. */
  ghost function FlushedMove(assign: Assignment, sys: System, collection: Ident, engine: Engine, defs: seq<IndexDef>): System {
    var t := Ddl.ChangeAll(sys.s, Ddl.Move(engine), defs).state;
    System(t.(dirty := map[]), Ddl.WithoutCollection(sys.rows, collection), Written(Moved(sys, engine, defs), t.dirty),
           Ddl.WithoutCollection(Merge(assign, sys.rows, sys.stored), collection), None)
  }

  /** No moved definition is stored at once over a mark that says otherwise. */
  ghost predicate AllSettled(s: State, engine: Engine, defs: seq<IndexDef>) {
    forall d :: d in defs ==> Ddl.Settled(s, Ddl.Move(engine), d)
  }

  lemma {:induction false} FormatUnmarked(s: State, engine: Engine, defs: seq<IndexDef>)
    requires Ddl.Ready(s) && Ddl.DistinctNames(defs) && FormatKey() !in s.dirty
    requires forall d :: d in defs ==> d.name in s.defs && s.defs[d.name] == d
    ensures FormatKey() !in Ddl.ChangeAll(s, Ddl.Move(engine), defs).state.dirty
    decreases |defs|
  {
    hide Ddl.Ready;
    hide Ddl.ChangeOne;
    if defs != [] {
      var init, last := defs[..|defs| - 1], defs[|defs| - 1];
      assert forall d :: d in init ==> d in defs;
      assert last in defs;
      Ddl.LastIsApart(defs);
      FormatUnmarked(s, engine, init);
      Ddl.ChangeAllApart(s, Ddl.Move(engine), init, last);
      DefKeyIsNoEntry(last);
      Ddl.EntryPrefixIsNoFormat(last);
      Ddl.MarksElsewhere(Ddl.ChangeAll(s, Ddl.Move(engine), init).state, Ddl.Move(engine), last, FormatKey());
    }
  }

  /** The definitions after a move: those of the collection name the engine. */
  lemma MovedEngines(s: State, collection: Ident, engine: Engine, defs: seq<IndexDef>, assign: Assignment)
    requires Ddl.Ready(s) && IndexesOf(s, collection, defs) && Engines(s.defs, assign)
    ensures Engines(Ddl.ChangeAll(s, Ddl.Move(engine), defs).state.defs, Reassign(assign, collection, engine))
    ensures var t := Ddl.ChangeAll(s, Ddl.Move(engine), defs).state;
      forall n :: n !in s.defs || s.defs[n].collection != collection ==>
        (n in t.defs <==> n in s.defs) && (n in s.defs ==> t.defs[n] == s.defs[n])
  {
    assert NamedRightly(s);
    hide Ddl.ChangeAll;
    hide TwoViews;
    var t := Ddl.ChangeAll(s, Ddl.Move(engine), defs).state;
    forall n ensures n in t.defs ==> t.defs[n].engine == Reassign(assign, collection, engine)(t.defs[n].collection)
      ensures n !in s.defs || s.defs[n].collection != collection ==>
        (n in t.defs <==> n in s.defs) && (n in s.defs ==> t.defs[n] == s.defs[n])
    {
      if n in s.defs && s.defs[n].collection == collection {
        Ddl.MovedIsDeclared(s, engine, defs, s.defs[n]);
      } else {
        OtherDef(s, collection, engine, defs, n);
      }
    }
  }

  lemma OtherDef(s: State, collection: Ident, engine: Engine, defs: seq<IndexDef>, n: Ident)
    requires Ddl.Ready(s) && IndexesOf(s, collection, defs) && (n !in s.defs || s.defs[n].collection != collection)
    ensures var t := Ddl.ChangeAll(s, Ddl.Move(engine), defs).state;
      (n in t.defs <==> n in s.defs) && (n in s.defs ==> t.defs[n] == s.defs[n])
  {
    var other := IndexDef(n, collection, [], false, false, false, None, engine);
    hide Ddl.ChangeAll;
    hide TwoViews;
    Ddl.ChangeAllApart(s, Ddl.Move(engine), defs, other);
  }

  /** Memory agrees with the rows that stay. */
  lemma MovedAgreesOn(env: Env, s: State, rows: Rows, collection: Ident, engine: Engine, defs: seq<IndexDef>, k: Bytes)
    requires Ddl.Ready(s) && IndexesOf(s, collection, defs) && Owned(s) && AgreesOn(env, s, rows, k)
    ensures AgreesOn(env, Ddl.ChangeAll(s, Ddl.Move(engine), defs).state, Ddl.WithoutCollection(rows, collection), k)
  {
    hide Ddl.ChangeAll;
    hide EncodedValues;
    var t := Ddl.ChangeAll(s, Ddl.Move(engine), defs).state;
    Pending.MoveShows(s, engine, defs, k);
    if RefOf(k).Some? {
      var p := ParseEntry(k).value;
      SelectedIff(s, collection, defs, k);
      if p.collection != collection { OtherTold(s, collection, engine, defs, (p.collection, p.index)); }
      hide TwoViews;
      hide ParseEntry;
      hide Ddl.Selected;
    } else {
      HeldIsListed(t, k);
    }
  }

  lemma SelectedIff(s: State, collection: Ident, defs: seq<IndexDef>, k: Bytes)
    requires Ddl.Ready(s) && IndexesOf(s, collection, defs) && Owned(s) && RefOf(k).Some?
    ensures RefOf(k).value.0 == collection && k in s.entries ==> Ddl.Selected(defs, k)
    ensures RefOf(k).value.0 != collection ==> !Ddl.Selected(defs, k)
  {
    var p := ParseEntry(k).value;
    if p.collection == collection && k in s.entries {
      var d := s.defs[p.index];
      assert d in defs;
      UnderOwnPrefixOnly(k, d.collection, d.name);
    } else if p.collection != collection {
      hide TwoViews;
      forall d | d in defs ensures !StartsWith(k, d.EntryPrefix()) { UnderOwnPrefixOnly(k, d.collection, d.name); }
    }
  }

  lemma OtherTold(s: State, collection: Ident, engine: Engine, defs: seq<IndexDef>, named: (Ident, Ident))
    requires Ddl.Ready(s) && IndexesOf(s, collection, defs) && named.0 != collection
    ensures ToldDef(Ddl.ChangeAll(s, Ddl.Move(engine), defs).state.defs, Some(named)) == ToldDef(s.defs, Some(named))
  {
    assert NamedRightly(s);
    hide Ddl.ChangeAll;
    hide TwoViews;
    var n := named.1;
    if n in s.defs && s.defs[n].collection == collection {
      Ddl.MovedIsDeclared(s, engine, defs, s.defs[n]);
    } else {
      OtherDef(s, collection, engine, defs, n);
    }
  }

  lemma MovedAgrees(env: Env, s: State, rows: Rows, collection: Ident, engine: Engine, defs: seq<IndexDef>)
    requires Ddl.Ready(s) && IndexesOf(s, collection, defs) && Agrees(env, s, rows)
    ensures var t := Ddl.ChangeAll(s, Ddl.Move(engine), defs).state;
      Ddl.Ready(t) && t.tombstoned == s.tombstoned && Agrees(env, t, Ddl.WithoutCollection(rows, collection))
  {
    AgreementOwns(env, s, rows);
    hide Ddl.Ready;
    hide Owned;
    hide AgreesOn;
    hide Ddl.ChangeAll;
    hide Ddl.WithoutCollection;
    Pending.MoveShows(s, engine, defs, FormatKey());
    Ddl.ChangeAllKeepsTombstones(s, Ddl.Move(engine), defs);
    forall k ensures AgreesOn(env, Ddl.ChangeAll(s, Ddl.Move(engine), defs).state, Ddl.WithoutCollection(rows, collection), k) {
      MovedAgreesOn(env, s, rows, collection, engine, defs, k);
    }
  }

  /** Flushed, storage mirrors memory with nothing pending if it did under the
      marks, and only then. */
  lemma FlushedMirrorsIff(cells: Cells, t: State)
    requires t.sink.None?
    ensures Mirrors(Written(cells, t.dirty), t.(dirty := map[])) <==> Mirrors(cells, t)
  {
    hide Told;
    hide Written;
    forall k ensures Shown(Written(cells, t.dirty), t.(dirty := map[]), k) == Shown(cells, t, k)
      ensures Told(t.(dirty := map[]), k) == Told(t, k)
    {
      WrittenShows(cells, t.dirty, k);
      MarksTellNothing(t, k);
    }
  }

  lemma MarksTellNothing(t: State, k: Bytes)
    ensures Told(t.(dirty := map[]), k) == Told(t, k)
  {
  }

  lemma StoredRows(assign: Assignment, sys: System, collection: Ident)
    requires DirectRowsStored(assign, sys.rows, sys.stored)
    ensures Ddl.WithoutCollection(Merge(assign, sys.rows, sys.stored), collection) == Ddl.WithoutCollection(sys.rows, collection)
  {
    forall ref: DocRef ensures RowOf(Merge(assign, sys.rows, sys.stored), ref) == RowOf(sys.rows, ref) {
      MergeRow(assign, sys.rows, sys.stored, ref);
    }
    hide Merge;
    var a, b := Merge(assign, sys.rows, sys.stored), sys.rows;
    assert forall ref: DocRef :: (ref in a <==> RowOf(a, ref).Some?) && (ref in b <==> RowOf(b, ref).Some?);
    assert a == b;
  }

  lemma InvParts(env: Env, assign: Assignment, sys: System)
    requires Inv(env, assign, sys)
    ensures Ddl.Ready(sys.s) && sys.s.tombstoned == {} && Mirrors(sys.cells, sys.s) && IsCurrent(sys.cells)
    ensures Agrees(env, sys.s, sys.rows) && Engines(sys.s.defs, assign) && DirectRowsStored(assign, sys.rows, sys.stored)
    ensures FormatKey() !in sys.s.dirty
  {
    FormatKeyIsApart(assign);
    hide Sound;
    hide Agrees;
    hide Mirrors;
    hide TwoViews;
    hide CollectionOf;
  }

  lemma MovedIsCurrent(sys: System, engine: Engine, defs: seq<IndexDef>)
    requires Ddl.Ready(sys.s) && Ddl.DistinctNames(defs) && IsCurrent(sys.cells)
    requires forall d :: d in defs ==> d.name in sys.s.defs && sys.s.defs[d.name] == d
    ensures IsCurrent(Moved(sys, engine, defs))
  {
    hide Ddl.ChangeAll;
    hide ApplyAll;
    MovedCells(sys.cells, sys.s, engine, defs, FormatKey());
    forall d | d in defs ensures d.Key() != FormatKey() { DefKeyIsNoEntry(d); }
    assert !Pending.DefKeyOf(defs, FormatKey());
    if ClearedNow(sys.s, defs, FormatKey()) { Ddl.EntryIsTold(sys.s, FormatKey()); }
    hide TwoViews;
  }

  lemma FlushedIsCurrent(sys: System, engine: Engine, defs: seq<IndexDef>)
    requires Ddl.Ready(sys.s) && Ddl.DistinctNames(defs) && IsCurrent(sys.cells) && FormatKey() !in sys.s.dirty
    requires forall d :: d in defs ==> d.name in sys.s.defs && sys.s.defs[d.name] == d
    ensures IsCurrent(Written(Moved(sys, engine, defs), Ddl.ChangeAll(sys.s, Ddl.Move(engine), defs).state.dirty))
  {
    hide Ddl.ChangeAll;
    hide Moved;
    hide Written;
    hide Ddl.Ready;
    MovedIsCurrent(sys, engine, defs);
    FormatUnmarked(sys.s, engine, defs);
    WrittenShows(Moved(sys, engine, defs), Ddl.ChangeAll(sys.s, Ddl.Move(engine), defs).state.dirty, FormatKey());
  }

  /** A converted collection, flushed, leaves the whole system in order for the
      new engine exactly when every moved definition is settled. */
  lemma FlushedMoveIff(env: Env, assign: Assignment, sys: System, collection: Ident, engine: Engine, defs: seq<IndexDef>)
    requires Inv(env, assign, sys) && IndexesOf(sys.s, collection, defs)
    ensures Inv(env, Reassign(assign, collection, engine), FlushedMove(assign, sys, collection, engine, defs))
       <==> AllSettled(sys.s, engine, defs)
  {
    InvParts(env, assign, sys);
    hide Inv;
    hide Ddl.Ready;
    hide Mirrors;
    hide Agrees;
    hide Ddl.ChangeAll;
    hide ApplyAll;
    hide Written;
    hide Ddl.WithoutCollection;
    hide Reassign;
    hide Ddl.Settled;
    var next, after := Reassign(assign, collection, engine), FlushedMove(assign, sys, collection, engine, defs);
    var t := Ddl.ChangeAll(sys.s, Ddl.Move(engine), defs).state;
    MovedAgrees(env, sys.s, sys.rows, collection, engine, defs);
    MovedEngines(sys.s, collection, engine, defs, assign);
    Ddl.ChangeAllMirrorsIff(sys.cells, sys.s, Ddl.Move(engine), defs);
    MoveHasNoSink(t);
    FlushedMirrorsIff(Moved(sys, engine, defs), t);
    StoredRows(assign, sys, collection);
    FlushedIsCurrent(sys, engine, defs);
    if Mirrors(after.cells, after.s) { FlushedInv(env, next, after, t); }
    if Inv(env, next, after) { InvParts(env, next, after); }
  }

  lemma MoveHasNoSink(t: State)
    requires Ddl.Ready(t)
    ensures t.sink.None? && TwoViews(t)
  {
  }

  lemma FlushedInv(env: Env, next: Assignment, after: System, t: State)
    requires after.s == t.(dirty := map[]) && Ddl.Ready(t) && t.tombstoned == {} && Agrees(env, t, after.rows)
    requires Engines(t.defs, next) && Mirrors(after.cells, after.s) && IsCurrent(after.cells)
    requires after.stored == after.rows && after.flight == None
    ensures Inv(env, next, after)
  {
    MarksDoNotMatter(env, t, map[], after.rows);
    hide TwoViews;
    hide Agrees;
    hide Mirrors;
    hide Sound;
    StateIsSound(env, next, after.cells, after.s, after.rows);
  }

  // ── A move and a crash ────────────────────────────────────────────────────

  /** The process dies after the move, and the store is opened again. */
  ghost function CrashedMove(assign: Assignment, sys: System, collection: Ident, engine: Engine, defs: seq<IndexDef>): System {
    var m, rows := Moved(sys, engine, defs), CrashRows(assign, sys.stored, collection, engine);
    System(Loaded(m), rows, m, rows, None)
  }

  /** The whole system is in order after it exactly when the crash is safe. */
  lemma CrashedMoveIff(env: Env, assign: Assignment, sys: System, collection: Ident, engine: Engine, defs: seq<IndexDef>)
    requires Inv(env, assign, sys) && IndexesOf(sys.s, collection, defs)
    ensures Inv(env, CrashAssign(assign, collection, engine), CrashedMove(assign, sys, collection, engine, defs))
       <==> CrashIsSafe(assign, sys, collection, engine, defs)
  {
    InvParts(env, assign, sys);
    MoveSoundIff(env, assign, sys, collection, engine, defs);
    MovedIsCurrent(sys, engine, defs);
    hide Inv;
    hide Sound;
    hide CrashIsSafe;
    hide Moved;
    hide IndexesOf;
    hide CrashAssign;
    hide CrashRows;
    hide Loaded;
    var next, after := CrashAssign(assign, collection, engine), CrashedMove(assign, sys, collection, engine, defs);
    if Sound(env, next, Bare(after.cells), after.stored) { OpenedInv(env, next, after); }
    if Inv(env, next, after) { InvIsReady(env, next, after); }
  }

  lemma OpenedInv(env: Env, assign: Assignment, sys: System)
    requires Sound(env, assign, Bare(sys.cells), sys.stored) && IsCurrent(sys.cells)
    requires sys.s == Loaded(sys.cells) && sys.rows == sys.stored && sys.flight == None
    ensures Inv(env, assign, sys)
  {
    LoadedExact(env, assign, sys.cells, sys.stored);
    LoadedEngines(env, assign, sys.cells, sys.stored);
    hide TwoViews;
    hide Mirrors;
    hide Agrees;
    hide Sound;
    hide Loaded;
    hide CollectionOf;
  }

  // ── Whole runs ────────────────────────────────────────────────────────────

  /** A run in which no collection changes engine, and the conversion after it,
      flushed or cut by a crash. */
  datatype Leg = Leg(steps: seq<Step>, collection: Ident, engine: Engine, defs: seq<IndexDef>, flushed: bool)

  /** The steps are those of a run; at their end the listed indexes are all the
      collection has, and the conversion meets its condition. */
  ghost predicate LegOk(env: Env, assign: Assignment, sys: System, leg: Leg) {
    && Legal(env, assign, sys, leg.steps) && NamesFree(env, assign, sys, leg.steps)
    && var end := End(env, assign, sys, leg.steps);
    && IndexesOf(end.s, leg.collection, leg.defs)
    && (if leg.flushed then end.flight.None? && AllSettled(end.s, leg.engine, leg.defs)
        else CrashIsSafe(assign, end, leg.collection, leg.engine, leg.defs))
  }

  ghost function NextAssign(assign: Assignment, leg: Leg): Assignment {
    if leg.flushed then Reassign(assign, leg.collection, leg.engine) else CrashAssign(assign, leg.collection, leg.engine)
  }

  ghost function AfterLeg(env: Env, assign: Assignment, sys: System, leg: Leg): System
    requires Legal(env, assign, sys, leg.steps)
  {
    var end := End(env, assign, sys, leg.steps);
    if leg.flushed then FlushedMove(assign, end, leg.collection, leg.engine, leg.defs)
    else CrashedMove(assign, end, leg.collection, leg.engine, leg.defs)
  }

  ghost predicate LegsOk(env: Env, assign: Assignment, sys: System, legs: seq<Leg>)
    decreases |legs|
  {
    legs == []
    || (LegOk(env, assign, sys, legs[0]) && LegsOk(env, NextAssign(assign, legs[0]), AfterLeg(env, assign, sys, legs[0]), legs[1..]))
  }

  ghost function LastAssign(assign: Assignment, legs: seq<Leg>): Assignment
    decreases |legs|
  {
    if legs == [] then assign else LastAssign(NextAssign(assign, legs[0]), legs[1..])
  }

  ghost function EndOfLegs(env: Env, assign: Assignment, sys: System, legs: seq<Leg>): System
    requires LegsOk(env, assign, sys, legs)
    decreases |legs|
  {
    if legs == [] then sys else EndOfLegs(env, NextAssign(assign, legs[0]), AfterLeg(env, assign, sys, legs[0]), legs[1..])
  }

  lemma LegKeepsInv(env: Env, assign: Assignment, sys: System, leg: Leg)
    requires Inv(env, assign, sys) && LegOk(env, assign, sys, leg)
    ensures Inv(env, NextAssign(assign, leg), AfterLeg(env, assign, sys, leg))
  {
    hide Inv;
    hide Legal;
    hide End;
    hide FlushedMove;
    hide CrashedMove;
    hide IndexesOf;
    hide AllSettled;
    hide CrashIsSafe;
    RunKeepsInv(env, assign, sys, leg.steps);
    var end := End(env, assign, sys, leg.steps);
    if leg.flushed {
      FlushedMoveIff(env, assign, end, leg.collection, leg.engine, leg.defs);
    } else {
      CrashedMoveIff(env, assign, end, leg.collection, leg.engine, leg.defs);
    }
  }

  lemma {:induction false} LegsKeepInv(env: Env, assign: Assignment, sys: System, legs: seq<Leg>)
    requires Inv(env, assign, sys) && LegsOk(env, assign, sys, legs)
    ensures Inv(env, LastAssign(assign, legs), EndOfLegs(env, assign, sys, legs))
    decreases |legs|
  {
    hide Inv;
    hide Legal;
    hide End;
    hide NamesFree;
    hide CrashIsSafe;
    hide AllSettled;
    hide IndexesOf;
    hide AfterLeg;
    hide NextAssign;
    if legs != [] {
      LegKeepsInv(env, assign, sys, legs[0]);
      LegsKeepInv(env, NextAssign(assign, legs[0]), AfterLeg(env, assign, sys, legs[0]), legs[1..]);
    }
  }

  /** Over runs in which collections change engine any number of times, each
      conversion settled when flushed or safe when cut, and whatever follows:
      storage, loading and memory are exact, crashes at every step included. */
  lemma ConvertedConsistency(env: Env, assign: Assignment, legs: seq<Leg>, steps: seq<Step>)
    requires LegsOk(env, assign, Start(), legs)
    requires var sys := EndOfLegs(env, assign, Start(), legs);
      Legal(env, LastAssign(assign, legs), sys, steps) && NamesFree(env, LastAssign(assign, legs), sys, steps)
    ensures Consistent(env, End(env, LastAssign(assign, legs), EndOfLegs(env, assign, Start(), legs), steps))
  {
    hide Inv;
    hide LegsOk;
    hide Legal;
    hide End;
    hide Start;
    StartIsSound(env, assign);
    LegsKeepInv(env, assign, Start(), legs);
    var sys, last := EndOfLegs(env, assign, Start(), legs), LastAssign(assign, legs);
    RunKeepsInv(env, last, sys, steps);
    InvIsConsistent(env, last, End(env, last, sys, steps));
  }
}
