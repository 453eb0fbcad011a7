/** Reads in every reachable state: at any point of any run an index read,
    confirmed against the rows, is what a full scan finds. */
module Reachable {
  import opened Options
  import opened Utf8
  import opened Document
  import opened Store
  import opened Maintain
  import opened Views
  import opened Lookup
  import opened Range
  import opened Runs

  lemma ReachableAgrees(env: Env, assign: Assignment, steps: seq<Step>)
    requires Legal(env, assign, Start(), steps) && NamesFree(env, assign, Start(), steps)
    ensures var sys := End(env, assign, Start(), steps);
      && TwoViews(sys.s) && Agrees(env, sys.s, sys.rows)
      && forall n :: n in sys.s.defs ==> sys.s.defs[n].name == n
  {
    StartIsSound(env, assign);
    RunKeepsInv(env, assign, Start(), steps);
    hide Start;
    hide Legal;
    hide End;
    hide Sound;
    hide Mirrors;
    hide Agrees;
    hide CollectionOf;
  }

  /** Looking up any scalar and confirming gives exactly the rows in the index a
      scan with the same comparison finds, each once. */
  lemma LookupInEveryState(env: Env, assign: Assignment, steps: seq<Step>, name: Ident, probe: Value)
    requires Lawful(env) && Indexable(probe) && Legal(env, assign, Start(), steps) && NamesFree(env, assign, Start(), steps)
    requires name in End(env, assign, Start(), steps).s.defs
    ensures var sys := End(env, assign, Start(), steps);
      var def := sys.s.defs[name];
      var found := Confirmed(env, def, sys.rows, EqualIds(env, sys.s, def, probe), probe);
      && (forall id :: id in found <==>
            && (def.collection, id) in sys.rows
            && Covers(env, def, sys.rows[(def.collection, id)])
            && MatchesProbe(env, def, sys.rows[(def.collection, id)], probe))
      && (forall i, j :: 0 <= i < j < |found| ==> found[i] != found[j])
  {
    hide *;
    ReachableAgrees(env, assign, steps);
    var sys := End(env, assign, Start(), steps);
    LookupRefinesScan(env, sys.s, sys.s.defs[name], sys.rows, probe);
  }

  /** A range read gives exactly the rows holding a value within the bounds. */
  lemma RangeInEveryState(env: Env, assign: Assignment, steps: seq<Step>, name: Ident, lower: Option<Value>, upper: Option<Value>, id: Text)
    requires Legal(env, assign, Start(), steps) && NamesFree(env, assign, Start(), steps) && name in End(env, assign, Start(), steps).s.defs
    requires var sys := End(env, assign, Start(), steps);
      RangeIds(env, sys.s, sys.s.defs[name], lower, upper).Some?
    ensures var sys := End(env, assign, Start(), steps);
      var def := sys.s.defs[name];
      id in RangeIds(env, sys.s, def, lower, upper).value <==>
        ((def.collection, id) in sys.rows && HoldsInRange(env, def, lower, upper, sys.rows[(def.collection, id)]))
  {
    hide *;
    ReachableAgrees(env, assign, steps);
    var sys := End(env, assign, Start(), steps);
    RangeRefinesScan(env, sys.s, sys.s.defs[name], sys.rows, lower, upper, id);
  }
}
