/** The three lowered forms of a filter list accept the same rows, and lowering
    succeeds for one exactly when it does for the others. */
module FilterMeaning {
  import opened Options
  import opened Document
  import opened Exprs
  import opened ExprMeaning
  import opened Filters

  /** How the three evaluators see one row. */
  datatype Matching = Matching(
    sem: Semantics,
    field: string -> Option<Value>,
    meta: (CompareOp, Option<Value>, Value) -> bool,
    metaIn: (Option<Value>, seq<Value>) -> bool,
    scan: (CompareOp, Option<Value>, Value) -> bool,
    scanIn: (Option<Value>, seq<Value>) -> bool,
    scanNull: Option<Value> -> bool,
    truthy: Value -> bool)

  function SqlCompare(op: CompareOp): SqlOp {
    match op case CEq => SqlOp.Eq case CNe => Ne case CGt => Gt case CGe => Ge case CLt => Lt case CLe => Le
  }

  // ── What a filter means ───────────────────────────────────────────────────

  /** The truth value of a filter, its expressions as they evaluate; none where a
      literal has no value or an expression no truth value. */
  ghost function Verdict(sem: Semantics, f: Filter): Option<Value>
    decreases f
  {
    match f
    case Comparison(field, op, value) =>
      (match value case Some(v) => Relation(sem, SqlCompare(op), sem.column(field), v) case None => None)
    case InValues(field, values) =>
      (match Values(values) case Some(vs) => InMeaning(sem, sem.column(field), vs, false) case None => None)
    case Within(field, low, high) =>
      (match (low, high)
       case (Some(lo), Some(hi)) => BetweenMeaning(sem, sem.column(field), lo, hi, false)
       case _ => None)
    case IsMissing(field) => Some(NullTest(sem.column(field), false))
    case IsPresent(field) => Some(NullTest(sem.column(field), true))
    case AllFilters(parts) => (match Verdicts(sem, parts) case Some(vs) => Some(AllOf(vs)) case None => None)
    case AnyFilters(parts) => (match Verdicts(sem, parts) case Some(vs) => Some(AnyOf(vs)) case None => None)
    case NotFilter(inner) => (match Verdict(sem, inner) case Some(v) => Negation(v) case None => None)
    case ExprFilter(expr) =>
      (match Lower(expr)
       case Some(q) => (match Eval(sem, q) case Some(v) => if IsTruth(v) then Some(v) else None case None => None)
       case None => None)
  }

  ghost function Verdicts(sem: Semantics, fs: seq<Filter>): (vs: Option<seq<Value>>)
    ensures vs.Some? ==> |vs.value| == |fs|
    decreases fs
  {
    if fs == [] then Some([])
    else
      match (Verdicts(sem, fs[..|fs| - 1]), Verdict(sem, fs[|fs| - 1]))
      case (Some(vs), Some(v)) => Some(vs + [v])
      case _ => None
  }

  ghost predicate AllTrue(vs: seq<Value>) {
    forall i :: 0 <= i < |vs| ==> vs[i] == Bool(true)
  }

  lemma VerdictsGrow(sem: Semantics, fs: seq<Filter>)
    requires fs != [] && Verdicts(sem, fs).Some?
    ensures var init, last := Verdicts(sem, fs[..|fs| - 1]), Verdict(sem, fs[|fs| - 1]);
      && init.Some? && last.Some? && Verdicts(sem, fs).value == init.value + [last.value]
      && (AllTrue(Verdicts(sem, fs).value) <==> AllTrue(init.value) && last == Some(Bool(true)))
  {
    hide Verdict;
    var init, last := Verdicts(sem, fs[..|fs| - 1]).value, Verdict(sem, fs[|fs| - 1]).value;
    var vs := Verdicts(sem, fs).value;
    assert vs[|vs| - 1] == last;
    assert forall i :: 0 <= i < |init| ==> vs[i] == init[i];
  }

  lemma {:induction false} VerdictIsTruthValue(sem: Semantics, f: Filter)
    requires Verdict(sem, f).Some?
    ensures IsTruth(Verdict(sem, f).value)
    decreases f
  {
    hide Eval;
    hide Lower;
    match f
    case NotFilter(inner) => VerdictIsTruthValue(sem, inner);
    case _ =>
  }

  lemma {:induction false} VerdictsAreTruthValues(sem: Semantics, fs: seq<Filter>)
    requires Verdicts(sem, fs).Some?
    ensures AllTruth(Verdicts(sem, fs).value)
    decreases |fs|
  {
    hide Verdict;
    if fs != [] {
      VerdictsAreTruthValues(sem, fs[..|fs| - 1]);
      VerdictIsTruthValue(sem, fs[|fs| - 1]);
    }
  }

  // ── One expression ────────────────────────────────────────────────────────

  lemma {:induction false} LiteralsEach(sem: Semantics, vs: seq<Value>)
    ensures EvalAll(sem, Literals(vs)) == Some(vs)
    decreases |vs|
  {
    var qs := Literals(vs);
    if vs != [] {
      LiteralsEach(sem, vs[..|vs| - 1]);
      assert qs[..|qs| - 1] == Literals(vs[..|vs| - 1]);
      assert vs[..|vs| - 1] + [vs[|vs| - 1]] == vs;
    } else {
      assert qs == [];
    }
  }

  /** On every row, NULL fields included, the expression has the filter's truth
      value. */
  lemma {:induction false} ExprHasVerdict(sem: Semantics, f: Filter)
    requires Regular(sem) && ExprOf(f).Some? && Verdict(sem, f).Some?
    ensures Eval(sem, ExprOf(f).value) == Verdict(sem, f)
    decreases f
  {
    match f
    case Comparison(_, _, _) =>
    case InValues(field, values) =>
      var vs := Values(values).value;
      LiteralsEach(sem, vs);
      InKeepsMeaning(sem, QColumn(field), Literals(vs), sem.column(field), vs, false);
    case Within(field, low, high) =>
      BetweenKeepsMeaning(sem, QColumn(field), QLiteral(low.value), QLiteral(high.value), sem.column(field), low.value, high.value);
    case AllFilters(parts) =>
      ExprsHaveVerdict(sem, parts);
      VerdictsAreTruthValues(sem, parts);
      ChainEval(sem, QAnd, ExprAll(parts).value, Verdicts(sem, parts).value);
    case AnyFilters(parts) =>
      ExprsHaveVerdict(sem, parts);
      VerdictsAreTruthValues(sem, parts);
      ChainEval(sem, QOr, ExprAll(parts).value, Verdicts(sem, parts).value);
    case NotFilter(inner) =>
      ExprHasVerdict(sem, inner);
      BinaryEval(sem, ExprOf(inner).value, QEq, QLiteral(Bool(false)), Verdict(sem, inner).value, Bool(false));
    case _ =>
  }

  lemma {:induction false} ExprsHaveVerdict(sem: Semantics, fs: seq<Filter>)
    requires Regular(sem) && ExprAll(fs).Some? && Verdicts(sem, fs).Some?
    ensures EvalAll(sem, ExprAll(fs).value) == Verdicts(sem, fs)
    decreases fs
  {
    hide Verdict;
    hide ExprOf;
    hide Eval;
    if fs != [] {
      ExprsHaveVerdict(sem, fs[..|fs| - 1]);
      ExprHasVerdict(sem, fs[|fs| - 1]);
      var qs := ExprAll(fs).value;
      assert qs[..|qs| - 1] == ExprAll(fs[..|fs| - 1]).value;
    }
  }

  // ── The evaluators ────────────────────────────────────────────────────────

  ghost predicate Matches(m: Matching, mf: MetaFilter)
    decreases mf
  {
    match mf
    case MEq(field, v) => m.meta(CEq, m.field(field), v)
    case MNe(field, v) => m.meta(CNe, m.field(field), v)
    case MGt(field, v) => m.meta(CGt, m.field(field), v)
    case MGte(field, v) => m.meta(CGe, m.field(field), v)
    case MLt(field, v) => m.meta(CLt, m.field(field), v)
    case MLte(field, v) => m.meta(CLe, m.field(field), v)
    case MIn(field, vs) => m.metaIn(m.field(field), vs)
    case MAnd(parts) => forall i :: 0 <= i < |parts| ==> Matches(m, parts[i])
    case MOr(parts) => exists i :: 0 <= i < |parts| && Matches(m, parts[i])
    case MNot(inner) => !Matches(m, inner)
  }

  /** An expression predicate holds: it evaluates to something truthy. */
  predicate Holds(m: Matching, q: QueryExpr) {
    Eval(m.sem, q).Some? && m.truthy(Eval(m.sem, q).value)
  }

  ghost predicate Passes(m: Matching, s: ScanFilter)
    decreases s, 1
  {
    match s.op
    case FEq => m.scan(CEq, m.field(s.field), s.value)
    case FNe => m.scan(CNe, m.field(s.field), s.value)
    case FGt => m.scan(CGt, m.field(s.field), s.value)
    case FGte => m.scan(CGe, m.field(s.field), s.value)
    case FLt => m.scan(CLt, m.field(s.field), s.value)
    case FLte => m.scan(CLe, m.field(s.field), s.value)
    case FIn => s.value.Array? && m.scanIn(m.field(s.field), s.value.items)
    case FIsNull => m.scanNull(m.field(s.field))
    case FIsNotNull => !m.scanNull(m.field(s.field))
    case FOr => exists i :: 0 <= i < |s.clauses| && AllPass(m, s.clauses[i].filters)
    case FExpr => s.expr.Some? && Holds(m, s.expr.value)
  }

  ghost predicate AllPass(m: Matching, list: seq<ScanFilter>)
    decreases list, 0
  {
    forall i :: 0 <= i < |list| ==> Passes(m, list[i])
  }

  ghost predicate LiteAccepts(m: Matching, lf: LiteFilter) {
    && (lf.meta.Some? ==> Matches(m, lf.meta.value))
    && (forall i :: 0 <= i < |lf.exprs| ==> Holds(m, lf.exprs[i]))
  }

  /** The expression predicates as they are evaluated: stop at the first that
      fails, or at an error. */
  method EvalExprs(m: Matching, exprs: seq<QueryExpr>) returns (kept: Option<bool>)
    ensures kept == Some(true) <==> forall i :: 0 <= i < |exprs| ==> Holds(m, exprs[i])
    ensures kept == None ==> exists i :: 0 <= i < |exprs| && Eval(m.sem, exprs[i]).None?
  {
    for i := 0 to |exprs|
      invariant forall j :: 0 <= j < i ==> Holds(m, exprs[j])
    {
      match Eval(m.sem, exprs[i]) {
        case None => return None;
        case Some(v) =>
          if !m.truthy(v) {
            return Some(false);
          }
      }
    }
    return Some(true);
  }

  // ── Rows the forms are promised to agree on ───────────────────────────────

  /** Where a field and a literal are both there, the evaluators compare them as
      SQL does; a field that is there is not NULL to either. */
  ghost predicate Fair(m: Matching) {
    && (forall name :: m.field(name).Some? ==> m.sem.column(name) == m.field(name).value)
    && (forall op, v: Value, w: Value :: !v.Null? && !w.Null? ==>
          (m.meta(op, Some(v), w) <==> Relation(m.sem, SqlCompare(op), v, w) == Some(Bool(true))))
    && (forall op, v: Value, w: Value :: !v.Null? && !w.Null? ==>
          (m.scan(op, Some(v), w) <==> Relation(m.sem, SqlCompare(op), v, w) == Some(Bool(true))))
    && (forall v: Value :: !v.Null? ==> !m.meta(CEq, Some(v), Null) && m.meta(CNe, Some(v), Null) && !m.scanNull(Some(v)))
    && (forall v: Value, ws :: !v.Null? && Null !in ws ==> (m.metaIn(Some(v), ws) <==> exists w :: w in ws && m.sem.eq(v, w)))
    && (forall v: Value, ws :: !v.Null? && Null !in ws ==> (m.scanIn(Some(v), ws) <==> exists w :: w in ws && m.sem.eq(v, w)))
    && (forall b :: m.truthy(Bool(b)) <==> b) && !m.truthy(Null)
  }

  ghost predicate Present(m: Matching, name: string) {
    m.field(name).Some? && !m.field(name).value.Null?
  }

  predicate NotNull(lit: SqlValue) {
    lit != Some(Null)
  }

  /** Every field a primitive part names is there and not NULL, and no literal is
      NULL. */
  ghost predicate Plain(m: Matching, f: Filter)
    decreases f
  {
    match f
    case Comparison(field, _, value) => Present(m, field) && NotNull(value)
    case InValues(field, values) => Present(m, field) && forall i :: 0 <= i < |values| ==> NotNull(values[i])
    case Within(field, low, high) => Present(m, field) && NotNull(low) && NotNull(high)
    case IsMissing(field) => Present(m, field)
    case IsPresent(field) => Present(m, field)
    case AllFilters(parts) => forall i :: 0 <= i < |parts| ==> Plain(m, parts[i])
    case AnyFilters(parts) => forall i :: 0 <= i < |parts| ==> Plain(m, parts[i])
    case NotFilter(inner) => Plain(m, inner)
    case ExprFilter(_) => true
  }

  ghost predicate AllPlain(m: Matching, fs: seq<Filter>) {
    forall i :: 0 <= i < |fs| ==> Plain(m, fs[i])
  }

  // ── Leaves ────────────────────────────────────────────────────────────────

  lemma InIsAny(sem: Semantics, v: Value, vs: seq<Value>)
    requires !v.Null? && Null !in vs
    ensures InMeaning(sem, v, vs, false).Some? && InMeaning(sem, v, vs, false).value.Bool?
    ensures InMeaning(sem, v, vs, false) == Some(Bool(true)) <==> exists w :: w in vs && sem.eq(v, w)
  {
    var tests := EqualEach(sem, v, vs);
    if w :| w in vs && sem.eq(v, w) {
      var i :| 0 <= i < |vs| && vs[i] == w;
      assert tests[i] == Bool(true);
    }
    if Bool(true) in tests {
      var i :| 0 <= i < |tests| && tests[i] == Bool(true);
      assert vs[i] in vs;
    }
    forall i | 0 <= i < |tests| ensures tests[i] != Null { assert vs[i] in vs; }
  }

  lemma ValuesNotNull(lits: seq<SqlValue>)
    requires Values(lits).Some? && forall i :: 0 <= i < |lits| ==> NotNull(lits[i])
    ensures Null !in Values(lits).value
  {
  }

  lemma FieldIsColumn(m: Matching, field: string)
    requires Fair(m) && Present(m, field)
    ensures m.field(field) == Some(m.sem.column(field)) && !m.sem.column(field).Null?
  {
  }

  lemma FairCompares(m: Matching, op: CompareOp, v: Value, w: Value)
    requires Fair(m) && !v.Null? && !w.Null?
    ensures m.meta(op, Some(v), w) <==> Relation(m.sem, SqlCompare(op), v, w) == Some(Bool(true))
    ensures m.scan(op, Some(v), w) <==> Relation(m.sem, SqlCompare(op), v, w) == Some(Bool(true))
  {
    hide Relation;
  }

  lemma FairIn(m: Matching, v: Value, ws: seq<Value>)
    requires Fair(m) && !v.Null? && Null !in ws
    ensures m.metaIn(Some(v), ws) <==> exists w :: w in ws && m.sem.eq(v, w)
    ensures m.scanIn(Some(v), ws) <==> exists w :: w in ws && m.sem.eq(v, w)
  {
    hide Relation;
  }

  lemma FairNull(m: Matching, v: Value)
    requires Fair(m) && !v.Null?
    ensures !m.meta(CEq, Some(v), Null) && m.meta(CNe, Some(v), Null) && !m.scanNull(Some(v))
  {
    hide Relation;
  }

  lemma FairTruthy(m: Matching, v: Value)
    requires Fair(m) && IsTruth(v)
    ensures m.truthy(v) <==> v == Bool(true)
  {
    hide Relation;
  }

  lemma MetaCompares(m: Matching, field: string, op: CompareOp, v: Value)
    requires Fair(m) && Present(m, field) && !v.Null?
    ensures var r := Relation(m.sem, SqlCompare(op), m.sem.column(field), v);
      && r.Some? && r.value.Bool?
      && (Matches(m, MetaCompare(field, op, v)) <==> r == Some(Bool(true)))
      && (m.scan(op, m.field(field), v) <==> r == Some(Bool(true)))
  {
    hide Fair;
    FieldIsColumn(m, field);
    var w := m.sem.column(field);
    FairCompares(m, op, w, v);
    ComparisonIsTruth(m.sem, op, w, v);
    CompareMatches(m, field, op, v);
    hide Relation;
    hide Matches;
  }

  lemma ComparisonIsTruth(sem: Semantics, op: CompareOp, v: Value, w: Value)
    requires !v.Null? && !w.Null?
    ensures Relation(sem, SqlCompare(op), v, w).Some? && Relation(sem, SqlCompare(op), v, w).value.Bool?
  {
  }

  lemma CompareMatches(m: Matching, field: string, op: CompareOp, v: Value)
    ensures Matches(m, MetaCompare(field, op, v)) <==> m.meta(op, m.field(field), v)
  {
  }

  lemma WithinIsBoth(m: Matching, field: string, lo: Value, hi: Value)
    requires Fair(m) && Present(m, field) && !lo.Null? && !hi.Null?
    ensures var r := BetweenMeaning(m.sem, m.sem.column(field), lo, hi, false);
      && r.Some? && r.value.Bool?
      && (r == Some(Bool(true)) <==>
            Relation(m.sem, Ge, m.sem.column(field), lo) == Some(Bool(true)) && Relation(m.sem, Le, m.sem.column(field), hi) == Some(Bool(true)))
  {
  }

  // ── Metadata filters ──────────────────────────────────────────────────────

  lemma AllOfTrue(vs: seq<Value>)
    requires AllTruth(vs)
    ensures AllOf(vs) == Bool(true) <==> AllTrue(vs)
    ensures AnyOf(vs) == Bool(true) <==> exists i :: 0 <= i < |vs| && vs[i] == Bool(true)
    ensures (forall i :: 0 <= i < |vs| ==> vs[i].Bool?) ==> AllOf(vs).Bool? && AnyOf(vs).Bool?
  {
    if AllTrue(vs) {
      assert Bool(false) !in vs && Null !in vs;
    }
    if AllOf(vs) == Bool(true) {
      forall i | 0 <= i < |vs| ensures vs[i] == Bool(true) { assert vs[i] in vs; }
    }
    if forall i :: 0 <= i < |vs| ==> vs[i].Bool? {
      assert Null !in vs;
    }
  }

  /** A primitive condition is two-valued on these rows and matches exactly when
      the filter is true. */
  ghost predicate MetaAgrees(m: Matching, f: Filter) {
    MetaOf(f).Some? ==>
      && Verdict(m.sem, f).Some? && Verdict(m.sem, f).value.Bool?
      && (Matches(m, MetaOf(f).value) <==> Verdict(m.sem, f) == Some(Bool(true)))
  }

  lemma {:induction false} MetaLeaf(m: Matching, f: Filter)
    requires Fair(m) && Plain(m, f) && !f.AllFilters? && !f.AnyFilters? && !f.NotFilter?
    ensures MetaAgrees(m, f)
  {
    hide Fair;
    hide Relation;
    hide InMeaning;
    hide BetweenMeaning;
    if MetaOf(f).Some? {
      FieldIsColumn(m, f.field);
      FairNull(m, m.sem.column(f.field));
      match f
      case Comparison(field, op, value) => MetaCompares(m, field, op, value.value);
      case InValues(field, values) =>
        ValuesNotNull(values);
        InIsAny(m.sem, m.sem.column(field), Values(values).value);
        FairIn(m, m.sem.column(field), Values(values).value);
      case Within(field, low, high) => WithinMatches(m, field, low.value, high.value);
      case IsMissing(_) =>
      case IsPresent(_) =>
    }
  }

  lemma WithinMatches(m: Matching, field: string, lo: Value, hi: Value)
    requires Fair(m) && Present(m, field) && !lo.Null? && !hi.Null?
    ensures BetweenMeaning(m.sem, m.sem.column(field), lo, hi, false).Some?
    ensures BetweenMeaning(m.sem, m.sem.column(field), lo, hi, false).value.Bool?
    ensures Matches(m, MAnd([MGte(field, lo), MLte(field, hi)]))
       <==> BetweenMeaning(m.sem, m.sem.column(field), lo, hi, false) == Some(Bool(true))
  {
    hide Fair;
    hide Relation;
    hide BetweenMeaning;
    WithinIsBoth(m, field, lo, hi);
    MetaCompares(m, field, CGe, lo);
    MetaCompares(m, field, CLe, hi);
    var parts := [MGte(field, lo), MLte(field, hi)];
    assert Matches(m, MAnd(parts)) <==> Matches(m, parts[0]) && Matches(m, parts[1]);
  }

  lemma {:induction false} MetaHasVerdict(m: Matching, f: Filter)
    requires Fair(m) && Plain(m, f)
    ensures MetaAgrees(m, f)
    decreases f
  {
    hide Fair;
    match f
    case AllFilters(parts) => MetasHaveVerdict(m, parts); MetaJoins(m, f);
    case AnyFilters(parts) => MetasHaveVerdict(m, parts); MetaJoins(m, f);
    case NotFilter(inner) => MetaHasVerdict(m, inner);
    case _ => MetaLeaf(m, f);
  }

  /** Part by part. */
  ghost predicate MetasAgree(m: Matching, fs: seq<Filter>) {
    MetaAll(fs).Some? ==>
      && Verdicts(m.sem, fs).Some?
      && forall i :: 0 <= i < |fs| ==>
           && Verdicts(m.sem, fs).value[i].Bool?
           && (Matches(m, MetaAll(fs).value[i]) <==> Verdicts(m.sem, fs).value[i] == Bool(true))
  }

  lemma {:induction false} MetasHaveVerdict(m: Matching, fs: seq<Filter>)
    requires Fair(m) && AllPlain(m, fs)
    ensures MetasAgree(m, fs)
    decreases fs
  {
    hide Fair;
    hide Plain;
    hide Matches;
    hide Verdict;
    hide MetaOf;
    if fs != [] {
      MetasHaveVerdict(m, fs[..|fs| - 1]);
      MetaHasVerdict(m, fs[|fs| - 1]);
    }
  }

  lemma MetaJoins(m: Matching, f: Filter)
    requires (f.AllFilters? || f.AnyFilters?) && MetasAgree(m, f.parts)
    ensures MetaAgrees(m, f)
  {
    hide AllOf;
    hide AnyOf;
    hide Eval;
    hide Lower;
    if MetaOf(f).Some? {
      var vs := Verdicts(m.sem, f.parts).value;
      VerdictsAreTruthValues(m.sem, f.parts);
      AllOfTrue(vs);
      assert MetaOf(f).value.parts == MetaAll(f.parts).value;
    }
  }

  // ── Scan filters ──────────────────────────────────────────────────────────

  /** The list a filter adds passes exactly when the filter is true. */
  ghost predicate ScansAgree(m: Matching, f: Filter) {
    ScansOf(f).Some? && Verdict(m.sem, f).Some? ==>
      (AllPass(m, ScansOf(f).value) <==> Verdict(m.sem, f) == Some(Bool(true)))
  }

  lemma OnePasses(m: Matching, s: ScanFilter)
    ensures AllPass(m, [s]) <==> Passes(m, s)
  {
    assert [s][0] == s;
  }

  lemma {:induction false} ScanLeaf(m: Matching, f: Filter)
    requires Fair(m) && Plain(m, f) && (f.Comparison? || f.InValues? || f.IsMissing? || f.IsPresent?)
    ensures ScansAgree(m, f)
  {
    hide Fair;
    hide Relation;
    hide InMeaning;
    if ScansOf(f).Some? && Verdict(m.sem, f).Some? {
      OnePasses(m, ScansOf(f).value[0]);
      FieldIsColumn(m, f.field);
      FairNull(m, m.sem.column(f.field));
      match f
      case Comparison(field, op, value) => MetaCompares(m, field, op, value.value);
      case InValues(field, values) =>
        ValuesNotNull(values);
        InIsAny(m.sem, m.sem.column(field), Values(values).value);
        FairIn(m, m.sem.column(field), Values(values).value);
      case IsMissing(_) =>
      case IsPresent(_) =>
    }
  }

  lemma ScanWithin(m: Matching, f: Filter)
    requires Fair(m) && Plain(m, f) && f.Within?
    ensures ScansAgree(m, f)
  {
    hide Fair;
    hide Relation;
    hide BetweenMeaning;
    if ScansOf(f).Some? {
      var (lo, hi) := (f.low.value, f.high.value);
      WithinIsBoth(m, f.field, lo, hi);
      MetaCompares(m, f.field, CGe, lo);
      MetaCompares(m, f.field, CLe, hi);
      var a, b := Simple(f.field, FGte, lo), Simple(f.field, FLte, hi);
      assert [a, b] == [a] + [b];
      PassJoins(m, [a], [b]);
      OnePasses(m, a);
      OnePasses(m, b);
      hide AllPass;
    }
  }

  lemma ScanExpr(m: Matching, f: Filter)
    requires Regular(m.sem) && Fair(m) && (f.NotFilter? || f.ExprFilter?)
    ensures ScansAgree(m, f)
  {
    hide Fair;
    hide Regular;
    hide Verdict;
    hide ExprOf;
    if ScansOf(f).Some? && Verdict(m.sem, f).Some? {
      ExprHolds(m, f);
      OnePasses(m, ScansOf(f).value[0]);
      hide Holds;
    }
  }

  lemma {:induction false} ScanHasVerdict(m: Matching, f: Filter)
    requires Regular(m.sem) && Fair(m) && Plain(m, f)
    ensures ScansAgree(m, f)
    decreases f
  {
    hide Fair;
    hide Regular;
    hide ScansAgree;
    match f
    case AllFilters(parts) => ScansHaveVerdict(m, parts); ScansJoin(m, f);
    case AnyFilters(parts) => GroupsHaveVerdict(m, parts); GroupsJoin(m, f);
    case NotFilter(_) => ScanExpr(m, f);
    case ExprFilter(_) => ScanExpr(m, f);
    case Within(_, _, _) => ScanWithin(m, f);
    case _ => ScanLeaf(m, f);
  }

  ghost predicate ListAgrees(m: Matching, fs: seq<Filter>) {
    ScansAll(fs).Some? && Verdicts(m.sem, fs).Some? ==>
      (AllPass(m, ScansAll(fs).value) <==> AllTrue(Verdicts(m.sem, fs).value))
  }

  lemma PassJoins(m: Matching, a: seq<ScanFilter>, b: seq<ScanFilter>)
    ensures AllPass(m, a + b) <==> AllPass(m, a) && AllPass(m, b)
  {
    hide Passes;
    if AllPass(m, a + b) {
      forall i | 0 <= i < |a| ensures Passes(m, a[i]) { assert (a + b)[i] == a[i]; }
      forall i | 0 <= i < |b| ensures Passes(m, b[i]) { assert (a + b)[|a| + i] == b[i]; }
    }
  }

  lemma {:induction false} ScansHaveVerdict(m: Matching, fs: seq<Filter>)
    requires Regular(m.sem) && Fair(m) && AllPlain(m, fs)
    ensures ListAgrees(m, fs)
    decreases fs
  {
    hide Fair;
    hide Regular;
    hide Plain;
    hide AllPass;
    hide Verdict;
    hide ScansOf;
    if fs == [] {
      assert AllPass(m, []) by { NonePass(m); }
    } else {
      var init, last := fs[..|fs| - 1], fs[|fs| - 1];
      ScansHaveVerdict(m, init);
      ScanHasVerdict(m, last);
      if Verdicts(m.sem, fs).Some? { VerdictsGrow(m.sem, fs); }
      hide AllTrue;
      if ScansAll(fs).Some? { PassJoins(m, ScansAll(init).value, ScansOf(last).value); }
    }
  }

  lemma NonePass(m: Matching)
    ensures AllPass(m, [])
  {
  }

  lemma ScansJoin(m: Matching, f: Filter)
    requires f.AllFilters? && ListAgrees(m, f.parts)
    ensures ScansAgree(m, f)
  {
    hide AllPass;
    if ScansOf(f).Some? && Verdict(m.sem, f).Some? {
      VerdictsAreTruthValues(m.sem, f.parts);
      AllOfTrue(Verdicts(m.sem, f.parts).value);
      hide AllOf;
    }
  }

  ghost predicate GroupsAgree(m: Matching, fs: seq<Filter>) {
    Groups(fs).Some? && Verdicts(m.sem, fs).Some? ==>
      forall i :: 0 <= i < |fs| ==> (AllPass(m, Groups(fs).value[i].filters) <==> Verdicts(m.sem, fs).value[i] == Bool(true))
  }

  lemma {:induction false} GroupsHaveVerdict(m: Matching, fs: seq<Filter>)
    requires Regular(m.sem) && Fair(m) && AllPlain(m, fs)
    ensures GroupsAgree(m, fs)
    decreases fs
  {
    hide Fair;
    hide Regular;
    hide Plain;
    hide AllPass;
    hide Verdict;
    hide ScansOf;
    if fs != [] {
      GroupsHaveVerdict(m, fs[..|fs| - 1]);
      ScanHasVerdict(m, fs[|fs| - 1]);
      if Verdicts(m.sem, fs).Some? { VerdictsGrow(m.sem, fs); }
    }
  }

  lemma GroupsJoin(m: Matching, f: Filter)
    requires f.AnyFilters? && GroupsAgree(m, f.parts)
    ensures ScansAgree(m, f)
  {
    if ScansOf(f).Some? && Verdict(m.sem, f).Some? {
      var s := ScansOf(f).value[0];
      OnePasses(m, s);
      VerdictsAreTruthValues(m.sem, f.parts);
      AllOfTrue(Verdicts(m.sem, f.parts).value);
      hide AnyOf;
      hide AllPass;
      assert s.clauses == Groups(f.parts).value;
    }
  }

  // ── Payload atoms ─────────────────────────────────────────────────────────

  ghost predicate AtomPlain(m: Matching, atom: PayloadAtom) {
    && Present(m, atom.field)
    && match atom
       case AtomEq(_, value) => NotNull(value)
       case AtomIn(_, values) => forall i :: 0 <= i < |values| ==> NotNull(values[i])
       case AtomRange(_, low, _, high, _) => (low.Some? ==> NotNull(low.value)) && (high.Some? ==> NotNull(high.value))
  }

  ghost predicate BoundHolds(sem: Semantics, v: Value, op: SqlOp, bound: Option<SqlValue>) {
    bound.Some? && bound.value.Some? ==> Relation(sem, op, v, bound.value.value) == Some(Bool(true))
  }

  /** What a payload condition says of a row. */
  ghost predicate AtomHolds(sem: Semantics, atom: PayloadAtom) {
    match atom
    case AtomEq(field, value) => value.Some? && Relation(sem, SqlOp.Eq, sem.column(field), value.value) == Some(Bool(true))
    case AtomIn(field, values) => Values(values).Some? && InMeaning(sem, sem.column(field), Values(values).value, false) == Some(Bool(true))
    case AtomRange(field, low, lowInclusive, high, highInclusive) =>
      && BoundHolds(sem, sem.column(field), if lowInclusive then Ge else Gt, low)
      && BoundHolds(sem, sem.column(field), if highInclusive then Le else Lt, high)
  }

  lemma AtomMatches(m: Matching, atom: PayloadAtom)
    requires Fair(m) && AtomPlain(m, atom) && AtomOf(atom).Some?
    ensures Matches(m, AtomOf(atom).value) <==> AtomHolds(m.sem, atom)
  {
    hide Fair;
    hide Relation;
    hide InMeaning;
    match atom
    case AtomEq(field, value) => MetaCompares(m, field, CEq, value.value);
    case AtomIn(field, values) =>
      ValuesNotNull(values);
      FieldIsColumn(m, field);
      InIsAny(m.sem, m.sem.column(field), Values(values).value);
      FairIn(m, m.sem.column(field), Values(values).value);
    case AtomRange(_, _, _, _, _) => RangeMatches(m, atom);
  }

  lemma BoundMatches(m: Matching, field: string, op: CompareOp, bound: Option<SqlValue>, parts: seq<MetaFilter>)
    requires Fair(m) && Present(m, field) && (bound.Some? ==> bound.value.Some? && NotNull(bound.value))
    requires parts == match bound case None => [] case Some(v) => [MetaCompare(field, op, v.value)]
    ensures (forall i :: 0 <= i < |parts| ==> Matches(m, parts[i])) <==> BoundHolds(m.sem, m.sem.column(field), SqlCompare(op), bound)
  {
    hide Fair;
    hide Relation;
    if bound.Some? {
      MetaCompares(m, field, op, bound.value.value);
      hide Matches;
      assert parts[0] == MetaCompare(field, op, bound.value.value);
    }
  }

  lemma RangeMatches(m: Matching, atom: PayloadAtom)
    requires Fair(m) && AtomPlain(m, atom) && AtomOf(atom).Some? && atom.AtomRange?
    ensures Matches(m, AtomOf(atom).value) <==> AtomHolds(m.sem, atom)
  {
    hide Fair;
    hide Relation;
    var a, b := LowPart(atom.field, atom.low, atom.lowInclusive).value, HighPart(atom.field, atom.high, atom.highInclusive).value;
    BoundMatches(m, atom.field, if atom.lowInclusive then CGe else CGt, atom.low, a);
    BoundMatches(m, atom.field, if atom.highInclusive then CLe else CLt, atom.high, b);
    MetasSplit(m, a, b);
    JoinMatches(m, a + b);
    hide Matches;
    hide BoundHolds;
    assert AtomOf(atom) == JoinMetas(a + b);
  }

  // ── The whole list ────────────────────────────────────────────────────────

  lemma {:induction false} MetaIsExpr(f: Filter)
    requires MetaOf(f).Some?
    ensures ExprOf(f).Some?
    decreases f
  {
    match f
    case AllFilters(parts) => MetasAreExprs(parts);
    case AnyFilters(parts) => MetasAreExprs(parts);
    case NotFilter(inner) => MetaIsExpr(inner);
    case _ =>
  }

  lemma {:induction false} MetasAreExprs(fs: seq<Filter>)
    requires MetaAll(fs).Some?
    ensures ExprAll(fs).Some?
    decreases fs
  {
    if fs != [] {
      MetasAreExprs(fs[..|fs| - 1]);
      MetaIsExpr(fs[|fs| - 1]);
    }
  }

  lemma {:induction false} ScanIffExpr(f: Filter)
    ensures ScansOf(f).Some? <==> ExprOf(f).Some?
    decreases f
  {
    match f
    case AllFilters(parts) => ScansIffExprs(parts);
    case AnyFilters(parts) => ScansIffExprs(parts);
    case _ =>
  }

  lemma {:induction false} ScansIffExprs(fs: seq<Filter>)
    ensures ScansAll(fs).Some? <==> ExprAll(fs).Some?
    ensures Groups(fs).Some? <==> ExprAll(fs).Some?
    decreases fs
  {
    if fs != [] {
      ScansIffExprs(fs[..|fs| - 1]);
      ScanIffExpr(fs[|fs| - 1]);
    }
  }

  lemma {:induction false} GatherIffExprs(fs: seq<Filter>)
    ensures Gather(fs).Some? <==> ExprAll(fs).Some?
    decreases |fs|
  {
    hide MetaOf;
    hide ExprOf;
    if fs != [] {
      GatherIffExprs(fs[..|fs| - 1]);
      if MetaOf(fs[|fs| - 1]).Some? { MetaIsExpr(fs[|fs| - 1]); }
    }
  }

  /** What was gathered holds exactly when every filter is true. */
  ghost predicate GatheredHolds(m: Matching, g: Gathered) {
    && (forall i :: 0 <= i < |g.metas| ==> Matches(m, g.metas[i]))
    && (forall i :: 0 <= i < |g.exprs| ==> Holds(m, g.exprs[i]))
  }

  lemma GatheredGrows(m: Matching, g: Gathered, mf: MetaFilter, q: QueryExpr)
    ensures GatheredHolds(m, g.(metas := g.metas + [mf])) <==> GatheredHolds(m, g) && Matches(m, mf)
    ensures GatheredHolds(m, g.(exprs := g.exprs + [q])) <==> GatheredHolds(m, g) && Holds(m, q)
  {
    hide Matches;
    hide Holds;
    var more, longer := g.metas + [mf], g.exprs + [q];
    assert more[|g.metas|] == mf && longer[|g.exprs|] == q;
    assert forall i :: 0 <= i < |g.metas| ==> more[i] == g.metas[i];
    assert forall i :: 0 <= i < |g.exprs| ==> longer[i] == g.exprs[i];
  }

  lemma ExprHolds(m: Matching, f: Filter)
    requires Regular(m.sem) && Fair(m) && ExprOf(f).Some? && Verdict(m.sem, f).Some?
    ensures Holds(m, ExprOf(f).value) <==> Verdict(m.sem, f) == Some(Bool(true))
  {
    hide Fair;
    hide Regular;
    hide Verdict;
    hide ExprOf;
    hide Eval;
    ExprHasVerdict(m.sem, f);
    VerdictIsTruthValue(m.sem, f);
    FairTruthy(m, Verdict(m.sem, f).value);
  }

  lemma {:induction false} GatherHasVerdict(m: Matching, fs: seq<Filter>)
    requires Regular(m.sem) && Fair(m) && AllPlain(m, fs) && Gather(fs).Some? && Verdicts(m.sem, fs).Some?
    ensures GatheredHolds(m, Gather(fs).value) <==> AllTrue(Verdicts(m.sem, fs).value)
    decreases |fs|
  {
    hide Fair;
    hide Regular;
    hide Plain;
    hide Matches;
    hide Holds;
    hide Verdict;
    hide MetaOf;
    hide ExprOf;
    if fs != [] {
      var init, last := fs[..|fs| - 1], fs[|fs| - 1];
      VerdictsGrow(m.sem, fs);
      hide AllTrue;
      GatherHasVerdict(m, init);
      var g := Gather(init).value;
      match MetaOf(last) {
        case Some(mf) =>
          MetaHasVerdict(m, last);
          GatheredGrows(m, g, mf, QLiteral(Null));
        case None =>
          ExprHolds(m, last);
          GatheredGrows(m, g, MEq("", Null), ExprOf(last).value);
      }
      hide GatheredHolds;
    }
  }

  lemma {:induction false} AtomsMatch(m: Matching, atoms: seq<PayloadAtom>)
    requires Fair(m) && (forall i :: 0 <= i < |atoms| ==> AtomPlain(m, atoms[i])) && Atoms(atoms).Some?
    ensures (forall i :: 0 <= i < |Atoms(atoms).value| ==> Matches(m, Atoms(atoms).value[i]))
       <==> forall i :: 0 <= i < |atoms| ==> AtomHolds(m.sem, atoms[i])
    decreases |atoms|
  {
    hide Fair;
    hide AtomPlain;
    hide AtomHolds;
    hide Matches;
    hide AtomOf;
    if atoms != [] {
      var init, last := atoms[..|atoms| - 1], atoms[|atoms| - 1];
      AtomsMatch(m, init);
      AtomMatches(m, last);
      var ms := Atoms(atoms).value;
      assert ms[|ms| - 1] == AtomOf(last).value;
      assert forall i :: 0 <= i < |init| ==> atoms[i] == init[i];
      assert forall i :: 0 <= i < |ms| - 1 ==> ms[i] == Atoms(init).value[i];
    }
  }

  lemma JoinMatches(m: Matching, metas: seq<MetaFilter>)
    ensures (JoinMetas(metas).Some? ==> Matches(m, JoinMetas(metas).value)) <==> forall i :: 0 <= i < |metas| ==> Matches(m, metas[i])
  {
  }

  /** The metadata filter and expressions accept a row exactly when every filter
      is true of it and every payload condition holds. */
  lemma LiteHasVerdict(m: Matching, fs: seq<Filter>, atoms: seq<PayloadAtom>)
    requires Regular(m.sem) && Fair(m) && AllPlain(m, fs) && Verdicts(m.sem, fs).Some?
    requires (forall i :: 0 <= i < |atoms| ==> AtomPlain(m, atoms[i])) && LiteOf(fs, atoms).Some?
    ensures LiteAccepts(m, LiteOf(fs, atoms).value)
       <==> AllTrue(Verdicts(m.sem, fs).value) && forall i :: 0 <= i < |atoms| ==> AtomHolds(m.sem, atoms[i])
  {
    GatherHasVerdict(m, fs);
    AtomsMatch(m, atoms);
    var g, ms := Gather(fs).value, Atoms(atoms).value;
    JoinMatches(m, g.metas + ms);
    hide *;
    MetasSplit(m, g.metas, ms);
    LiteSplits(m, fs, atoms);
  }

  lemma MetasSplit(m: Matching, a: seq<MetaFilter>, b: seq<MetaFilter>)
    ensures (forall i :: 0 <= i < |a + b| ==> Matches(m, (a + b)[i]))
       <==> (forall i :: 0 <= i < |a| ==> Matches(m, a[i])) && forall i :: 0 <= i < |b| ==> Matches(m, b[i])
  {
    hide Matches;
    forall i | 0 <= i < |b| ensures (a + b)[|a| + i] == b[i] { }
    assert forall i :: 0 <= i < |a| ==> (a + b)[i] == a[i];
  }

  lemma LiteSplits(m: Matching, fs: seq<Filter>, atoms: seq<PayloadAtom>)
    requires Gather(fs).Some? && Atoms(atoms).Some?
    ensures var g, ms := Gather(fs).value, Atoms(atoms).value;
      && LiteOf(fs, atoms) == Some(LiteFilter(JoinMetas(g.metas + ms), g.exprs))
      && (LiteAccepts(m, LiteOf(fs, atoms).value) <==>
            (JoinMetas(g.metas + ms).Some? ==> Matches(m, JoinMetas(g.metas + ms).value))
            && (forall i :: 0 <= i < |g.exprs| ==> Holds(m, g.exprs[i])))
      && (GatheredHolds(m, g) <==>
            (forall i :: 0 <= i < |g.metas| ==> Matches(m, g.metas[i])) && forall i :: 0 <= i < |g.exprs| ==> Holds(m, g.exprs[i]))
  {
    hide Matches;
    hide Holds;
    hide Gather;
    hide Atoms;
    hide JoinMetas;
  }

  /** For every list of filters the three forms exist together, and on rows where
      each named field is there and not NULL they accept the same: the metadata
      filter with its expressions, one conjoined expression, and the scan list. */
  lemma FormsAcceptTheSame(m: Matching, fs: seq<Filter>)
    requires Regular(m.sem) && Fair(m) && AllPlain(m, fs) && Verdicts(m.sem, fs).Some?
    ensures LiteOf(fs, []).Some? <==> ScansAll(fs).Some?
    ensures LiteOf(fs, []).Some? <==> ExprOf(AllFilters(fs)).Some?
    ensures LiteOf(fs, []).Some? ==>
      && (LiteAccepts(m, LiteOf(fs, []).value) <==> AllPass(m, ScansAll(fs).value))
      && (LiteAccepts(m, LiteOf(fs, []).value) <==> Holds(m, ExprOf(AllFilters(fs)).value))
  {
    ScansIffExprs(fs);
    GatherIffExprs(fs);
    assert LiteOf(fs, []).Some? <==> Gather(fs).Some?;
    assert ExprOf(AllFilters(fs)).Some? <==> ExprAll(fs).Some?;
    if ExprAll(fs).Some? {
      LiteHasVerdict(m, fs, []);
      ScansHaveVerdict(m, fs);
      VerdictsAreTruthValues(m.sem, fs);
      AllOfTrue(Verdicts(m.sem, fs).value);
      assert Verdict(m.sem, AllFilters(fs)) == Some(AllOf(Verdicts(m.sem, fs).value));
      ExprHolds(m, AllFilters(fs));
    }
  }

  // ── What SQL means by a filter ────────────────────────────────────────────

  /** The truth value SQL gives a filter; none where a literal or an expression
      has none. */
  ghost function Truth(sem: Semantics, f: Filter): Option<Value>
    decreases f
  {
    match f
    case AllFilters(parts) => (match Truths(sem, parts) case Some(vs) => Some(AllOf(vs)) case None => None)
    case AnyFilters(parts) => (match Truths(sem, parts) case Some(vs) => Some(AnyOf(vs)) case None => None)
    case NotFilter(inner) => (match Truth(sem, inner) case Some(v) => Negation(v) case None => None)
    case ExprFilter(expr) => (match Meaning(sem, expr) case Some(v) => if IsTruth(v) then Some(v) else None case None => None)
    case _ => Verdict(sem, f)
  }

  ghost function Truths(sem: Semantics, fs: seq<Filter>): (vs: Option<seq<Value>>)
    ensures vs.Some? ==> |vs.value| == |fs|
    decreases fs
  {
    if fs == [] then Some([])
    else
      match (Truths(sem, fs[..|fs| - 1]), Truth(sem, fs[|fs| - 1]))
      case (Some(vs), Some(v)) => Some(vs + [v])
      case _ => None
  }

  /** Every expression in the filter compares where it must. */
  ghost predicate FilterOrderable(sem: Semantics, f: Filter)
    decreases f
  {
    match f
    case AllFilters(parts) => forall p :: p in parts ==> FilterOrderable(sem, p)
    case AnyFilters(parts) => forall p :: p in parts ==> FilterOrderable(sem, p)
    case NotFilter(inner) => FilterOrderable(sem, inner)
    case ExprFilter(expr) => Orderable(sem, expr)
    case _ => true
  }

  ghost predicate AllOrdered(sem: Semantics, fs: seq<Filter>) {
    forall f :: f in fs ==> FilterOrderable(sem, f)
  }

  /** Lowering keeps what a filter means. */
  lemma {:induction false} VerdictIsTruth(sem: Semantics, f: Filter)
    requires Regular(sem) && FilterOrderable(sem, f) && ExprOf(f).Some? && Truth(sem, f).Some?
    ensures Verdict(sem, f) == Truth(sem, f)
    decreases f
  {
    hide AllOf;
    hide AnyOf;
    match f
    case AllFilters(parts) => VerdictsAreTruths(sem, parts);
    case AnyFilters(parts) => VerdictsAreTruths(sem, parts);
    case NotFilter(inner) => VerdictIsTruth(sem, inner);
    case ExprFilter(expr) => LoweringKeepsMeaning(sem, expr);
    case _ =>
  }

  lemma {:induction false} VerdictsAreTruths(sem: Semantics, fs: seq<Filter>)
    requires Regular(sem) && AllOrdered(sem, fs) && ExprAll(fs).Some? && Truths(sem, fs).Some?
    ensures Verdicts(sem, fs) == Truths(sem, fs)
    decreases fs
  {
    hide Truth;
    hide Verdict;
    hide ExprOf;
    hide FilterOrderable;
    if fs != [] {
      assert forall f :: f in fs[..|fs| - 1] ==> f in fs;
      assert fs[|fs| - 1] in fs;
      VerdictsAreTruths(sem, fs[..|fs| - 1]);
      VerdictIsTruth(sem, fs[|fs| - 1]);
    }
  }

  /** On every row, NULL fields included, the one expression has the truth value
      SQL gives the filter. */
  lemma ExprHasTruth(sem: Semantics, f: Filter)
    requires Regular(sem) && FilterOrderable(sem, f) && ExprOf(f).Some? && Truth(sem, f).Some?
    ensures Eval(sem, ExprOf(f).value) == Truth(sem, f)
  {
    hide *;
    VerdictIsTruth(sem, f);
    ExprHasVerdict(sem, f);
  }

  lemma {:induction false} MetaTruth(sem: Semantics, f: Filter)
    requires MetaOf(f).Some?
    ensures Verdict(sem, f) == Truth(sem, f)
    decreases f
  {
    hide AllOf;
    hide AnyOf;
    match f
    case AllFilters(parts) => MetaTruths(sem, parts);
    case AnyFilters(parts) => MetaTruths(sem, parts);
    case NotFilter(inner) => MetaTruth(sem, inner);
    case _ =>
  }

  lemma {:induction false} MetaTruths(sem: Semantics, fs: seq<Filter>)
    requires MetaAll(fs).Some?
    ensures Verdicts(sem, fs) == Truths(sem, fs)
    decreases fs
  {
    hide Truth;
    hide Verdict;
    hide MetaOf;
    if fs != [] {
      MetaTruths(sem, fs[..|fs| - 1]);
      MetaTruth(sem, fs[|fs| - 1]);
    }
  }

  /** A primitive condition matches such a row exactly when the filter is true. */
  lemma MetaHasTruth(m: Matching, f: Filter)
    requires Fair(m) && Plain(m, f) && MetaOf(f).Some?
    ensures Truth(m.sem, f).Some? && (Matches(m, MetaOf(f).value) <==> Truth(m.sem, f) == Some(Bool(true)))
  {
    hide Fair;
    hide Plain;
    hide Matches;
    hide Truth;
    hide Verdict;
    MetaHasVerdict(m, f);
    MetaTruth(m.sem, f);
  }

  /** The scan list passes such a row exactly when the filter is true. */
  lemma ScanHasTruth(m: Matching, f: Filter)
    requires Regular(m.sem) && FilterOrderable(m.sem, f) && Fair(m) && Plain(m, f) && ScansOf(f).Some? && Truth(m.sem, f).Some?
    ensures AllPass(m, ScansOf(f).value) <==> Truth(m.sem, f) == Some(Bool(true))
  {
    hide Fair;
    hide Plain;
    hide Regular;
    hide Truth;
    hide Verdict;
    hide AllPass;
    hide ScansOf;
    hide ExprOf;
    hide FilterOrderable;
    ScanIffExpr(f);
    VerdictIsTruth(m.sem, f);
    ScanHasVerdict(m, f);
  }

  /** The metadata filter and expressions accept such a row exactly when every
      filter is true of it and every payload condition holds. */
  lemma LiteHasTruth(m: Matching, fs: seq<Filter>, atoms: seq<PayloadAtom>)
    requires Regular(m.sem) && AllOrdered(m.sem, fs) && Fair(m) && AllPlain(m, fs) && Truths(m.sem, fs).Some?
    requires (forall i :: 0 <= i < |atoms| ==> AtomPlain(m, atoms[i])) && LiteOf(fs, atoms).Some?
    ensures LiteAccepts(m, LiteOf(fs, atoms).value)
       <==> AllTrue(Truths(m.sem, fs).value) && forall i :: 0 <= i < |atoms| ==> AtomHolds(m.sem, atoms[i])
  {
    assert Gather(fs).Some?;
    hide *;
    GatherIffExprs(fs);
    VerdictsAreTruths(m.sem, fs);
    LiteHasVerdict(m, fs, atoms);
  }

  // ── What lowers ───────────────────────────────────────────────────────────

  ghost predicate AllValued(lits: seq<SqlValue>) {
    forall i :: 0 <= i < |lits| ==> lits[i].Some?
  }

  /** Every literal in the filter has a value. */
  ghost predicate Valued(f: Filter) {
    match f
    case Comparison(_, _, value) => value.Some?
    case InValues(_, values) => AllValued(values)
    case Within(_, low, high) => low.Some? && high.Some?
    case AllFilters(parts) => forall p :: p in parts ==> Valued(p)
    case AnyFilters(parts) => forall p :: p in parts ==> Valued(p)
    case NotFilter(inner) => Valued(inner)
    case _ => true
  }

  /** The expressions in the filter. */
  ghost predicate Holding(f: Filter, e: SqlExpr) {
    match f
    case ExprFilter(expr) => e == expr
    case AllFilters(parts) => exists p :: p in parts && Holding(p, e)
    case AnyFilters(parts) => exists p :: p in parts && Holding(p, e)
    case NotFilter(inner) => Holding(inner, e)
    case _ => false
  }

  lemma {:induction false} AllExist(fs: seq<Filter>)
    ensures ExprAll(fs).Some? <==> forall i :: 0 <= i < |fs| ==> ExprOf(fs[i]).Some?
    ensures MetaAll(fs).Some? <==> forall i :: 0 <= i < |fs| ==> MetaOf(fs[i]).Some?
    decreases |fs|
  {
    hide ExprOf;
    hide MetaOf;
    if fs != [] {
      AllExist(fs[..|fs| - 1]);
    }
  }

  /** Its literals have values and its expressions lower. */
  ghost predicate Lowerable(f: Filter) {
    Valued(f) && forall e :: Holding(f, e) ==> Writable(e)
  }

  /** Its literals have values and there is no expression in it. */
  ghost predicate Primitive(f: Filter) {
    Valued(f) && forall e :: !Holding(f, e)
  }

  lemma PartsLowerable(f: Filter, parts: seq<Filter>)
    requires f == AllFilters(parts) || f == AnyFilters(parts)
    ensures Lowerable(f) <==> forall i :: 0 <= i < |parts| ==> Lowerable(parts[i])
    ensures Primitive(f) <==> forall i :: 0 <= i < |parts| ==> Primitive(parts[i])
  {
    hide Writable;
    forall i | 0 <= i < |parts| ensures Lowerable(f) ==> Lowerable(parts[i]) ensures Primitive(f) ==> Primitive(parts[i]) {
      assert parts[i] in parts;
      forall e | Holding(parts[i], e) ensures Holding(f, e) { }
    }
    forall e | Holding(f, e) ensures exists i :: 0 <= i < |parts| && Holding(parts[i], e) {
      var p :| p in parts && Holding(p, e);
      var i :| 0 <= i < |parts| && parts[i] == p;
    }
    if forall i :: 0 <= i < |parts| ==> Lowerable(parts[i]) {
      forall e | Holding(f, e) ensures Writable(e) {
        var i :| 0 <= i < |parts| && Holding(parts[i], e);
        assert Lowerable(parts[i]);
      }
    }
    if forall i :: 0 <= i < |parts| ==> Primitive(parts[i]) {
      forall e ensures !Holding(f, e) {
        if i :| 0 <= i < |parts| && Holding(parts[i], e) { assert Primitive(parts[i]); }
      }
    }
  }

  lemma SimpleExists(f: Filter)
    requires !f.AllFilters? && !f.AnyFilters? && !f.NotFilter?
    ensures ExprOf(f).Some? <==> Lowerable(f)
    ensures MetaOf(f).Some? <==> Primitive(f)
  {
    hide Writable;
    hide Lower;
    if f.ExprFilter? {
      LowersIffWritable(f.expr);
      assert Holding(f, f.expr);
    }
  }

  lemma NotExists(f: Filter)
    requires f.NotFilter?
    ensures ExprOf(f).Some? <==> ExprOf(f.inner).Some?
    ensures MetaOf(f).Some? <==> MetaOf(f.inner).Some?
    ensures Lowerable(f) <==> Lowerable(f.inner)
    ensures Primitive(f) <==> Primitive(f.inner)
  {
    hide Writable;
    forall e ensures Holding(f, e) <==> Holding(f.inner, e) { }
  }

  lemma ListExists(f: Filter, parts: seq<Filter>)
    requires f == AllFilters(parts) || f == AnyFilters(parts)
    ensures ExprOf(f).Some? <==> ExprAll(parts).Some?
    ensures MetaOf(f).Some? <==> MetaAll(parts).Some?
  {
  }

  /** A filter is an expression exactly when its literals have values and its
      expressions lower, and a primitive condition exactly when its literals have
      values and there is no expression in it. */
  lemma {:induction false} FormsExistIff(f: Filter)
    ensures ExprOf(f).Some? <==> Lowerable(f)
    ensures MetaOf(f).Some? <==> Primitive(f)
    decreases f
  {
    hide Lowerable;
    hide Primitive;
    hide ExprOf;
    hide MetaOf;
    if f.AllFilters? || f.AnyFilters? {
      ListExists(f, f.parts);
      AllExist(f.parts);
      hide ExprAll;
      hide MetaAll;
      forall i | 0 <= i < |f.parts|
        ensures ExprOf(f.parts[i]).Some? <==> Lowerable(f.parts[i])
        ensures MetaOf(f.parts[i]).Some? <==> Primitive(f.parts[i])
      {
        FormsExistIff(f.parts[i]);
      }
      PartsLowerable(f, f.parts);
    } else if f.NotFilter? {
      NotExists(f);
      FormsExistIff(f.inner);
    } else {
      SimpleExists(f);
    }
  }

  /** A payload condition exists exactly when its literals have values and, for a
      range, some bound is given. */
  lemma AtomExistsIff(atom: PayloadAtom)
    ensures AtomOf(atom).Some? <==>
      match atom
      case AtomEq(_, value) => value.Some?
      case AtomIn(_, values) => AllValued(values)
      case AtomRange(_, low, _, high, _) => (low.Some? || high.Some?) && low != Some(None) && high != Some(None)
  {
  }

  lemma {:induction false} GatherExists(fs: seq<Filter>)
    ensures Gather(fs).Some? <==> forall i :: 0 <= i < |fs| ==> MetaOf(fs[i]).Some? || ExprOf(fs[i]).Some?
    decreases |fs|
  {
    hide MetaOf;
    hide ExprOf;
    if fs != [] {
      GatherExists(fs[..|fs| - 1]);
    }
  }

  lemma {:induction false} AtomsExist(atoms: seq<PayloadAtom>)
    ensures Atoms(atoms).Some? <==> forall i :: 0 <= i < |atoms| ==> AtomOf(atoms[i]).Some?
    decreases |atoms|
  {
    hide AtomOf;
    if atoms != [] {
      AtomsExist(atoms[..|atoms| - 1]);
    }
  }

  /** A list of filters and payload conditions lowers exactly when every literal
      has a value, every expression lowers and every condition exists. */
  lemma LiteExistsIff(fs: seq<Filter>, atoms: seq<PayloadAtom>)
    ensures LiteOf(fs, atoms).Some?
       <==> (forall i :: 0 <= i < |fs| ==> Lowerable(fs[i])) && (forall i :: 0 <= i < |atoms| ==> AtomOf(atoms[i]).Some?)
  {
    hide MetaOf;
    hide ExprOf;
    hide AtomOf;
    hide Lowerable;
    hide Primitive;
    GatherExists(fs);
    AtomsExist(atoms);
    hide Gather;
    hide Atoms;
    forall i | 0 <= i < |fs| ensures MetaOf(fs[i]).Some? || ExprOf(fs[i]).Some? <==> Lowerable(fs[i]) {
      FormsExistIff(fs[i]);
      PrimitiveIsLowerable(fs[i]);
    }
  }

  lemma PrimitiveIsLowerable(f: Filter)
    ensures Primitive(f) ==> Lowerable(f)
  {
    hide Writable;
  }
}
