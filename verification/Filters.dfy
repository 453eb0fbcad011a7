/** Lowering WHERE filters: to metadata filters plus expressions, to one
    expression, and to the flat list a scan carries. */
module Filters {
  import opened Options
  import opened Document
  import opened Exprs

  datatype CompareOp = CEq | CNe | CGt | CGe | CLt | CLe

  /** A literal, or none when it has no value form. */
  type SqlValue = Option<Value>

  datatype Filter =
    | Comparison(field: string, op: CompareOp, value: SqlValue)
    | InValues(field: string, values: seq<SqlValue>)
    | Within(field: string, low: SqlValue, high: SqlValue)
    | IsMissing(field: string)
    | IsPresent(field: string)
    | AllFilters(parts: seq<Filter>)
    | AnyFilters(parts: seq<Filter>)
    | NotFilter(inner: Filter)
    | ExprFilter(expr: SqlExpr)

  datatype PayloadAtom =
    | AtomEq(field: string, value: SqlValue)
    | AtomIn(field: string, values: seq<SqlValue>)
    | AtomRange(field: string, low: Option<SqlValue>, lowInclusive: bool, high: Option<SqlValue>, highInclusive: bool)

  datatype MetaFilter =
    | MEq(field: string, value: Value)
    | MNe(field: string, value: Value)
    | MGt(field: string, value: Value)
    | MGte(field: string, value: Value)
    | MLt(field: string, value: Value)
    | MLte(field: string, value: Value)
    | MIn(field: string, values: seq<Value>)
    | MAnd(parts: seq<MetaFilter>)
    | MOr(parts: seq<MetaFilter>)
    | MNot(inner: MetaFilter)

  /** A condition to push down, and predicates to evaluate afterwards. */
  datatype LiteFilter = LiteFilter(meta: Option<MetaFilter>, exprs: seq<QueryExpr>)

  datatype FilterOp = FEq | FNe | FGt | FGte | FLt | FLte | FIn | FIsNull | FIsNotNull | FOr | FExpr

  datatype ScanFilter = ScanFilter(field: string, op: FilterOp, value: Value, clauses: seq<Clause>, expr: Option<QueryExpr>)

  /** One alternative of an OR: filters that must all pass. */
  datatype Clause = Clause(filters: seq<ScanFilter>)

  // ── Lowering ──────────────────────────────────────────────────────────────

  function Values(lits: seq<SqlValue>): (vs: Option<seq<Value>>)
    ensures vs.Some? <==> forall i :: 0 <= i < |lits| ==> lits[i].Some?
    ensures vs.Some? ==> |vs.value| == |lits| && forall i :: 0 <= i < |lits| ==> vs.value[i] == lits[i].value
  {
    if lits == [] then Some([])
    else
      match (Values(lits[..|lits| - 1]), lits[|lits| - 1])
      case (Some(vs), Some(v)) => Some(vs + [v])
      case _ => None
  }

  function MetaCompare(field: string, op: CompareOp, v: Value): MetaFilter {
    match op
    case CEq => MEq(field, v)
    case CNe => MNe(field, v)
    case CGt => MGt(field, v)
    case CGe => MGte(field, v)
    case CLt => MLt(field, v)
    case CLe => MLte(field, v)
  }

  /** The filter as a primitive condition; none when an expression or a literal
      with no value form lies anywhere inside. */
  function MetaOf(f: Filter): Option<MetaFilter>
    decreases f
  {
    match f
    case Comparison(field, op, value) =>
      (match value case Some(v) => Some(MetaCompare(field, op, v)) case None => None)
    case InValues(field, values) => (match Values(values) case Some(vs) => Some(MIn(field, vs)) case None => None)
    case Within(field, low, high) =>
      (match (low, high)
       case (Some(lo), Some(hi)) => Some(MAnd([MGte(field, lo), MLte(field, hi)]))
       case _ => None)
    case IsMissing(field) => Some(MEq(field, Null))
    case IsPresent(field) => Some(MNe(field, Null))
    case AllFilters(parts) => (match MetaAll(parts) case Some(ms) => Some(MAnd(ms)) case None => None)
    case AnyFilters(parts) => (match MetaAll(parts) case Some(ms) => Some(MOr(ms)) case None => None)
    case NotFilter(inner) => (match MetaOf(inner) case Some(m) => Some(MNot(m)) case None => None)
    case ExprFilter(_) => None
  }

  function MetaAll(fs: seq<Filter>): (ms: Option<seq<MetaFilter>>)
    ensures ms.Some? ==> |ms.value| == |fs|
    decreases fs
  {
    if fs == [] then Some([])
    else
      match (MetaAll(fs[..|fs| - 1]), MetaOf(fs[|fs| - 1]))
      case (Some(ms), Some(m)) => Some(ms + [m])
      case _ => None
  }

  function QueryCompare(op: CompareOp): QueryOp {
    match op case CEq => QEq case CNe => QNotEq case CGt => QGt case CGe => QGtEq case CLt => QLt case CLe => QLtEq
  }

  function Literals(vs: seq<Value>): (qs: seq<QueryExpr>)
    ensures |qs| == |vs| && forall i :: 0 <= i < |vs| ==> qs[i] == QLiteral(vs[i])
  {
    seq(|vs|, i requires 0 <= i < |vs| => QLiteral(vs[i]))
  }

  /** The filter as one expression. */
  function ExprOf(f: Filter): Option<QueryExpr>
    decreases f
  {
    match f
    case Comparison(field, op, value) =>
      (match value case Some(v) => Some(QBinary(QColumn(field), QueryCompare(op), QLiteral(v))) case None => None)
    case InValues(field, values) =>
      (match Values(values)
       case Some(vs) => Some(Chain(QOr, TestEach(QColumn(field), QEq, Literals(vs)), false))
       case None => None)
    case Within(field, low, high) =>
      (match (low, high)
       case (Some(lo), Some(hi)) =>
         Some(QBinary(QBinary(QColumn(field), QGtEq, QLiteral(lo)), QAnd, QBinary(QColumn(field), QLtEq, QLiteral(hi))))
       case _ => None)
    case IsMissing(field) => Some(QIsNull(QColumn(field), false))
    case IsPresent(field) => Some(QIsNull(QColumn(field), true))
    case AllFilters(parts) => (match ExprAll(parts) case Some(qs) => Some(Chain(QAnd, qs, true)) case None => None)
    case AnyFilters(parts) => (match ExprAll(parts) case Some(qs) => Some(Chain(QOr, qs, false)) case None => None)
    case NotFilter(inner) =>
      (match ExprOf(inner) case Some(q) => Some(QBinary(q, QEq, QLiteral(Bool(false)))) case None => None)
    case ExprFilter(expr) => Lower(expr)
  }

  function ExprAll(fs: seq<Filter>): (qs: Option<seq<QueryExpr>>)
    ensures qs.Some? ==> |qs.value| == |fs|
    decreases fs
  {
    if fs == [] then Some([])
    else
      match (ExprAll(fs[..|fs| - 1]), ExprOf(fs[|fs| - 1]))
      case (Some(qs), Some(q)) => Some(qs + [q])
      case _ => None
  }

  function Simple(field: string, op: FilterOp, value: Value): ScanFilter {
    ScanFilter(field, op, value, [], None)
  }

  function ScanCompare(op: CompareOp): FilterOp {
    match op case CEq => FEq case CNe => FNe case CGt => FGt case CGe => FGte case CLt => FLt case CLe => FLte
  }

  /** What the filter adds to a scan's list. */
  function ScansOf(f: Filter): Option<seq<ScanFilter>>
    decreases f
  {
    match f
    case Comparison(field, op, value) =>
      (match value case Some(v) => Some([Simple(field, ScanCompare(op), v)]) case None => None)
    case InValues(field, values) =>
      (match Values(values) case Some(vs) => Some([Simple(field, FIn, Array(vs))]) case None => None)
    case Within(field, low, high) =>
      (match (low, high)
       case (Some(lo), Some(hi)) => Some([Simple(field, FGte, lo), Simple(field, FLte, hi)])
       case _ => None)
    case IsMissing(field) => Some([Simple(field, FIsNull, Null)])
    case IsPresent(field) => Some([Simple(field, FIsNotNull, Null)])
    case AllFilters(parts) => ScansAll(parts)
    case AnyFilters(parts) =>
      (match Groups(parts) case Some(gs) => Some([ScanFilter("", FOr, Null, gs, None)]) case None => None)
    case NotFilter(_) => (match ExprOf(f) case Some(q) => Some([ScanFilter("", FExpr, Null, [], Some(q))]) case None => None)
    case ExprFilter(_) => (match ExprOf(f) case Some(q) => Some([ScanFilter("", FExpr, Null, [], Some(q))]) case None => None)
  }

  function ScansAll(fs: seq<Filter>): Option<seq<ScanFilter>>
    decreases fs
  {
    if fs == [] then Some([])
    else
      match (ScansAll(fs[..|fs| - 1]), ScansOf(fs[|fs| - 1]))
      case (Some(ss), Some(more)) => Some(ss + more)
      case _ => None
  }

  function Groups(fs: seq<Filter>): (gs: Option<seq<Clause>>)
    ensures gs.Some? ==> |gs.value| == |fs|
    decreases fs
  {
    if fs == [] then Some([])
    else
      match (Groups(fs[..|fs| - 1]), ScansOf(fs[|fs| - 1]))
      case (Some(gs), Some(group)) => Some(gs + [Clause(group)])
      case _ => None
  }

  function LowPart(field: string, low: Option<SqlValue>, inclusive: bool): Option<seq<MetaFilter>> {
    match low
    case None => Some([])
    case Some(None) => None
    case Some(Some(v)) => Some([if inclusive then MGte(field, v) else MGt(field, v)])
  }

  function HighPart(field: string, high: Option<SqlValue>, inclusive: bool): Option<seq<MetaFilter>> {
    match high
    case None => Some([])
    case Some(None) => None
    case Some(Some(v)) => Some([if inclusive then MLte(field, v) else MLt(field, v)])
  }

  /** A payload condition; none for a range without bounds. */
  function AtomOf(atom: PayloadAtom): Option<MetaFilter> {
    match atom
    case AtomEq(field, value) => (match value case Some(v) => Some(MEq(field, v)) case None => None)
    case AtomIn(field, values) => (match Values(values) case Some(vs) => Some(MIn(field, vs)) case None => None)
    case AtomRange(field, low, lowInclusive, high, highInclusive) =>
      match (LowPart(field, low, lowInclusive), HighPart(field, high, highInclusive))
      case (Some(a), Some(b)) =>
        var parts := a + b;
        if parts == [] then None else if |parts| == 1 then Some(parts[0]) else Some(MAnd(parts))
      case _ => None
  }

  /** Conditions and expressions gathered so far. */
  datatype Gathered = Gathered(metas: seq<MetaFilter>, exprs: seq<QueryExpr>)

  function Gather(fs: seq<Filter>): Option<Gathered> {
    if fs == [] then Some(Gathered([], []))
    else
      match Gather(fs[..|fs| - 1])
      case None => None
      case Some(g) =>
        var f := fs[|fs| - 1];
        match MetaOf(f)
        case Some(m) => Some(g.(metas := g.metas + [m]))
        case None => (match ExprOf(f) case Some(q) => Some(g.(exprs := g.exprs + [q])) case None => None)
  }

  function Atoms(atoms: seq<PayloadAtom>): Option<seq<MetaFilter>> {
    if atoms == [] then Some([])
    else
      match (Atoms(atoms[..|atoms| - 1]), AtomOf(atoms[|atoms| - 1]))
      case (Some(ms), Some(m)) => Some(ms + [m])
      case _ => None
  }

  function JoinMetas(metas: seq<MetaFilter>): Option<MetaFilter> {
    if metas == [] then None else if |metas| == 1 then Some(metas[0]) else Some(MAnd(metas))
  }

  function LiteOf(fs: seq<Filter>, atoms: seq<PayloadAtom>): Option<LiteFilter> {
    match (Gather(fs), Atoms(atoms))
    case (Some(g), Some(ms)) => Some(LiteFilter(JoinMetas(g.metas + ms), g.exprs))
    case _ => None
  }

  // ── The conversions as they run ───────────────────────────────────────────

  method SqlFiltersToMetadata(filters: seq<Filter>, atoms: seq<PayloadAtom>) returns (lowered: Option<LiteFilter>)
    ensures lowered == LiteOf(filters, atoms)
  {
    hide MetaOf;
    hide ExprOf;
    hide AtomOf;
    if filters == [] && atoms == [] {
      return Some(LiteFilter(None, []));
    }
    var metas: seq<MetaFilter>, exprs: seq<QueryExpr> := [], [];
    for i := 0 to |filters|
      invariant Gather(filters[..i]) == Some(Gathered(metas, exprs))
    {
      assert filters[..i + 1][..i] == filters[..i];
      match MetaOf(filters[i]) {
        case Some(m) => metas := metas + [m];
        case None =>
          match ExprOf(filters[i]) {
            case Some(q) => exprs := exprs + [q];
            case None =>
              GatherStops(filters, i);
              return None;
          }
      }
    }
    assert filters[..|filters|] == filters;
    ghost var own := metas;
    for i := 0 to |atoms|
      invariant Atoms(atoms[..i]).Some? && metas == own + Atoms(atoms[..i]).value
    {
      assert atoms[..i + 1][..i] == atoms[..i];
      match AtomOf(atoms[i]) {
        case Some(m) => metas := metas + [m];
        case None =>
          AtomsStop(atoms, i);
          return None;
      }
    }
    assert atoms[..|atoms|] == atoms;
    var meta := if metas == [] then None else if |metas| == 1 then Some(metas[0]) else Some(MAnd(metas));
    lowered := Some(LiteFilter(meta, exprs));
  }

  lemma {:induction false} GatherStops(fs: seq<Filter>, i: nat)
    requires i < |fs| && MetaOf(fs[i]).None? && ExprOf(fs[i]).None?
    ensures Gather(fs).None?
    decreases |fs|
  {
    hide MetaOf;
    hide ExprOf;
    if i < |fs| - 1 {
      GatherStops(fs[..|fs| - 1], i);
    }
  }

  lemma {:induction false} AtomsStop(atoms: seq<PayloadAtom>, i: nat)
    requires i < |atoms| && AtomOf(atoms[i]).None?
    ensures Atoms(atoms).None?
    decreases |atoms|
  {
    hide AtomOf;
    if i < |atoms| - 1 {
      AtomsStop(atoms[..|atoms| - 1], i);
    }
  }

  method FiltersToScanFilters(filters: seq<Filter>) returns (out: Option<seq<ScanFilter>>)
    ensures out == ScansAll(filters)
    decreases filters, 0
  {
    hide ScansOf;
    var list: seq<ScanFilter> := [];
    for i := 0 to |filters|
      invariant ScansAll(filters[..i]) == Some(list)
    {
      assert filters[..i + 1][..i] == filters[..i];
      var more := FilterToScanFilters(filters[i], list);
      match more {
        case None =>
          ScansStop(filters, i);
          return None;
        case Some(grown) => list := grown;
      }
    }
    assert filters[..|filters|] == filters;
    out := Some(list);
  }

  /** Append what `f` lowers to. */
  method FilterToScanFilters(f: Filter, out: seq<ScanFilter>) returns (grown: Option<seq<ScanFilter>>)
    ensures grown == match ScansOf(f) case Some(more) => Some(out + more) case None => None
    decreases f, 1
  {
    match f {
      case AllFilters(parts) =>
        var inner := FiltersToScanFilters(parts);
        grown := match inner case Some(more) => Some(out + more) case None => None;
      case AnyFilters(parts) =>
        var clauses := ClausesOf(f);
        grown := match clauses case Some(gs) => Some(out + [ScanFilter("", FOr, Null, gs, None)]) case None => None;
      case _ =>
        grown := match ScansOf(f) case Some(more) => Some(out + more) case None => None;
    }
  }

  method ClausesOf(f: Filter) returns (clauses: Option<seq<Clause>>)
    requires f.AnyFilters?
    ensures clauses == Groups(f.parts)
    decreases f, 0
  {
    hide ScansOf;
    var parts := f.parts;
    var gs: seq<Clause> := [];
    for i := 0 to |parts|
      invariant Groups(parts[..i]) == Some(gs)
    {
      assert parts[..i + 1][..i] == parts[..i];
      var group := FilterToScanFilters(parts[i], []);
      match group {
        case None =>
          GroupsStop(parts, i);
          return None;
        case Some(g) =>
          assert [] + ScansOf(parts[i]).value == ScansOf(parts[i]).value;
          gs := gs + [Clause(g)];
      }
    }
    assert parts[..|parts|] == parts;
    clauses := Some(gs);
  }

  lemma {:induction false} ScansStop(fs: seq<Filter>, i: nat)
    requires i < |fs| && ScansOf(fs[i]).None?
    ensures ScansAll(fs).None?
    decreases |fs|
  {
    hide ScansOf;
    if i < |fs| - 1 {
      ScansStop(fs[..|fs| - 1], i);
    }
  }

  lemma {:induction false} GroupsStop(fs: seq<Filter>, i: nat)
    requires i < |fs| && ScansOf(fs[i]).None?
    ensures Groups(fs).None?
    decreases |fs|
  {
    hide ScansOf;
    if i < |fs| - 1 {
      GroupsStop(fs[..|fs| - 1], i);
    }
  }
}
