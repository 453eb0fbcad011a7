/** Lowering SQL expressions to the evaluator's: `IN`, `BETWEEN`, `NOT` and
    `LIKE` have no evaluator form and are rewritten. What the evaluator does with
    columns, arithmetic, comparisons and functions is a parameter. */
module Exprs {
  import opened Options
  import opened Document

  datatype Arithmetic = Plus | Minus | Times | Over | Modulo | Join

  datatype Ordering = Less | Equal | Greater

  datatype CastType = ToInt | ToFloat | ToString | ToBool

  datatype SqlOp = Add | Sub | Mul | Div | Mod | Concat | Eq | Ne | Gt | Ge | Lt | Le | And | Or

  datatype UnaryOp = Neg | Not

  /** `Unwritable` is a literal with no value form, and a cast to `None` one to
      an unknown type. */
  datatype SqlExpr =
    | Column(name: string)
    | Excluded(name: string)
    | Literal(value: Value)
    | Unwritable
    | Binary(left: SqlExpr, op: SqlOp, right: SqlExpr)
    | Unary(unary: UnaryOp, expr: SqlExpr)
    | Function(name: string, args: seq<SqlExpr>)
    | Case(operand: Option<SqlExpr>, arms: seq<SqlArm>, otherwise: Option<SqlExpr>)
    | Cast(expr: SqlExpr, to: Option<CastType>)
    | IsNull(expr: SqlExpr, negated: bool)
    | InList(expr: SqlExpr, list: seq<SqlExpr>, negated: bool)
    | Between(expr: SqlExpr, low: SqlExpr, high: SqlExpr, negated: bool)
    | Like(expr: SqlExpr, pattern: SqlExpr, negated: bool, caseInsensitive: bool)
    | ArrayLiteral(items: seq<SqlExpr>)
    | Subquery
    | Wildcard

  datatype SqlArm = SqlArm(test: SqlExpr, value: SqlExpr)

  datatype QueryOp = QAdd | QSub | QMul | QDiv | QMod | QConcat | QEq | QNotEq | QGt | QGtEq | QLt | QLtEq | QAnd | QOr

  datatype QueryExpr =
    | QColumn(name: string)
    | QExcluded(name: string)
    | QLiteral(value: Value)
    | QBinary(left: QueryExpr, op: QueryOp, right: QueryExpr)
    | QNegate(expr: QueryExpr)
    | QFunction(name: string, args: seq<QueryExpr>)
    | QCase(operand: Option<QueryExpr>, arms: seq<QueryArm>, otherwise: Option<QueryExpr>)
    | QCast(expr: QueryExpr, to: CastType)
    | QIsNull(expr: QueryExpr, negated: bool)

  datatype QueryArm = QueryArm(test: QueryExpr, value: QueryExpr)

  // ── Three-valued logic ────────────────────────────────────────────────────

  /** What the evaluator does for one row, and where it reports an error. */
  datatype Semantics = Semantics(
    column: string -> Value,
    excluded: string -> Value,
    arithmetic: (Arithmetic, Value, Value) -> Option<Value>,
    eq: (Value, Value) -> bool,
    order: (Value, Value) -> Option<Ordering>,
    negate: Value -> Option<Value>,
    call: (string, seq<Value>) -> Option<Value>,
    cast: (CastType, Value) -> Option<Value>)

  predicate IsTruth(v: Value) {
    v.Null? || v.Bool?
  }

  /** A comparison with NULL is NULL. */
  function Propagate(a: Value, b: Value, holds: bool): Value {
    if a.Null? || b.Null? then Null else Bool(holds)
  }

  function Negation(v: Value): Option<Value> {
    match v
    case Bool(b) => Some(Bool(!b))
    case Null => Some(Null)
    case _ => None
  }

  function Conjunction(a: Value, b: Value): Option<Value> {
    if !IsTruth(a) || !IsTruth(b) then None
    else if a == Bool(false) || b == Bool(false) then Some(Bool(false))
    else if a.Null? || b.Null? then Some(Null)
    else Some(Bool(true))
  }

  function Disjunction(a: Value, b: Value): Option<Value> {
    if !IsTruth(a) || !IsTruth(b) then None
    else if a == Bool(true) || b == Bool(true) then Some(Bool(true))
    else if a.Null? || b.Null? then Some(Null)
    else Some(Bool(false))
  }

  /** False when one is false, otherwise unknown when one is unknown. */
  ghost function AllOf(vs: seq<Value>): Value {
    if Bool(false) in vs then Bool(false) else if Null in vs then Null else Bool(true)
  }

  /** True when one is true, otherwise unknown when one is unknown. */
  ghost function AnyOf(vs: seq<Value>): Value {
    if Bool(true) in vs then Bool(true) else if Null in vs then Null else Bool(false)
  }

  // ── The evaluator ─────────────────────────────────────────────────────────

  function Apply(sem: Semantics, op: QueryOp, a: Value, b: Value): Option<Value> {
    match op
    case QAdd => sem.arithmetic(Plus, a, b)
    case QSub => sem.arithmetic(Minus, a, b)
    case QMul => sem.arithmetic(Times, a, b)
    case QDiv => sem.arithmetic(Over, a, b)
    case QMod => sem.arithmetic(Modulo, a, b)
    case QConcat => sem.arithmetic(Join, a, b)
    case QEq => Some(Propagate(a, b, sem.eq(a, b)))
    case QNotEq => Some(Propagate(a, b, !sem.eq(a, b)))
    case QGt => Some(Propagate(a, b, sem.order(a, b) == Some(Greater)))
    case QGtEq => Some(Propagate(a, b, sem.order(a, b) in {Some(Greater), Some(Equal)}))
    case QLt => Some(Propagate(a, b, sem.order(a, b) == Some(Less)))
    case QLtEq => Some(Propagate(a, b, sem.order(a, b) in {Some(Less), Some(Equal)}))
    case QAnd => Conjunction(a, b)
    case QOr => Disjunction(a, b)
  }

  function NullTest(v: Value, negated: bool): Value {
    Bool(v.Null? != negated)
  }

  function Eval(sem: Semantics, q: QueryExpr): Option<Value>
    decreases q, 1, 0
  {
    match q
    case QColumn(name) => Some(sem.column(name))
    case QExcluded(name) => Some(sem.excluded(name))
    case QLiteral(v) => Some(v)
    case QBinary(left, op, right) =>
      (match (Eval(sem, left), Eval(sem, right))
       case (Some(a), Some(b)) => Apply(sem, op, a, b)
       case _ => None)
    case QNegate(expr) => (match Eval(sem, expr) case Some(v) => sem.negate(v) case None => None)
    case QFunction(name, args) => (match EvalAll(sem, args) case Some(vs) => sem.call(name, vs) case None => None)
    case QCase(operand, arms, otherwise) =>
      if operand.None? then EvalArms(sem, q, None, 0)
      else (match Eval(sem, operand.value) case Some(v) => EvalArms(sem, q, Some(v), 0) case None => None)
    case QCast(expr, to) => (match Eval(sem, expr) case Some(v) => sem.cast(to, v) case None => None)
    case QIsNull(expr, negated) => (match Eval(sem, expr) case Some(v) => Some(NullTest(v, negated)) case None => None)
  }

  function EvalAll(sem: Semantics, qs: seq<QueryExpr>): Option<seq<Value>>
    decreases qs, 0, 0
  {
    if qs == [] then Some([])
    else
      match (EvalAll(sem, qs[..|qs| - 1]), Eval(sem, qs[|qs| - 1]))
      case (Some(vs), Some(v)) => Some(vs + [v])
      case _ => None
  }

  /** Whether an arm is taken: its test is true, or equals the operand. */
  predicate Taken(sem: Semantics, operand: Option<Value>, test: Value) {
    match operand
    case None => test == Bool(true)
    case Some(v) => Propagate(v, test, sem.eq(v, test)) == Bool(true)
  }

  /** The first arm taken from `i` on. */
  function EvalArms(sem: Semantics, q: QueryExpr, operand: Option<Value>, i: nat): Option<Value>
    requires q.QCase? && i <= |q.arms|
    decreases q, 0, |q.arms| - i
  {
    if i == |q.arms| then (if q.otherwise.None? then Some(Null) else Eval(sem, q.otherwise.value))
    else
      match Eval(sem, q.arms[i].test)
      case None => None
      case Some(t) => if Taken(sem, operand, t) then Eval(sem, q.arms[i].value) else EvalArms(sem, q, operand, i + 1)
  }

  // ── What SQL means ────────────────────────────────────────────────────────

  function Relation(sem: Semantics, op: SqlOp, a: Value, b: Value): Option<Value> {
    match op
    case Add => sem.arithmetic(Plus, a, b)
    case Sub => sem.arithmetic(Minus, a, b)
    case Mul => sem.arithmetic(Times, a, b)
    case Div => sem.arithmetic(Over, a, b)
    case Mod => sem.arithmetic(Modulo, a, b)
    case Concat => sem.arithmetic(Join, a, b)
    case Eq => Some(Propagate(a, b, sem.eq(a, b)))
    case Ne => Some(Propagate(a, b, !sem.eq(a, b)))
    case Gt => Some(Propagate(a, b, sem.order(a, b) == Some(Greater)))
    case Ge => Some(Propagate(a, b, sem.order(a, b) in {Some(Greater), Some(Equal)}))
    case Lt => Some(Propagate(a, b, sem.order(a, b) == Some(Less)))
    case Le => Some(Propagate(a, b, sem.order(a, b) in {Some(Less), Some(Equal)}))
    case And => Conjunction(a, b)
    case Or => Disjunction(a, b)
  }

  /** The value compared for equality with each of a list. */
  function EqualEach(sem: Semantics, v: Value, ws: seq<Value>): (tests: seq<Value>)
    ensures |tests| == |ws| && forall i :: 0 <= i < |ws| ==> tests[i] == Propagate(v, ws[i], sem.eq(v, ws[i]))
  {
    seq(|ws|, i requires 0 <= i < |ws| => Propagate(v, ws[i], sem.eq(v, ws[i])))
  }

  function WithSign(negated: bool, v: Value): Option<Value> {
    if negated then Negation(v) else Some(v)
  }

  /** Subclause 8.4 of ISO/IEC 9075-2: `IN` is equality with any of the list, and
      `NOT IN` its negation. */
  ghost function InMeaning(sem: Semantics, v: Value, ws: seq<Value>, negated: bool): Option<Value> {
    WithSign(negated, AnyOf(EqualEach(sem, v, ws)))
  }

  /** Subclause 8.3 of ISO/IEC 9075-2: `BETWEEN` is at least the low bound and at
      most the high one, and `NOT BETWEEN` its negation. */
  function BetweenMeaning(sem: Semantics, v: Value, low: Value, high: Value, negated: bool): Option<Value> {
    match Conjunction(Propagate(v, low, sem.order(v, low) in {Some(Greater), Some(Equal)}),
                      Propagate(v, high, sem.order(v, high) in {Some(Less), Some(Equal)}))
    case Some(b) => WithSign(negated, b)
    case None => None
  }

  /** The value SQL gives an expression; none where it is ill-typed, in error or
      has no value here. */
  ghost function Meaning(sem: Semantics, e: SqlExpr): Option<Value>
    decreases e, 1, 0
  {
    match e
    case Column(name) => Some(sem.column(name))
    case Excluded(name) => Some(sem.excluded(name))
    case Literal(v) => Some(v)
    case Unwritable => None
    case Binary(left, op, right) =>
      (match (Meaning(sem, left), Meaning(sem, right))
       case (Some(a), Some(b)) => Relation(sem, op, a, b)
       case _ => None)
    case Unary(op, expr) =>
      (match Meaning(sem, expr)
       case Some(v) => if op.Neg? then sem.negate(v) else Negation(v)
       case None => None)
    case Function(name, args) => (match MeaningAll(sem, args) case Some(vs) => sem.call(name, vs) case None => None)
    case Case(operand, arms, otherwise) =>
      if operand.None? then MeaningArms(sem, e, None, 0)
      else (match Meaning(sem, operand.value) case Some(v) => MeaningArms(sem, e, Some(v), 0) case None => None)
    case Cast(expr, to) =>
      (match (Meaning(sem, expr), to) case (Some(v), Some(t)) => sem.cast(t, v) case _ => None)
    case IsNull(expr, negated) => (match Meaning(sem, expr) case Some(v) => Some(NullTest(v, negated)) case None => None)
    case InList(expr, list, negated) =>
      (match (Meaning(sem, expr), MeaningAll(sem, list))
       case (Some(v), Some(ws)) => InMeaning(sem, v, ws, negated)
       case _ => None)
    case Between(expr, low, high, negated) =>
      (match (Meaning(sem, expr), Meaning(sem, low), Meaning(sem, high))
       case (Some(v), Some(lo), Some(hi)) => BetweenMeaning(sem, v, lo, hi, negated)
       case _ => None)
    case Like(expr, pattern, negated, caseInsensitive) =>
      (match (Meaning(sem, expr), Meaning(sem, pattern))
       case (Some(v), Some(p)) =>
         (match sem.call(if caseInsensitive then "ilike" else "like", [v, p])
          case Some(b) => WithSign(negated, b)
          case None => None)
       case _ => None)
    case ArrayLiteral(items) => (match MeaningAll(sem, items) case Some(vs) => Some(Array(vs)) case None => None)
    case Subquery => None
    case Wildcard => None
  }

  ghost function MeaningAll(sem: Semantics, es: seq<SqlExpr>): Option<seq<Value>>
    decreases es, 0, 0
  {
    if es == [] then Some([])
    else
      match (MeaningAll(sem, es[..|es| - 1]), Meaning(sem, es[|es| - 1]))
      case (Some(vs), Some(v)) => Some(vs + [v])
      case _ => None
  }

  ghost function MeaningArms(sem: Semantics, e: SqlExpr, operand: Option<Value>, i: nat): Option<Value>
    requires e.Case? && i <= |e.arms|
    decreases e, 0, |e.arms| - i
  {
    if i == |e.arms| then (if e.otherwise.None? then Some(Null) else Meaning(sem, e.otherwise.value))
    else
      match Meaning(sem, e.arms[i].test)
      case None => None
      case Some(t) => if Taken(sem, operand, t) then Meaning(sem, e.arms[i].value) else MeaningArms(sem, e, operand, i + 1)
  }

  // ── Lowering ──────────────────────────────────────────────────────────────

  function LowerOp(op: SqlOp): QueryOp {
    match op
    case Add => QAdd case Sub => QSub case Mul => QMul case Div => QDiv case Mod => QMod case Concat => QConcat
    case Eq => QEq case Ne => QNotEq case Gt => QGt case Ge => QGtEq case Lt => QLt case Le => QLtEq
    case And => QAnd case Or => QOr
  }

  /** Arms joined left to right, or a constant when there are none. */
  function Chain(op: QueryOp, arms: seq<QueryExpr>, identity: bool): QueryExpr {
    if arms == [] then QLiteral(Bool(identity))
    else if |arms| == 1 then arms[0]
    else QBinary(Chain(op, arms[..|arms| - 1], identity), op, arms[|arms| - 1])
  }

  /** `target` compared with each item. */
  function TestEach(target: QueryExpr, op: QueryOp, items: seq<QueryExpr>): (tests: seq<QueryExpr>)
    ensures |tests| == |items| && forall i :: 0 <= i < |items| ==> tests[i] == QBinary(target, op, items[i])
  {
    seq(|items|, i requires 0 <= i < |items| => QBinary(target, op, items[i]))
  }

  function LowerIn(target: QueryExpr, items: seq<QueryExpr>, negated: bool): QueryExpr {
    if negated then Chain(QAnd, TestEach(target, QNotEq, items), true)
    else Chain(QOr, TestEach(target, QEq, items), false)
  }

  function LowerBetween(e: QueryExpr, low: QueryExpr, high: QueryExpr, negated: bool): QueryExpr {
    if negated then QBinary(QBinary(e, QLt, low), QOr, QBinary(e, QGt, high))
    else QBinary(QBinary(e, QGtEq, low), QAnd, QBinary(e, QLtEq, high))
  }

  /** The values of literals; none when one is not a literal. */
  function LiteralsOf(qs: seq<QueryExpr>): Option<seq<Value>> {
    if qs == [] then Some([])
    else
      match (LiteralsOf(qs[..|qs| - 1]), qs[|qs| - 1])
      case (Some(vs), QLiteral(v)) => Some(vs + [v])
      case _ => None
  }

  function LowerArray(items: seq<QueryExpr>): QueryExpr {
    match LiteralsOf(items)
    case Some(vs) => QLiteral(Array(vs))
    case None => QFunction("make_array", items)
  }

  /** The evaluator form of an expression; none for a client error. */
  function Lower(e: SqlExpr): Option<QueryExpr>
    decreases e, 1, 0
  {
    match e
    case Column(name) => Some(QColumn(name))
    case Excluded(name) => Some(QExcluded(name))
    case Literal(v) => Some(QLiteral(v))
    case Unwritable => None
    case Binary(left, op, right) =>
      (match (Lower(left), Lower(right))
       case (Some(l), Some(r)) => Some(QBinary(l, LowerOp(op), r))
       case _ => None)
    case Unary(op, expr) =>
      (match Lower(expr)
       case Some(q) => Some(if op.Neg? then QNegate(q) else QBinary(q, QEq, QLiteral(Bool(false))))
       case None => None)
    case Function(name, args) => (match LowerAll(args) case Some(qs) => Some(QFunction(name, qs)) case None => None)
    case Case(operand, arms, otherwise) =>
      var o := if operand.None? then Some(None) else (match Lower(operand.value) case Some(q) => Some(Some(q)) case None => None);
      var d := if otherwise.None? then Some(None) else (match Lower(otherwise.value) case Some(q) => Some(Some(q)) case None => None);
      (match (o, LowerArms(arms), d)
       case (Some(qo), Some(qa), Some(qd)) => Some(QCase(qo, qa, qd))
       case _ => None)
    case Cast(expr, to) => (match (Lower(expr), to) case (Some(q), Some(t)) => Some(QCast(q, t)) case _ => None)
    case IsNull(expr, negated) => (match Lower(expr) case Some(q) => Some(QIsNull(q, negated)) case None => None)
    case InList(expr, list, negated) =>
      (match (Lower(expr), LowerAll(list))
       case (Some(q), Some(qs)) => Some(LowerIn(q, qs, negated))
       case _ => None)
    case Between(expr, low, high, negated) =>
      (match (Lower(expr), Lower(low), Lower(high))
       case (Some(q), Some(lo), Some(hi)) => Some(LowerBetween(q, lo, hi, negated))
       case _ => None)
    case Like(expr, pattern, negated, caseInsensitive) =>
      (match (Lower(expr), Lower(pattern))
       case (Some(q), Some(p)) =>
         var call := QFunction(if caseInsensitive then "ilike" else "like", [q, p]);
         Some(if negated then QNegate(call) else call)
       case _ => None)
    case ArrayLiteral(items) => (match LowerAll(items) case Some(qs) => Some(LowerArray(qs)) case None => None)
    case Subquery => None
    case Wildcard => None
  }

  function LowerAll(es: seq<SqlExpr>): (qs: Option<seq<QueryExpr>>)
    ensures qs.Some? ==> |qs.value| == |es|
    decreases es, 0, 0
  {
    if es == [] then Some([])
    else
      match (LowerAll(es[..|es| - 1]), Lower(es[|es| - 1]))
      case (Some(qs), Some(q)) => Some(qs + [q])
      case _ => None
  }

  function LowerArms(arms: seq<SqlArm>): (qs: Option<seq<QueryArm>>)
    ensures qs.Some? ==> |qs.value| == |arms|
    decreases arms, 0, 0
  {
    if arms == [] then Some([])
    else
      match (LowerArms(arms[..|arms| - 1]), LowerArm(arms[|arms| - 1]))
      case (Some(qs), Some(q)) => Some(qs + [q])
      case _ => None
  }

  function LowerArm(arm: SqlArm): Option<QueryArm>
    decreases arm, 0, 0
  {
    match (Lower(arm.test), Lower(arm.value))
    case (Some(t), Some(v)) => Some(QueryArm(t, v))
    case _ => None
  }

  /** The list rewritten as it is read, stopping at the first item with no
      evaluator form. */
  method LowerList(target: QueryExpr, list: seq<SqlExpr>, negated: bool) returns (lowered: Option<QueryExpr>)
    ensures lowered == match LowerAll(list) case Some(items) => Some(LowerIn(target, items, negated)) case None => None
  {
    hide Lower;
    var equal, combine := if negated then QNotEq else QEq, if negated then QAnd else QOr;
    var chain: Option<QueryExpr> := None;
    ghost var items: seq<QueryExpr> := [];
    for i := 0 to |list|
      invariant LowerAll(list[..i]) == Some(items)
      invariant chain == if i == 0 then None else Some(Chain(combine, TestEach(target, equal, items), negated))
    {
      assert list[..i + 1][..i] == list[..i];
      match Lower(list[i]) {
        case None =>
          ListStops(list, i);
          return None;
        case Some(item) =>
          var test := QBinary(target, equal, item);
          ghost var tests := TestEach(target, equal, items);
          ghost var more := TestEach(target, equal, items + [item]);
          assert more[..|more| - 1] == tests && more[|more| - 1] == test;
          chain := match chain case None => Some(test) case Some(q) => Some(QBinary(q, combine, test));
          items := items + [item];
      }
    }
    assert list[..|list|] == list;
    lowered := match chain case Some(q) => Some(q) case None => Some(QLiteral(Bool(negated)));
  }

  lemma {:induction false} ListStops(list: seq<SqlExpr>, i: nat)
    requires i < |list| && Lower(list[i]).None?
    ensures LowerAll(list).None?
    decreases |list|
  {
    if i < |list| - 1 {
      ListStops(list[..|list| - 1], i);
    }
  }
}
