/** The lowered form of an expression has the value SQL gives the expression. */
module ExprMeaning {
  import opened Options
  import opened Document
  import opened Exprs

  /** What the rewrites count on: equality of truth values is equality, negation
      of a truth value is its negation, and `make_array` makes an array. */
  ghost predicate Regular(sem: Semantics) {
    && (forall a, b :: sem.eq(Bool(a), Bool(b)) <==> a == b)
    && (forall b :: sem.negate(Bool(b)) == Some(Bool(!b))) && sem.negate(Null) == Some(Null)
    && (forall vs :: sem.call("make_array", vs) == Some(Array(vs)))
  }

  ghost predicate AllTruth(vs: seq<Value>) {
    forall v :: v in vs ==> IsTruth(v)
  }

  lemma BinaryEval(sem: Semantics, l: QueryExpr, op: QueryOp, r: QueryExpr, a: Value, b: Value)
    requires Eval(sem, l) == Some(a) && Eval(sem, r) == Some(b)
    ensures Eval(sem, QBinary(l, op, r)) == Exprs.Apply(sem, op, a, b)
  {
  }

  // ── Chains ────────────────────────────────────────────────────────────────

  lemma AllOfGrows(vs: seq<Value>, v: Value)
    requires AllTruth(vs) && IsTruth(v)
    ensures Conjunction(AllOf(vs), v) == Some(AllOf(vs + [v]))
    ensures Disjunction(AnyOf(vs), v) == Some(AnyOf(vs + [v]))
  {
    assert forall w :: w in vs + [v] <==> w in vs || w == v;
  }

  lemma EmptyChain(sem: Semantics, op: QueryOp)
    ensures Eval(sem, Chain(op, [], op == QAnd)) == Some(if op == QAnd then AllOf([]) else AnyOf([]))
  {
  }

  lemma OneOf(v: Value)
    requires IsTruth(v)
    ensures AllOf([] + [v]) == v && AnyOf([] + [v]) == v
  {
    assert [] + [v] == [v];
  }

  lemma EvalAllGrows(sem: Semantics, qs: seq<QueryExpr>)
    requires qs != [] && EvalAll(sem, qs).Some?
    ensures var vs := EvalAll(sem, qs).value;
      && |vs| == |qs| && vs == vs[..|vs| - 1] + [vs[|vs| - 1]]
      && EvalAll(sem, qs[..|qs| - 1]) == Some(vs[..|vs| - 1])
      && Eval(sem, qs[|qs| - 1]) == Some(vs[|vs| - 1])
  {
    hide Eval;
    EvalAllSize(sem, qs);
  }

  lemma {:induction false} EvalAllSize(sem: Semantics, qs: seq<QueryExpr>)
    requires EvalAll(sem, qs).Some?
    ensures |EvalAll(sem, qs).value| == |qs|
    decreases |qs|
  {
    hide Eval;
    if qs != [] {
      EvalAllSize(sem, qs[..|qs| - 1]);
    }
  }

  lemma {:induction false} ChainEval(sem: Semantics, op: QueryOp, arms: seq<QueryExpr>, vs: seq<Value>)
    requires op in {QAnd, QOr} && EvalAll(sem, arms) == Some(vs) && AllTruth(vs)
    ensures Eval(sem, Chain(op, arms, op == QAnd)) == Some(if op == QAnd then AllOf(vs) else AnyOf(vs))
    decreases |arms|
  {
    if arms == [] {
      assert vs == [];
      EmptyChain(sem, op);
    } else {
      var init, last := arms[..|arms| - 1], vs[|vs| - 1];
      var front := vs[..|vs| - 1];
      EvalAllGrows(sem, arms);
      assert last in vs && forall v :: v in front ==> v in vs;
      AllOfGrows(front, last);
      hide EvalAll;
      hide Eval;
      hide AllOf;
      hide AnyOf;
      if |arms| > 1 {
        ChainEval(sem, op, init, front);
        BinaryEval(sem, Chain(op, init, op == QAnd), op, arms[|arms| - 1], if op == QAnd then AllOf(front) else AnyOf(front), last);
      } else {
        assert front == [];
        OneOf(last);
      }
    }
  }

  // ── IN ────────────────────────────────────────────────────────────────────

  ghost function TestValues(sem: Semantics, op: QueryOp, v: Value, ws: seq<Value>): seq<Value>
    requires op in {QEq, QNotEq}
  {
    seq(|ws|, i requires 0 <= i < |ws| => Propagate(v, ws[i], sem.eq(v, ws[i]) == (op == QEq)))
  }

  lemma {:induction false} TestsEval(sem: Semantics, op: QueryOp, target: QueryExpr, items: seq<QueryExpr>, v: Value, ws: seq<Value>)
    requires op in {QEq, QNotEq} && Eval(sem, target) == Some(v) && EvalAll(sem, items) == Some(ws)
    ensures EvalAll(sem, TestEach(target, op, items)) == Some(TestValues(sem, op, v, ws))
    decreases |items|
  {
    var tests := TestEach(target, op, items);
    if items != [] {
      var init := items[..|items| - 1];
      var front, last := ws[..|ws| - 1], ws[|ws| - 1];
      assert EvalAll(sem, init) == Some(front) && Eval(sem, items[|items| - 1]) == Some(last) && ws == front + [last];
      TestsEval(sem, op, target, init, v, front);
      assert tests[..|tests| - 1] == TestEach(target, op, init);
      var values := TestValues(sem, op, v, ws);
      assert values == TestValues(sem, op, v, front) + [values[|values| - 1]];
      assert Eval(sem, tests[|tests| - 1]) == Some(values[|values| - 1]);
    } else {
      assert tests == [] && ws == [] && TestValues(sem, op, v, ws) == [];
    }
  }

  /** De Morgan's law for unknown, true and false. */
  lemma NoneIsNotAny(vs: seq<Value>, ws: seq<Value>)
    requires AllTruth(vs) && |vs| == |ws| && forall i :: 0 <= i < |vs| ==> Negation(vs[i]) == Some(ws[i])
    ensures Negation(AnyOf(vs)) == Some(AllOf(ws))
  {
    forall v | v in vs ensures Negation(v).Some? && Negation(v).value in ws {
      var i :| 0 <= i < |vs| && vs[i] == v;
      assert ws[i] in ws;
    }
    forall w | w in ws ensures Negation(w).Some? && Negation(w).value in vs {
      var i :| 0 <= i < |ws| && ws[i] == w;
      assert vs[i] in vs;
    }
    assert Bool(true) in vs <==> Bool(false) in ws;
    assert Null in vs <==> Null in ws;
  }

  /** `IN` and `NOT IN` over a list of any length, the empty one included. */
  lemma InKeepsMeaning(sem: Semantics, target: QueryExpr, items: seq<QueryExpr>, v: Value, ws: seq<Value>, negated: bool)
    requires Eval(sem, target) == Some(v) && EvalAll(sem, items) == Some(ws)
    ensures Eval(sem, LowerIn(target, items, negated)) == InMeaning(sem, v, ws, negated)
  {
    var tests := EqualEach(sem, v, ws);
    assert tests == TestValues(sem, QEq, v, ws);
    if negated {
      TestsEval(sem, QNotEq, target, items, v, ws);
      ChainEval(sem, QAnd, TestEach(target, QNotEq, items), TestValues(sem, QNotEq, v, ws));
      NoneIsNotAny(tests, TestValues(sem, QNotEq, v, ws));
    } else {
      TestsEval(sem, QEq, target, items, v, ws);
      ChainEval(sem, QOr, TestEach(target, QEq, items), tests);
    }
  }

  // ── BETWEEN ───────────────────────────────────────────────────────────────

  /** Whether `v` compares with a bound, where both are values. */
  predicate Compares(sem: Semantics, v: Value, bound: Value) {
    v.Null? || bound.Null? || sem.order(v, bound).Some?
  }

  predicate Outside(sem: Semantics, v: Value, low: Value, high: Value) {
    !v.Null? && ((!low.Null? && sem.order(v, low) == Some(Less)) || (!high.Null? && sem.order(v, high) == Some(Greater)))
  }

  /** `BETWEEN` always keeps its meaning. `NOT BETWEEN` does exactly when the
      value compares with both bounds, or already lies outside one. */
  lemma BetweenKeepsMeaning(sem: Semantics, e: QueryExpr, low: QueryExpr, high: QueryExpr, v: Value, lo: Value, hi: Value)
    requires Eval(sem, e) == Some(v) && Eval(sem, low) == Some(lo) && Eval(sem, high) == Some(hi)
    ensures Eval(sem, LowerBetween(e, low, high, false)) == BetweenMeaning(sem, v, lo, hi, false)
    ensures Eval(sem, LowerBetween(e, low, high, true)) == BetweenMeaning(sem, v, lo, hi, true)
       <==> (Compares(sem, v, lo) && Compares(sem, v, hi)) || Outside(sem, v, lo, hi)
  {
    hide Eval;
    BetweenEvals(sem, e, low, high, v, lo, hi);
    NotBetweenValues(sem, v, lo, hi);
  }

  lemma OrderingCases(o: Option<Ordering>)
    ensures o == None || o == Some(Less) || o == Some(Equal) || o == Some(Greater)
  {
    if o.Some? {
      match o.value case Less => case Equal => case Greater =>
    }
  }

  lemma NotBetweenValues(sem: Semantics, v: Value, lo: Value, hi: Value)
    ensures Disjunction(Propagate(v, lo, sem.order(v, lo) == Some(Less)), Propagate(v, hi, sem.order(v, hi) == Some(Greater)))
         == BetweenMeaning(sem, v, lo, hi, true)
       <==> (Compares(sem, v, lo) && Compares(sem, v, hi)) || Outside(sem, v, lo, hi)
  {
    var a, b := sem.order(v, lo), sem.order(v, hi);
    OrderingCases(a);
    OrderingCases(b);
  }

  lemma BetweenEvals(sem: Semantics, e: QueryExpr, low: QueryExpr, high: QueryExpr, v: Value, lo: Value, hi: Value)
    requires Eval(sem, e) == Some(v) && Eval(sem, low) == Some(lo) && Eval(sem, high) == Some(hi)
    ensures Eval(sem, LowerBetween(e, low, high, false))
         == Conjunction(Propagate(v, lo, sem.order(v, lo) in {Some(Greater), Some(Equal)}),
                        Propagate(v, hi, sem.order(v, hi) in {Some(Less), Some(Equal)}))
    ensures Eval(sem, LowerBetween(e, low, high, true))
         == Disjunction(Propagate(v, lo, sem.order(v, lo) == Some(Less)), Propagate(v, hi, sem.order(v, hi) == Some(Greater)))
  {
    hide Eval;
    var above, below := QBinary(e, QGtEq, low), QBinary(e, QLtEq, high);
    BinaryEval(sem, e, QGtEq, low, v, lo);
    BinaryEval(sem, e, QLtEq, high, v, hi);
    BinaryEval(sem, above, QAnd, below, Eval(sem, above).value, Eval(sem, below).value);
    var under, over := QBinary(e, QLt, low), QBinary(e, QGt, high);
    BinaryEval(sem, e, QLt, low, v, lo);
    BinaryEval(sem, e, QGt, high, v, hi);
    BinaryEval(sem, under, QOr, over, Eval(sem, under).value, Eval(sem, over).value);
  }

  // ── Where values can be ordered ───────────────────────────────────────────

  /** The value compares with both bounds or lies outside one, if all three have
      values. */
  ghost predicate BoundsCompare(sem: Semantics, expr: SqlExpr, low: SqlExpr, high: SqlExpr) {
    match (Meaning(sem, expr), Meaning(sem, low), Meaning(sem, high))
    case (Some(v), Some(lo), Some(hi)) => (Compares(sem, v, lo) && Compares(sem, v, hi)) || Outside(sem, v, lo, hi)
    case _ => true
  }

  ghost function OptionPart(e: Option<SqlExpr>): seq<SqlExpr> {
    if e.Some? then [e.value] else []
  }

  ghost function ArmParts(arms: seq<SqlArm>): (parts: seq<SqlExpr>)
    ensures forall i :: 0 <= i < |arms| ==> arms[i].test in parts && arms[i].value in parts
    ensures forall p :: p in parts ==> exists i :: 0 <= i < |arms| && (p == arms[i].test || p == arms[i].value)
  {
    if arms == [] then []
    else
      assert forall i :: 0 < i < |arms| ==> arms[1..][i - 1] == arms[i];
      [arms[0].test, arms[0].value] + ArmParts(arms[1..])
  }

  /** The expressions directly inside. */
  ghost function Parts(e: SqlExpr): (parts: seq<SqlExpr>)
    ensures forall p :: p in parts ==> p < e
  {
    match e
    case Binary(left, _, right) => [left, right]
    case Unary(_, expr) => [expr]
    case Function(_, args) => args
    case Case(operand, arms, otherwise) => OptionPart(operand) + ArmParts(arms) + OptionPart(otherwise)
    case Cast(expr, _) => [expr]
    case IsNull(expr, _) => [expr]
    case InList(expr, list, _) => [expr] + list
    case Between(expr, low, high, _) => [expr, low, high]
    case Like(expr, pattern, _, _) => [expr, pattern]
    case ArrayLiteral(items) => items
    case _ => []
  }

  ghost predicate NodeCompares(sem: Semantics, e: SqlExpr) {
    e.Between? && e.negated ==> BoundsCompare(sem, e.expr, e.low, e.high)
  }

  /** Every `NOT BETWEEN` in the expression compares. */
  ghost predicate Orderable(sem: Semantics, e: SqlExpr)
    decreases e
  {
    NodeCompares(sem, e) && forall p :: p in Parts(e) ==> Orderable(sem, p)
  }

  ghost predicate AllOrderable(sem: Semantics, es: seq<SqlExpr>) {
    forall e :: e in es ==> Orderable(sem, e)
  }

  // ── Whole expressions ─────────────────────────────────────────────────────

  /** Where an expression has both a lowered form and a value, they agree. */
  ghost predicate Kept(sem: Semantics, e: SqlExpr) {
    Lower(e).Some? && Meaning(sem, e).Some? ==> Eval(sem, Lower(e).value) == Meaning(sem, e)
  }

  ghost predicate AllKept(sem: Semantics, es: seq<SqlExpr>) {
    LowerAll(es).Some? && MeaningAll(sem, es).Some? ==> EvalAll(sem, LowerAll(es).value) == MeaningAll(sem, es)
  }

  lemma {:induction false} LiteralsEval(sem: Semantics, qs: seq<QueryExpr>)
    requires LiteralsOf(qs).Some?
    ensures EvalAll(sem, qs) == LiteralsOf(qs)
    decreases |qs|
  {
    if qs != [] {
      LiteralsEval(sem, qs[..|qs| - 1]);
    }
  }

  lemma ArrayKeepsMeaning(sem: Semantics, items: seq<QueryExpr>, vs: seq<Value>)
    requires Regular(sem) && EvalAll(sem, items) == Some(vs)
    ensures Eval(sem, LowerArray(items)) == Some(Array(vs))
  {
    if LiteralsOf(items).Some? { LiteralsEval(sem, items); }
  }

  lemma LikeKeepsMeaning(sem: Semantics, q: QueryExpr, p: QueryExpr, v: Value, w: Value, name: string, b: Value)
    requires Regular(sem) && Eval(sem, q) == Some(v) && Eval(sem, p) == Some(w) && sem.call(name, [v, w]) == Some(b) && IsTruth(b)
    ensures Eval(sem, QNegate(QFunction(name, [q, p]))) == Negation(b)
    ensures Eval(sem, QFunction(name, [q, p])) == Some(b)
  {
    PlainCall(sem, q, p, v, w, name);
  }

  lemma {:induction false} EachKept(sem: Semantics, es: seq<SqlExpr>)
    requires Regular(sem) && AllOrderable(sem, es)
    ensures AllKept(sem, es)
    decreases es, 0, 0
  {
    if es != [] {
      EachKept(sem, es[..|es| - 1]);
      LoweringKeepsMeaning(sem, es[|es| - 1]);
      if LowerAll(es).Some? {
        var qs := LowerAll(es).value;
        assert qs[..|qs| - 1] == LowerAll(es[..|es| - 1]).value;
      }
    }
  }

  lemma {:induction false} ArmAt(arms: seq<SqlArm>, i: nat)
    requires LowerArms(arms).Some? && i < |arms|
    ensures LowerArm(arms[i]) == Some(LowerArms(arms).value[i])
    decreases |arms|
  {
    hide LowerArm;
    if i < |arms| - 1 {
      ArmAt(arms[..|arms| - 1], i);
    }
  }

  lemma CasePartsOrderable(sem: Semantics, e: SqlExpr, i: nat)
    requires Orderable(sem, e) && e.Case? && i <= |e.arms|
    ensures e.otherwise.Some? ==> Orderable(sem, e.otherwise.value)
    ensures i < |e.arms| ==> Orderable(sem, e.arms[i].test) && Orderable(sem, e.arms[i].value)
  {
    if e.otherwise.Some? { assert e.otherwise.value in OptionPart(e.otherwise); }
    if i < |e.arms| { assert e.arms[i].test in ArmParts(e.arms) && e.arms[i].value in ArmParts(e.arms); }
  }

  lemma {:induction false} ArmsKept(sem: Semantics, e: SqlExpr, q: QueryExpr, operand: Option<Value>, i: nat)
    requires Regular(sem) && Orderable(sem, e) && e.Case? && Lower(e) == Some(q) && i <= |e.arms|
    requires MeaningArms(sem, e, operand, i).Some?
    ensures q.QCase? && |q.arms| == |e.arms| && EvalArms(sem, q, operand, i) == MeaningArms(sem, e, operand, i)
    decreases e, 0, |e.arms| - i
  {
    hide Regular;
    CasePartsOrderable(sem, e, i);
    hide Orderable;
    if i == |e.arms| {
      if e.otherwise.Some? { LoweringKeepsMeaning(sem, e.otherwise.value); }
    } else {
      ArmAt(e.arms, i);
      assert LowerArm(e.arms[i]) == Some(q.arms[i]);
      LoweringKeepsMeaning(sem, e.arms[i].test);
      LoweringKeepsMeaning(sem, e.arms[i].value);
      if !Taken(sem, operand, Meaning(sem, e.arms[i].test).value) {
        ArmsKept(sem, e, q, operand, i + 1);
      }
    }
  }

  lemma OperandIsOrderable(sem: Semantics, e: SqlExpr)
    requires Orderable(sem, e) && e.Case? && e.operand.Some?
    ensures Orderable(sem, e.operand.value)
  {
    assert e.operand.value in Parts(e);
  }

  lemma {:induction false} CaseKept(sem: Semantics, e: SqlExpr)
    requires Regular(sem) && Orderable(sem, e) && e.Case?
    ensures Kept(sem, e)
    decreases e, 0, |e.arms| + 1
  {
    hide Orderable;
    if Lower(e).Some? && Meaning(sem, e).Some? {
      var q := Lower(e).value;
      if e.operand.Some? {
        OperandIsOrderable(sem, e);
        LoweringKeepsMeaning(sem, e.operand.value);
        ArmsKept(sem, e, q, Meaning(sem, e.operand.value), 0);
      } else {
        ArmsKept(sem, e, q, None, 0);
      }
    }
  }

  lemma {:induction false} InKept(sem: Semantics, e: SqlExpr)
    requires Regular(sem) && Orderable(sem, e) && e.InList?
    ensures Kept(sem, e)
    decreases e, 0, 0
  {
    LoweringKeepsMeaning(sem, e.expr);
    EachKept(sem, e.list);
    if Lower(e).Some? && Meaning(sem, e).Some? {
      InKeepsMeaning(sem, Lower(e.expr).value, LowerAll(e.list).value,
                     Meaning(sem, e.expr).value, MeaningAll(sem, e.list).value, e.negated);
    }
  }

  lemma {:induction false} BetweenKept(sem: Semantics, e: SqlExpr)
    requires Regular(sem) && Orderable(sem, e) && e.Between?
    ensures Kept(sem, e)
    decreases e, 0, 0
  {
    LoweringKeepsMeaning(sem, e.expr);
    LoweringKeepsMeaning(sem, e.low);
    LoweringKeepsMeaning(sem, e.high);
    if Lower(e).Some? && Meaning(sem, e).Some? {
      BetweenKeepsMeaning(sem, Lower(e.expr).value, Lower(e.low).value, Lower(e.high).value,
                          Meaning(sem, e.expr).value, Meaning(sem, e.low).value, Meaning(sem, e.high).value);
    }
  }

  /** `NOT x` is lowered to `x = false`. */
  lemma NotKept(sem: Semantics, e: SqlExpr)
    requires Regular(sem) && e.Unary? && Kept(sem, e.expr)
    ensures Kept(sem, e)
  {
    if Lower(e).Some? && Meaning(sem, e).Some? && e.unary.Not? {
      assert Eval(sem, QLiteral(Bool(false))) == Some(Bool(false));
    }
  }

  lemma BinaryKept(sem: Semantics, e: SqlExpr)
    requires e.Binary? && Kept(sem, e.left) && Kept(sem, e.right)
    ensures Kept(sem, e)
  {
  }

  lemma {:induction false} ArrayKept(sem: Semantics, e: SqlExpr)
    requires Regular(sem) && e.ArrayLiteral? && AllKept(sem, e.items)
    ensures Kept(sem, e)
  {
    if Lower(e).Some? && Meaning(sem, e).Some? {
      ArrayKeepsMeaning(sem, LowerAll(e.items).value, MeaningAll(sem, e.items).value);
    }
  }

  /** Every expression that has an evaluator form and a value in SQL evaluates to
      that value, at every nesting and every list length, if its `NOT BETWEEN`s
      compare. */
  lemma {:induction false} LoweringKeepsMeaning(sem: Semantics, e: SqlExpr)
    requires Regular(sem) && Orderable(sem, e)
    ensures Kept(sem, e)
    decreases e, 1, 0
  {
    hide Regular;
    hide BoundsCompare;
    match e
    case Binary(left, _, right) =>
      hide Kept;
      LoweringKeepsMeaning(sem, left);
      LoweringKeepsMeaning(sem, right);
      BinaryKept(sem, e);
    case Unary(_, expr) =>
      hide Kept;
      LoweringKeepsMeaning(sem, expr);
      NotKept(sem, e);
    case Function(_, args) => EachKept(sem, args);
    case Case(_, _, _) => CaseKept(sem, e);
    case Cast(expr, _) => LoweringKeepsMeaning(sem, expr);
    case IsNull(expr, _) => LoweringKeepsMeaning(sem, expr);
    case InList(_, _, _) => InKept(sem, e);
    case Between(_, _, _, _) => BetweenKept(sem, e);
    case Like(expr, pattern, _, _) =>
      hide Kept;
      LoweringKeepsMeaning(sem, expr);
      LoweringKeepsMeaning(sem, pattern);
      LikeKept(sem, e);
    case ArrayLiteral(items) =>
      EachKept(sem, items);
      ArrayKept(sem, e);
    case _ =>
  }

  lemma LikeKept(sem: Semantics, e: SqlExpr)
    requires Regular(sem) && e.Like? && Kept(sem, e.expr) && Kept(sem, e.pattern)
    ensures Kept(sem, e)
  {
    if Lower(e).Some? && Meaning(sem, e).Some? {
      var name := if e.caseInsensitive then "ilike" else "like";
      var v, w := Meaning(sem, e.expr).value, Meaning(sem, e.pattern).value;
      var b := sem.call(name, [v, w]).value;
      if IsTruth(b) {
        LikeKeepsMeaning(sem, Lower(e.expr).value, Lower(e.pattern).value, v, w, name, b);
      } else {
        PlainCall(sem, Lower(e.expr).value, Lower(e.pattern).value, v, w, name);
      }
    }
  }

  lemma PlainCall(sem: Semantics, q: QueryExpr, p: QueryExpr, v: Value, w: Value, name: string)
    requires Eval(sem, q) == Some(v) && Eval(sem, p) == Some(w)
    ensures Eval(sem, QFunction(name, [q, p])) == sem.call(name, [v, w])
  {
    var two, one := [q, p], [q];
    assert two[..|two| - 1] == one && one[..|one| - 1] == [];
    assert EvalAll(sem, one) == Some([] + [v]);
    assert EvalAll(sem, two) == Some([] + [v] + [w]);
    assert [] + [v] + [w] == [v, w];
  }

  // ── The condition is exact ────────────────────────────────────────────────

  /** The expression and everything inside it keep their meaning. */
  ghost predicate KeptThroughout(sem: Semantics, e: SqlExpr)
    decreases e
  {
    Kept(sem, e) && forall p :: p in Parts(e) ==> KeptThroughout(sem, p)
  }

  lemma {:induction false} ListLowers(es: seq<SqlExpr>, e: SqlExpr)
    requires LowerAll(es).Some? && e in es
    ensures Lower(e).Some?
    decreases |es|
  {
    hide Lower;
    if e != es[|es| - 1] {
      assert e in es[..|es| - 1];
      ListLowers(es[..|es| - 1], e);
    }
  }

  lemma PartLowers(e: SqlExpr, p: SqlExpr)
    requires Lower(e).Some? && p in Parts(e)
    ensures Lower(p).Some?
  {
    match e
    case Function(_, args) => ListLowers(args, p);
    case InList(expr, list, _) => if p != expr { ListLowers(list, p); }
    case ArrayLiteral(items) => ListLowers(items, p);
    case Case(_, arms, _) =>
      if p in ArmParts(arms) {
        var i :| 0 <= i < |arms| && (p == arms[i].test || p == arms[i].value);
        ArmAt(arms, i);
      }
    case _ =>
  }

  /** At one `NOT BETWEEN` whose parts keep their meaning, the comparison is also
      needed. */
  lemma NodeMustCompare(sem: Semantics, e: SqlExpr)
    requires Lower(e).Some? && Kept(sem, e) && e.Between? && e.negated
    requires Kept(sem, e.expr) && Kept(sem, e.low) && Kept(sem, e.high)
    ensures NodeCompares(sem, e)
  {
    if Meaning(sem, e.expr).Some? && Meaning(sem, e.low).Some? && Meaning(sem, e.high).Some? {
      BetweenKeepsMeaning(sem, Lower(e.expr).value, Lower(e.low).value, Lower(e.high).value,
                          Meaning(sem, e.expr).value, Meaning(sem, e.low).value, Meaning(sem, e.high).value);
    }
  }

  /** An expression that lowers keeps its meaning throughout exactly when every
      `NOT BETWEEN` in it compares. */
  lemma {:induction false} KeptThroughoutIff(sem: Semantics, e: SqlExpr)
    requires Regular(sem) && Lower(e).Some?
    ensures KeptThroughout(sem, e) <==> Orderable(sem, e)
    decreases e
  {
    hide Kept;
    hide Regular;
    hide NodeCompares;
    hide Lower;
    forall p | p in Parts(e) ensures KeptThroughout(sem, p) <==> Orderable(sem, p) {
      PartLowers(e, p);
      KeptThroughoutIff(sem, p);
    }
    if Orderable(sem, e) { LoweringKeepsMeaning(sem, e); }
    if KeptThroughout(sem, e) { NodeKeeps(sem, e); }
  }

  lemma NodeKeeps(sem: Semantics, e: SqlExpr)
    requires Lower(e).Some? && KeptThroughout(sem, e)
    ensures NodeCompares(sem, e)
  {
    hide Kept;
    hide BoundsCompare;
    hide Lower;
    if e.Between? && e.negated {
      assert e.expr in Parts(e) && e.low in Parts(e) && e.high in Parts(e);
      NodeMustCompare(sem, e);
    }
  }

  // ── What lowers ───────────────────────────────────────────────────────────

  /** The expressions with no evaluator form of their own: a literal that has no
      value, a subquery, a wildcard, and a cast to an unknown type. */
  predicate Refused(e: SqlExpr) {
    e.Unwritable? || e.Subquery? || e.Wildcard? || (e.Cast? && e.to.None?)
  }

  /** Neither the expression nor any part of it is refused. */
  ghost predicate Writable(e: SqlExpr) {
    !Refused(e) && forall p :: p in Parts(e) ==> Writable(p)
  }

  lemma {:induction false} AllLower(es: seq<SqlExpr>)
    ensures LowerAll(es).Some? <==> forall i :: 0 <= i < |es| ==> Lower(es[i]).Some?
    decreases |es|
  {
    hide Lower;
    if es != [] {
      AllLower(es[..|es| - 1]);
    }
  }

  lemma {:induction false} AllArmsLower(arms: seq<SqlArm>)
    ensures LowerArms(arms).Some? <==> forall i :: 0 <= i < |arms| ==> LowerArm(arms[i]).Some?
    decreases |arms|
  {
    hide LowerArm;
    if arms != [] {
      AllArmsLower(arms[..|arms| - 1]);
    }
  }

  lemma ArmLowers(arm: SqlArm)
    ensures LowerArm(arm).Some? <==> Lower(arm.test).Some? && Lower(arm.value).Some?
  {
  }

  lemma {:induction false} ArmsLower(arms: seq<SqlArm>)
    ensures LowerArms(arms).Some? <==> forall p :: p in ArmParts(arms) ==> Lower(p).Some?
  {
    hide Lower;
    hide LowerArm;
    hide LowerArms;
    hide ArmParts;
    AllArmsLower(arms);
    if forall i :: 0 <= i < |arms| ==> LowerArm(arms[i]).Some? {
      forall p | p in ArmParts(arms) ensures Lower(p).Some? {
        var i :| 0 <= i < |arms| && (p == arms[i].test || p == arms[i].value);
        ArmLowers(arms[i]);
      }
    } else {
      var i :| 0 <= i < |arms| && LowerArm(arms[i]).None?;
      ArmLowers(arms[i]);
      assert arms[i].test in ArmParts(arms) && arms[i].value in ArmParts(arms);
    }
  }

  lemma CaseLowers(e: SqlExpr)
    requires e.Case?
    ensures Lower(e).Some? <==> (e.operand.Some? ==> Lower(e.operand.value).Some?) && LowerArms(e.arms).Some?
                                && (e.otherwise.Some? ==> Lower(e.otherwise.value).Some?)
  {
    hide LowerArms;
  }

  lemma CaseParts(e: SqlExpr)
    requires e.Case?
    ensures (forall p :: p in Parts(e) ==> Lower(p).Some?)
       <==> (e.operand.Some? ==> Lower(e.operand.value).Some?) && (forall p :: p in ArmParts(e.arms) ==> Lower(p).Some?)
            && (e.otherwise.Some? ==> Lower(e.otherwise.value).Some?)
  {
    hide Lower;
    hide ArmParts;
    assert forall p :: p in Parts(e) <==> p in OptionPart(e.operand) || p in ArmParts(e.arms) || p in OptionPart(e.otherwise);
    hide Parts;
    if e.operand.Some? { assert e.operand.value in OptionPart(e.operand); }
    if e.otherwise.Some? { assert e.otherwise.value in OptionPart(e.otherwise); }
  }

  /** An expression lowers exactly when it is not refused and its parts lower. */
  lemma LowersIff(e: SqlExpr)
    ensures Lower(e).Some? <==> !Refused(e) && forall p :: p in Parts(e) ==> Lower(p).Some?
  {
    if e.Case? {
      CaseLowers(e);
      ArmsLower(e.arms);
      CaseParts(e);
      hide Lower;
      hide LowerArms;
      hide Parts;
    } else {
      UncasedLowers(e);
    }
  }

  lemma UncasedLowers(e: SqlExpr)
    requires !e.Case?
    ensures Lower(e).Some? <==> !Refused(e) && forall p :: p in Parts(e) ==> Lower(p).Some?
  {
    if e.Function? || e.InList? || e.ArrayLiteral? { ManyPartsLower(e); } else { FewPartsLower(e); }
  }

  lemma FewPartsLower(e: SqlExpr)
    requires !e.Case? && !e.Function? && !e.InList? && !e.ArrayLiteral?
    ensures Lower(e).Some? <==> !Refused(e) && forall p :: p in Parts(e) ==> Lower(p).Some?
  {
    match e
    case Binary(left, _, right) => assert left in [left, right] && right in [left, right];
    case Between(expr, low, high, _) => assert expr in [expr, low, high] && low in [expr, low, high] && high in [expr, low, high];
    case Like(expr, pattern, _, _) => assert expr in [expr, pattern] && pattern in [expr, pattern];
    case Unary(_, expr) => assert expr in [expr];
    case Cast(expr, _) => assert expr in [expr];
    case IsNull(expr, _) => assert expr in [expr];
    case _ =>
  }

  lemma ManyPartsLower(e: SqlExpr)
    requires e.Function? || e.InList? || e.ArrayLiteral?
    ensures Lower(e).Some? <==> !Refused(e) && forall p :: p in Parts(e) ==> Lower(p).Some?
  {
    hide LowerAll;
    hide LowerIn;
    hide LowerArray;
    match e
    case Function(_, args) => AllLower(args);
    case InList(expr, list, _) =>
      AllLower(list);
      assert forall p :: p in [expr] + list <==> p == expr || p in list;
      assert expr in [expr] + list;
    case ArrayLiteral(items) => AllLower(items);
  }

  /** So what has no evaluator form is exactly what has a refused part. */
  lemma {:induction false} LowersIffWritable(e: SqlExpr)
    ensures Lower(e).Some? <==> Writable(e)
    decreases e
  {
    LowersIff(e);
    hide Lower;
    forall p | p in Parts(e) ensures Lower(p).Some? <==> Writable(p) { LowersIffWritable(p); }
    hide Parts;
  }

  // ── A test that loses its meaning ─────────────────────────────────────────

  lemma OneLiteralEvals(sem: Semantics, v: Value)
    ensures Eval(sem, QLiteral(v)) == Some(v)
  {
  }

  /** An evaluator that orders integers and nothing else. */
  ghost function IntegersOnly(): Semantics {
    Semantics(
      _ => Null, _ => Null, (_, _, _) => None,
      (a, b) => a == b,
      (a: Value, b: Value) =>
        if !a.Integer? || !b.Integer? then None
        else Some(if a.i < b.i then Less else if a.i == b.i then Equal else Greater),
      (v: Value) => if v.Bool? then Some(Bool(!v.b)) else Some(Null),
      (name, vs) => if name == "make_array" then Some(Array(vs)) else None,
      (_, _) => None)
  }

  lemma IntegersOnlyIsRegular()
    ensures Regular(IntegersOnly())
  {
  }

  /** A value it cannot order is, for SQL, not between 1 and 2; the lowered form
      says the opposite. */
  lemma NotBetweenDiffers(v: Value)
    requires !v.Null? && !v.Integer?
    ensures Regular(IntegersOnly())
    ensures var e := Between(Literal(v), Literal(Integer(1)), Literal(Integer(2)), true);
      && Lower(e).Some? && !Orderable(IntegersOnly(), e)
      && Meaning(IntegersOnly(), e) == Some(Bool(true)) && Eval(IntegersOnly(), Lower(e).value) == Some(Bool(false))
  {
    hide Eval;
    hide Regular;
    IntegersOnlyIsRegular();
    var sem, e := IntegersOnly(), Between(Literal(v), Literal(Integer(1)), Literal(Integer(2)), true);
    var q, one, two := QLiteral(v), QLiteral(Integer(1)), QLiteral(Integer(2));
    assert Lower(e) == Some(LowerBetween(q, one, two, true));
    OneLiteralEvals(sem, v);
    OneLiteralEvals(sem, Integer(1));
    OneLiteralEvals(sem, Integer(2));
    BetweenEvals(sem, q, one, two, v, Integer(1), Integer(2));
    assert !NodeCompares(sem, e);
  }
}
