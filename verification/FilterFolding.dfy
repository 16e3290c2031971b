/** `evalFilter`: folding constants in a filter, bottom-up, and dropping a filter that has become a constant. */
module FilterFolding {
  import opened Values
  import opened Expressions
  import MemoryTable

  predicate IsTrueLiteral(e: Expr) {
    e == Lit(Bool(true))
  }

  predicate IsFalseLiteral(e: Expr) {
    e == Lit(Bool(false))
  }

  function FoldOr(l: Expr, r: Expr): Expr {
    if IsTrueLiteral(l) then l
    else if IsTrueLiteral(r) then r
    else if IsFalseLiteral(l) then r
    else if IsFalseLiteral(r) then l
    else Or(l, r)
  }

  function FoldAnd(l: Expr, r: Expr): Expr {
    if IsFalseLiteral(l) then l
    else if IsFalseLiteral(r) then r
    else if IsTrueLiteral(l) then r
    else if IsTrueLiteral(r) then l
    else And(l, r)
  }

  /** Every other expression is evaluated once, if it needs no row. */
  function Literal(e: Expr): Expr {
    if IsEvaluable(e) && Eval(e, []).Ok? then Lit(Eval(e, []).value) else e
  }

  function Fold(e: Expr): Expr
    decreases e, 1
  {
    match e
    case Lit(_) => e
    case Subquery(_) => e
    case Field(_, _, _) => e
    case Or(l, r) => FoldOr(Fold(l), Fold(r))
    case And(l, r) => FoldAnd(Fold(l), Fold(r))
    case Cmp(op, l, r) => Literal(Cmp(op, Fold(l), Fold(r)))
    case InList(neg, x, list) => Literal(InList(neg, Fold(x), FoldAll(list)))
    case Between(x, lo, hi) => Literal(Between(Fold(x), Fold(lo), Fold(hi)))
    case Not(x) => Literal(Not(Fold(x)))
    case IsNull(x) => Literal(IsNull(Fold(x)))
  }

  function FoldAll(es: seq<Expr>): (r: seq<Expr>)
    ensures |r| == |es| && forall i | 0 <= i < |es| :: r[i] == Fold(es[i])
    decreases es, 0
  {
    if es == [] then [] else [Fold(es[0])] + FoldAll(es[1..])
  }

  /** The rows of the plan a filter node becomes: no rows, all rows, or those of the folded filter. */
  function FoldedFilterRows(e: Expr, rows: seq<Row>): seq<Row> {
    if IsFalseLiteral(Fold(e)) then []
    else if IsTrueLiteral(Fold(e)) then rows
    else MemoryTable.Filtered(Fold(e), rows)
  }

  // ----- what folding keeps

  /** Neither operand folds to the literal FALSE, so that the OR stays, or becomes TRUE. */
  predicate NoFalse(l: Expr, r: Expr) {
    !IsFalseLiteral(Fold(l)) && !IsFalseLiteral(Fold(r))
  }

  /** Neither operand folds to the literal TRUE, so that the AND stays, or becomes FALSE. */
  predicate NoTrue(l: Expr, r: Expr) {
    !IsTrueLiteral(Fold(l)) && !IsTrueLiteral(Fold(r))
  }

  /** Folding keeps the value.  AND and OR give a boolean or NULL; they are kept unless an operand takes their place. */
  predicate KeepsValue(e: Expr)
    decreases e, 0
  {
    match e
    case Lit(_) => true
    case Subquery(_) => true
    case Field(_, _, _) => true
    case Cmp(_, l, r) => KeepsValue(l) && KeepsValue(r)
    case InList(_, x, list) => KeepsValue(x) && forall y | y in list :: KeepsValue(y)
    case Between(x, lo, hi) => KeepsValue(x) && KeepsValue(lo) && KeepsValue(hi)
    case Not(x) => KeepsClass(x)
    case IsNull(x) => KeepsClass(x)
    case And(l, r) => KeepsClass(l) && KeepsClass(r) && NoTrue(l, r)
    case Or(l, r) => KeepsClass(l) && KeepsClass(r) && NoFalse(l, r)
  }

  /** Folding keeps whether the value is true, false or NULL: not so an OR with FALSE. */
  predicate KeepsClass(e: Expr)
    decreases e, 1
  {
    if e.And? then KeepsClass(e.l) && KeepsClass(e.r) else KeepsValue(e)
  }

  /** Folding keeps whether the value is true, in a positive position, or whether it is false, in a negative one: below
      an odd number of NOTs.  An OR in a positive position may have any operands. */
  predicate Keeps(e: Expr, positive: bool) {
    match e
    case And(l, r) => Keeps(l, positive) && Keeps(r, positive)
    case Or(l, r) => if positive then Keeps(l, true) && Keeps(r, true) else KeepsClass(e)
    case Not(x) => Keeps(x, !positive)
    case _ => KeepsValue(e)
  }

  /** What keeps its class is kept in every position. */
  lemma {:induction false} ClassIsKept(e: Expr, positive: bool)
    requires KeepsClass(e)
    ensures Keeps(e, positive)
  {
    match e
    case And(l, r) => ClassIsKept(l, positive); ClassIsKept(r, positive);
    case Or(l, r) => ClassIsKept(l, true); ClassIsKept(r, true);
    case Not(x) => ClassIsKept(x, !positive);
    case _ =>
  }

  datatype Class = Unknown | True | False

  function ClassOf(v: Value): Class {
    if v == Null then Unknown else if Truthy(v) then True else False
  }

  /** The folded expression evaluates, and agrees with the expression as far as promised. */
  predicate Agrees(e: Expr, f: Expr, row: Row) {
    && InRange(f, |row|) && Eval(e, row).Ok? && Eval(f, row).Ok?
    && (KeepsValue(e) ==> Eval(f, row) == Eval(e, row))
    && (KeepsClass(e) ==> ClassOf(Eval(f, row).value) == ClassOf(Eval(e, row).value))
    && (Keeps(e, true) ==> Truthy(Eval(f, row).value) == Truthy(Eval(e, row).value))
    && (Keeps(e, false) ==> Falsy(Eval(f, row).value) == Falsy(Eval(e, row).value))
  }

  lemma {:induction false} LiteralKeeps(e: Expr, row: Row)
    requires InRange(e, |row|)
    ensures InRange(Literal(e), |row|) && Eval(Literal(e), row) == Eval(e, row) && Eval(e, row).Ok?
  {
    InRangeEvaluates(e, row);
    if IsEvaluable(e) { EvaluableIsConstant(e, row); }
  }

  lemma {:induction false} OrIs(l: Expr, r: Expr, row: Row)
    requires Eval(l, row).Ok? && Eval(r, row).Ok?
    ensures Eval(Or(l, r), row) == Ok(EvalOr(Eval(l, row).value, Eval(r, row).value))
  {
  }

  /** What becomes of an OR of folded operands. */
  lemma {:induction false} FoldOrIs(l: Expr, r: Expr, row: Row)
    requires InRange(l, |row|) && InRange(r, |row|) && Eval(l, row).Ok? && Eval(r, row).Ok?
    ensures InRange(FoldOr(l, r), |row|) && Eval(FoldOr(l, r), row).Ok?
    ensures Truthy(Eval(FoldOr(l, r), row).value) <==> Truthy(Eval(l, row).value) || Truthy(Eval(r, row).value)
    ensures !IsFalseLiteral(l) && !IsFalseLiteral(r) ==>
      Eval(FoldOr(l, r), row).value == EvalOr(Eval(l, row).value, Eval(r, row).value)
  {
    OrIs(l, r, row);
  }

  lemma {:induction false} OrAgrees(l: Expr, r: Expr, row: Row)
    requires Agrees(l, Fold(l), row) && Agrees(r, Fold(r), row)
    ensures Agrees(Or(l, r), FoldOr(Fold(l), Fold(r)), row)
  {
    OrIs(l, r, row);
    FoldOrIs(Fold(l), Fold(r), row);
  }

  lemma {:induction false} AndIs(l: Expr, r: Expr, row: Row)
    requires Eval(l, row).Ok? && Eval(r, row).Ok?
    ensures Eval(And(l, r), row) == Ok(EvalAnd(Eval(l, row).value, Eval(r, row).value))
  {
  }

  /** What becomes of an AND of folded operands. */
  lemma {:induction false} FoldAndIs(l: Expr, r: Expr, row: Row)
    requires InRange(l, |row|) && InRange(r, |row|) && Eval(l, row).Ok? && Eval(r, row).Ok?
    ensures InRange(FoldAnd(l, r), |row|) && Eval(FoldAnd(l, r), row).Ok?
    ensures ClassOf(Eval(FoldAnd(l, r), row).value) == ClassOf(EvalAnd(Eval(l, row).value, Eval(r, row).value))
    ensures !IsTrueLiteral(l) && !IsTrueLiteral(r) ==>
      Eval(FoldAnd(l, r), row).value == EvalAnd(Eval(l, row).value, Eval(r, row).value)
  {
    AndIs(l, r, row);
  }

  /** AND is true iff both operands are, and false iff one of them is; its value follows from their classes. */
  lemma {:induction false} AndMeans(a: Value, b: Value)
    ensures Truthy(EvalAnd(a, b)) <==> Truthy(a) && Truthy(b)
    ensures Falsy(EvalAnd(a, b)) <==> Falsy(a) || Falsy(b)
    ensures forall c, d :: ClassOf(c) == ClassOf(a) && ClassOf(d) == ClassOf(b) ==> EvalAnd(c, d) == EvalAnd(a, b)
  {
  }

  lemma {:induction false} AndAgrees(l: Expr, r: Expr, row: Row)
    requires Agrees(l, Fold(l), row) && Agrees(r, Fold(r), row)
    ensures Agrees(And(l, r), FoldAnd(Fold(l), Fold(r)), row)
  {
    AndIs(l, r, row);
    FoldAndIs(Fold(l), Fold(r), row);
    AndMeans(Eval(l, row).value, Eval(r, row).value);
    AndMeans(Eval(Fold(l), row).value, Eval(Fold(r), row).value);
  }

  lemma {:induction false} MembersAgree(v: Value, list: seq<Expr>, list': seq<Expr>, row: Row)
    requires |list| == |list'| && forall i | 0 <= i < |list| :: Eval(list'[i], row) == Eval(list[i], row)
    ensures EvalMember(v, list', row) == EvalMember(v, list, row)
  {
    if list != [] {
      MembersAgree(v, list[1..], list'[1..], row);
    }
  }

  lemma {:induction false} FoldAgrees(e: Expr, row: Row)
    requires InRange(e, |row|)
    ensures Agrees(e, Fold(e), row)
    decreases e
  {
    InRangeEvaluates(e, row);
    match e
    case Lit(_) =>
    case Subquery(_) =>
    case Field(_, _, _) =>
    case Or(l, r) => FoldAgrees(l, row); FoldAgrees(r, row); OrAgrees(l, r, row);
    case And(l, r) => FoldAgrees(l, row); FoldAgrees(r, row); AndAgrees(l, r, row);
    case Cmp(op, l, r) =>
      FoldAgrees(l, row);
      FoldAgrees(r, row);
      LiteralKeeps(Cmp(op, Fold(l), Fold(r)), row);
    case InList(neg, x, list) =>
      FoldAgrees(x, row);
      ListAgrees(neg, x, list, row);
    case Between(x, lo, hi) =>
      FoldAgrees(x, row);
      FoldAgrees(lo, row);
      FoldAgrees(hi, row);
      LiteralKeeps(Between(Fold(x), Fold(lo), Fold(hi)), row);
    case Not(x) =>
      FoldAgrees(x, row);
      LiteralKeeps(Not(Fold(x)), row);
    case IsNull(x) =>
      FoldAgrees(x, row);
      LiteralKeeps(IsNull(Fold(x)), row);
  }

  lemma {:induction false} ListAgrees(neg: bool, x: Expr, list: seq<Expr>, row: Row)
    requires InRange(InList(neg, x, list), |row|) && Eval(InList(neg, x, list), row).Ok? && Agrees(x, Fold(x), row)
    ensures Agrees(InList(neg, x, list), Fold(InList(neg, x, list)), row)
    decreases list
  {
    var e, e' := InList(neg, x, list), InList(neg, Fold(x), FoldAll(list));
    forall i | 0 <= i < |list| ensures Agrees(list[i], e'.list[i], row) { FoldAgrees(list[i], row); }
    assert InRange(e', |row|) by {
      forall y | y in e'.list ensures InRange(y, |row|) {
        var i :| 0 <= i < |e'.list| && e'.list[i] == y;
        assert Agrees(list[i], e'.list[i], row);
      }
    }
    LiteralKeeps(e', row);
    if KeepsValue(e) && Eval(x, row).value != Null {
      forall i | 0 <= i < |list| ensures Eval(e'.list[i], row) == Eval(list[i], row) {
        assert list[i] in list && Agrees(list[i], e'.list[i], row);
      }
      MembersAgree(Eval(x, row).value, list, e'.list, row);
    }
  }

  // ----- nothing is left to fold

  /** No AND or OR has a TRUE or FALSE for an operand, and no other operator has constant operands only. */
  predicate Folded(e: Expr) {
    match e
    case Lit(_) => true
    case Subquery(_) => true
    case Field(_, _, _) => true
    case Or(l, r) => Folded(l) && Folded(r) && NoTruthLiteral(l) && NoTruthLiteral(r)
    case And(l, r) => Folded(l) && Folded(r) && NoTruthLiteral(l) && NoTruthLiteral(r)
    case Cmp(_, l, r) => Folded(l) && Folded(r) && !IsEvaluable(e)
    case InList(_, x, list) => Folded(x) && (forall y | y in list :: Folded(y)) && !IsEvaluable(e)
    case Between(x, lo, hi) => Folded(x) && Folded(lo) && Folded(hi) && !IsEvaluable(e)
    case Not(x) => Folded(x) && !IsEvaluable(e)
    case IsNull(x) => Folded(x) && !IsEvaluable(e)
  }

  predicate NoTruthLiteral(e: Expr) {
    e != Lit(Bool(true)) && e != Lit(Bool(false))
  }

  lemma {:induction false} LiteralIsFolded(e: Expr)
    ensures if IsEvaluable(e) then Literal(e).Lit? else Literal(e) == e
  {
    if IsEvaluable(e) { EvaluableIsConstant(e, []); }
  }

  /** One pass folds all there is to fold. */
  lemma {:induction false} FoldIsFolded(e: Expr)
    ensures Folded(Fold(e))
    decreases e
  {
    match e
    case Lit(_) =>
    case Subquery(_) =>
    case Field(_, _, _) =>
    case Or(l, r) => FoldIsFolded(l); FoldIsFolded(r);
    case And(l, r) => FoldIsFolded(l); FoldIsFolded(r);
    case Cmp(op, l, r) => FoldIsFolded(l); FoldIsFolded(r); LiteralIsFolded(Cmp(op, Fold(l), Fold(r)));
    case InList(neg, x, list) =>
      FoldIsFolded(x);
      FoldedList(list);
      LiteralIsFolded(InList(neg, Fold(x), FoldAll(list)));
    case Between(x, lo, hi) =>
      FoldIsFolded(x);
      FoldIsFolded(lo);
      FoldIsFolded(hi);
      LiteralIsFolded(Between(Fold(x), Fold(lo), Fold(hi)));
    case Not(x) => FoldIsFolded(x); LiteralIsFolded(Not(Fold(x)));
    case IsNull(x) => FoldIsFolded(x); LiteralIsFolded(IsNull(Fold(x)));
  }

  lemma {:induction false} FoldedList(list: seq<Expr>)
    ensures forall y | y in FoldAll(list) :: Folded(y)
    decreases list
  {
    forall y | y in FoldAll(list) ensures Folded(y) {
      var i :| 0 <= i < |list| && FoldAll(list)[i] == y;
      FoldIsFolded(list[i]);
    }
  }

  /** A folded filter is left as it is. */
  lemma {:induction false} FoldedStays(e: Expr)
    requires Folded(e)
    ensures Fold(e) == e
    decreases e
  {
    match e
    case Lit(_) =>
    case Subquery(_) =>
    case Field(_, _, _) =>
    case Or(l, r) => FoldedStays(l); FoldedStays(r);
    case And(l, r) => FoldedStays(l); FoldedStays(r);
    case Cmp(_, l, r) => FoldedStays(l); FoldedStays(r);
    case InList(_, x, list) =>
      FoldedStays(x);
      forall i | 0 <= i < |list| ensures Fold(list[i]) == list[i] { FoldedStays(list[i]); }
      assert FoldAll(list) == list;
    case Between(x, lo, hi) => FoldedStays(x); FoldedStays(lo); FoldedStays(hi);
    case Not(x) => FoldedStays(x);
    case IsNull(x) => FoldedStays(x);
  }

  // ----- the rows stay

  lemma {:induction false} SameFilter(e: Expr, f: Expr, rows: seq<Row>)
    requires forall r | r in rows :: Holds(e, r) == Holds(f, r)
    ensures MemoryTable.Filtered(e, rows) == MemoryTable.Filtered(f, rows)
  {
    if rows != [] {
      SameFilter(e, f, rows[1..]);
      assert rows[0] in rows;
    }
  }

  lemma {:induction false} ConstantFilter(e: Expr, rows: seq<Row>)
    ensures IsTrueLiteral(e) ==> MemoryTable.Filtered(e, rows) == rows
    ensures IsFalseLiteral(e) ==> MemoryTable.Filtered(e, rows) == []
  {
    if rows != [] { ConstantFilter(e, rows[1..]); }
  }

  /** A filter keeps exactly its rows if its ORs with FALSE are in positive positions. */
  lemma {:induction false} FoldingKeepsRows(e: Expr, rows: seq<Row>)
    requires Keeps(e, true) && forall r | r in rows :: InRange(e, |r|)
    ensures FoldedFilterRows(e, rows) == MemoryTable.Filtered(e, rows)
  {
    forall r | r in rows ensures Holds(e, r) == Holds(Fold(e), r) {
      FoldAgrees(e, r);
    }
    SameFilter(e, Fold(e), rows);
    ConstantFilter(Fold(e), rows);
  }

  /** Below NOT the OR rule goes wrong: `NOT (FALSE OR x)` becomes `NOT x`, which keeps the same rows iff x is not
      NULL on them. */
  lemma {:induction false} NegatedOrFolds(x: Expr, row: Row)
    requires Eval(x, row).Ok?
    ensures FoldOr(Lit(Bool(false)), x) == if IsTrueLiteral(x) then Lit(Bool(true)) else x
    ensures (Holds(Not(FoldOr(Lit(Bool(false)), x)), row) <==> Holds(Not(Or(Lit(Bool(false)), x)), row)) <==>
      Eval(x, row) != Ok(Null)
  {
    var v := Eval(x, row).value;
    assert Eval(Or(Lit(Bool(false)), x), row) == Ok(Bool(Truthy(v)));
    assert Eval(Not(Or(Lit(Bool(false)), x)), row) == Ok(Bool(!Truthy(v)));
    assert Eval(Not(x), row) == Ok(Negate(v));
  }

  /** Inside a comparison the AND rule goes wrong: `(TRUE AND x) = n` becomes `x = n`, which has the same value iff
      x is NULL or one of the numbers 0 and 1, or n is neither x nor 1. */
  lemma {:induction false} ComparedAndFolds(x: Expr, n: int, row: Row)
    requires Eval(x, row).Ok? && !IsFalseLiteral(x)
    ensures var (v, folded) := (Eval(x, row).value, FoldAnd(Lit(Bool(true)), x));
      Eval(Cmp(Eq, folded, Lit(Int(n))), row) == Eval(Cmp(Eq, And(Lit(Bool(true)), x), Lit(Int(n))), row) <==>
        v == Null || 0 <= AsInt(v) <= 1 || (n != AsInt(v) && n != 1)
  {
    assert FoldAnd(Lit(Bool(true)), x) == x;
    var v := Eval(x, row).value;
    assert Eval(And(Lit(Bool(true)), x), row) == Ok(if v == Null then Null else Bool(Truthy(v)));
  }
}
