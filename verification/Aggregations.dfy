/** `fixAggregations`: an expression that hides aggregations is split into a GROUP BY that computes them and a
    projection above it that combines their values. */
module Aggregations {
  import opened Values
  import opened Expressions
  import opened GroupBy

  datatype UnaryOp = NotOp | IsNullOp

  datatype BinaryOp = CmpOf(op: CmpOp) | AndOp | OrOp

  /** A selected expression with aggregations in it. */
  datatype AExpr =
    | Scalar(e: Expr)                    // no aggregation inside
    | Aggr(fn: Aggregation, arg: Expr)
    | Unary(uop: UnaryOp, a: AExpr)
    | Binary(bop: BinaryOp, a: AExpr, b: AExpr)

  function BuildUnary(op: UnaryOp, x: Expr): Expr {
    match op
    case NotOp => Not(x)
    case IsNullOp => IsNull(x)
  }

  function BuildBinary(op: BinaryOp, x: Expr, y: Expr): Expr {
    match op
    case CmpOf(c) => Cmp(c, x, y)
    case AndOp => And(x, y)
    case OrOp => Or(x, y)
  }

  predicate ContainsAggregation(p: AExpr) {
    match p
    case Scalar(_) => false
    case Aggr(_, _) => true
    case Unary(_, a) => ContainsAggregation(a)
    case Binary(_, a, b) => ContainsAggregation(a) || ContainsAggregation(b)
  }

  /** An aggregation that is not the whole expression. */
  predicate ContainsHiddenAggregation(p: AExpr) {
    !p.Aggr? && ContainsAggregation(p)
  }

  /** An expression without aggregations as it is; an aggregation counts as its argument. */
  function AsExpr(p: AExpr): Expr {
    match p
    case Scalar(e) => e
    case Aggr(_, e) => e
    case Unary(op, a) => BuildUnary(op, AsExpr(a))
    case Binary(op, a, b) => BuildBinary(op, AsExpr(a), AsExpr(b))
  }

  /** The bottom-up rewrite: each aggregation becomes a reference to the next position of the GROUP BY. */
  function Hoist(p: AExpr, n: nat): (Expr, seq<Output>) {
    match p
    case Scalar(e) => (e, [])
    case Aggr(fn, e) => (Field(n, "", ""), [Aggregate(fn, e)])
    case Unary(op, a) =>
      var (x, xs) := Hoist(a, n);
      (BuildUnary(op, x), xs)
    case Binary(op, a, b) =>
      var (x, xs) := Hoist(a, n);
      var (y, ys) := Hoist(b, n + |xs|);
      (BuildBinary(op, x, y), xs + ys)
  }

  /** One round of the loop of `fixAggregations`: an expression without aggregation is computed by the GROUP BY as
      a whole. */
  function Fix(p: AExpr, n: nat): (Expr, seq<Output>) {
    if ContainsAggregation(p) then Hoist(p, n)
    else (Field(n, "", ""), [Plain(AsExpr(p))])
  }

  function FixAll(ps: seq<AExpr>): (seq<Expr>, seq<Output>) {
    if ps == [] then ([], [])
    else
      var last := |ps| - 1;
      var (es, os) := FixAll(ps[..last]);
      var (e, added) := Fix(ps[last], |os|);
      (es + [e], os + added)
  }

  /** The loop of `fixAggregations`. */
  method FixAggregations(projection: seq<AExpr>) returns (newProjection: seq<Expr>, aggregate: seq<Output>)
    ensures (newProjection, aggregate) == FixAll(projection)
  {
    newProjection, aggregate := [], [];
    for i := 0 to |projection|
      invariant (newProjection, aggregate) == FixAll(projection[..i])
    {
      assert projection[..i + 1][..i] == projection[..i];
      var (e, added) := Fix(projection[i], |aggregate|);
      newProjection, aggregate := newProjection + [e], aggregate + added;
    }
    assert projection[..|projection|] == projection;
  }

  // ----- what an expression with aggregations means

  function UnaryValue(op: UnaryOp, v: Value): Value {
    match op
    case NotOp => Negate(v)
    case IsNullOp => Bool(v == Null)
  }

  /** The value of an operator from those of its operands; AND and OR do not look at the second one if the first one
      decides. */
  function BinaryValue(op: BinaryOp, x: Result<Value>, y: Result<Value>): Result<Value> {
    var v :- x;
    if (op == AndOp && Falsy(v)) || (op == OrOp && Truthy(v)) then Ok(Bool(Truthy(v))) else
    var w :- y;
    Ok(match op
       case CmpOf(c) => CompareValues(c, v, w)
       case AndOp => EvalAnd(v, w)
       case OrOp => EvalOr(v, w))
  }

  /** The value of an expression on a row, given the values of the aggregations. */
  function ValueOf(p: AExpr, value: (Aggregation, Expr) -> Value, row: Row): Result<Value> {
    match p
    case Scalar(e) => Eval(e, row)
    case Aggr(fn, e) => Ok(value(fn, e))
    case Unary(op, a) =>
      var v :- ValueOf(a, value, row);
      Ok(UnaryValue(op, v))
    case Binary(op, a, b) => BinaryValue(op, ValueOf(a, value, row), ValueOf(b, value, row))
  }

  /** The aggregations of an expression, from left to right. */
  function Occurring(p: AExpr): seq<Output> {
    match p
    case Scalar(_) => []
    case Aggr(fn, e) => [Aggregate(fn, e)]
    case Unary(_, a) => Occurring(a)
    case Binary(_, a, b) => Occurring(a) + Occurring(b)
  }

  /** The value of an aggregation over the rows of a group. */
  ghost function GroupValue(rows: seq<Row>): (v: (Aggregation, Expr) -> Value)
    ensures forall fn, e ::
      v(fn, e) == if Folded(Aggregate(fn, e), rows).Ok? then Finish(Folded(Aggregate(fn, e), rows).value) else Null
  {
    (fn, e) => if Folded(Aggregate(fn, e), rows).Ok? then Finish(Folded(Aggregate(fn, e), rows).value) else Null
  }

  /** The row on which a group evaluates what is not an aggregation; an empty group has no column. */
  function LastRow(rows: seq<Row>): Row {
    if rows == [] then [] else rows[|rows| - 1]
  }

  /** What the query means by the expression for a group: its value on the last row of the group, each aggregation
      having its value for the group.  Without aggregations an empty group has NULL. */
  ghost function Meaning(p: AExpr, rows: seq<Row>): Result<Value> {
    if rows == [] && Occurring(p) == [] then Ok(Null) else ValueOf(p, GroupValue(rows), LastRow(rows))
  }

  // ----- which expressions are hoisted, and which aggregations the GROUP BY gets

  lemma {:induction false} ContainsIffOccurs(p: AExpr)
    ensures ContainsAggregation(p) <==> Occurring(p) != []
  {
    match p
    case Scalar(_) =>
    case Aggr(_, _) =>
    case Unary(_, a) => ContainsIffOccurs(a);
    case Binary(_, a, b) => ContainsIffOccurs(a); ContainsIffOccurs(b);
  }

  /** An aggregation is hidden iff it occurs in an operand of the expression. */
  lemma {:induction false} HiddenIffBelow(p: AExpr)
    ensures ContainsHiddenAggregation(p) <==>
      (p.Unary? && Occurring(p.a) != []) || (p.Binary? && Occurring(p.a) + Occurring(p.b) != [])
  {
    ContainsIffOccurs(p);
  }

  lemma {:induction false} HoistLists(p: AExpr, n: nat)
    ensures Hoist(p, n).1 == Occurring(p)
  {
    match p
    case Scalar(_) =>
    case Aggr(_, _) =>
    case Unary(_, a) => HoistLists(a, n);
    case Binary(_, a, b) => HoistLists(a, n); HoistLists(b, n + |Hoist(a, n).1|);
  }

  /** What an expression needs from the GROUP BY: its aggregations in order, or, if it has none, itself. */
  function Needed(p: AExpr): seq<Output> {
    if Occurring(p) == [] then [Plain(AsExpr(p))] else Occurring(p)
  }

  function NeededByAll(ps: seq<AExpr>): seq<Output> {
    if ps == [] then [] else NeededByAll(ps[..|ps| - 1]) + Needed(ps[|ps| - 1])
  }

  /** The GROUP BY computes exactly the aggregations that occur in the projection, and the expressions without. */
  lemma {:induction false} FixAllLists(ps: seq<AExpr>)
    ensures FixAll(ps).1 == NeededByAll(ps)
    decreases |ps|
  {
    if ps != [] {
      var last := |ps| - 1;
      FixAllLists(ps[..last]);
      ContainsIffOccurs(ps[last]);
      HoistLists(ps[last], |FixAll(ps[..last]).1|);
    }
  }

  // ----- the rewrite is a substitution

  /** The parts outside aggregations have the same value on both rows. */
  predicate OutsideAgrees(p: AExpr, out: Row, last: Row) {
    match p
    case Scalar(e) => Eval(e, out) == Eval(e, last)
    case Aggr(_, _) => true
    case Unary(_, a) => OutsideAgrees(a, out, last)
    case Binary(_, a, b) => OutsideAgrees(a, out, last) && OutsideAgrees(b, out, last)
  }

  /** Columns occur inside aggregations only. */
  predicate ColumnsInside(p: AExpr) {
    match p
    case Scalar(e) => IsEvaluable(e)
    case Aggr(_, _) => true
    case Unary(_, a) => ColumnsInside(a)
    case Binary(_, a, b) => ColumnsInside(a) && ColumnsInside(b)
  }

  /** The outputs are those at this position of the GROUP BY. */
  predicate At(all: seq<Output>, n: nat, os: seq<Output>) {
    n + |os| <= |all| && all[n..n + |os|] == os
  }

  /** The values of the aggregations are those in the output row. */
  predicate ValuesAt(all: seq<Output>, out: Row, value: (Aggregation, Expr) -> Value) {
    && |out| == |all|
    && forall i | 0 <= i < |all| && all[i].Aggregate? :: value(all[i].fn, all[i].arg) == out[i]
  }

  lemma {:induction false} UnaryBuilt(op: UnaryOp, x: Expr, row: Row)
    ensures Eval(BuildUnary(op, x), row) == if Eval(x, row).Ok? then Ok(UnaryValue(op, Eval(x, row).value)) else Err
  {
  }

  lemma {:induction false} CmpBuilt(c: CmpOp, x: Expr, y: Expr, row: Row)
    ensures Eval(Cmp(c, x, y), row) == BinaryValue(CmpOf(c), Eval(x, row), Eval(y, row))
  {
  }

  lemma {:induction false} AndBuilt(x: Expr, y: Expr, row: Row)
    ensures Eval(And(x, y), row) == BinaryValue(AndOp, Eval(x, row), Eval(y, row))
  {
  }

  lemma {:induction false} OrBuilt(x: Expr, y: Expr, row: Row)
    ensures Eval(Or(x, y), row) == BinaryValue(OrOp, Eval(x, row), Eval(y, row))
  {
  }

  lemma {:induction false} BinaryBuilt(op: BinaryOp, x: Expr, y: Expr, row: Row)
    ensures Eval(BuildBinary(op, x, y), row) == BinaryValue(op, Eval(x, row), Eval(y, row))
  {
    match op
    case CmpOf(c) => CmpBuilt(c, x, y, row);
    case AndOp => AndBuilt(x, y, row);
    case OrOp => OrBuilt(x, y, row);
  }

  /** An expression without aggregations has its own value, whatever aggregations are worth. */
  lemma {:induction false} AsExprMeans(p: AExpr, value: (Aggregation, Expr) -> Value, row: Row)
    requires !ContainsAggregation(p)
    ensures Eval(AsExpr(p), row) == ValueOf(p, value, row)
  {
    match p
    case Scalar(_) =>
    case Unary(op, a) =>
      AsExprMeans(a, value, row);
      UnaryBuilt(op, AsExpr(a), row);
    case Binary(op, a, b) =>
      AsExprMeans(a, value, row);
      AsExprMeans(b, value, row);
      BinaryBuilt(op, AsExpr(a), AsExpr(b), row);
  }

  /** Columns inside aggregations only: there is nothing outside to disagree on. */
  lemma {:induction false} ColumnsInsideAgree(p: AExpr, out: Row, last: Row)
    requires ColumnsInside(p)
    ensures OutsideAgrees(p, out, last)
  {
    match p
    case Scalar(e) => EvaluableIsConstant(e, out); EvaluableIsConstant(e, last);
    case Aggr(_, _) =>
    case Unary(_, a) => ColumnsInsideAgree(a, out, last);
    case Binary(_, a, b) => ColumnsInsideAgree(a, out, last); ColumnsInsideAgree(b, out, last);
  }

  /** On the output row the hoisted expression has the value of the expression on the last row, each aggregation having
      its value. */
  lemma {:induction false} HoistMeans(p: AExpr, n: nat, all: seq<Output>, value: (Aggregation, Expr) -> Value, out: Row,
                                      last: Row)
    requires OutsideAgrees(p, out, last) && At(all, n, Hoist(p, n).1) && ValuesAt(all, out, value)
    ensures Eval(Hoist(p, n).0, out) == ValueOf(p, value, last)
  {
    match p
    case Scalar(e) =>
    case Aggr(fn, e) =>
      assert all[n] == all[n..n + 1][0] == Aggregate(fn, e);
    case Unary(op, a) =>
      HoistMeans(a, n, all, value, out, last);
      UnaryBuilt(op, Hoist(a, n).0, out);
    case Binary(op, a, b) =>
      var m := n + |Hoist(a, n).1|;
      AtSplits(all, n, Hoist(a, n).1, Hoist(b, m).1);
      HoistMeans(a, n, all, value, out, last);
      HoistMeans(b, m, all, value, out, last);
      BinaryBuilt(op, Hoist(a, n).0, Hoist(b, m).0, out);
  }

  lemma {:induction false} AtSplits(all: seq<Output>, n: nat, xs: seq<Output>, ys: seq<Output>)
    requires At(all, n, xs + ys)
    ensures At(all, n, xs) && At(all, n + |xs|, ys)
  {
    assert all[n..n + |xs|] == all[n..n + |xs| + |ys|][..|xs|];
    assert all[n + |xs|..n + |xs| + |ys|] == all[n..n + |xs| + |ys|][|xs|..];
  }

  lemma {:induction false} FixMeans(p: AExpr, n: nat, all: seq<Output>, rows: seq<Row>, out: Row)
    requires ContainsAggregation(p) ==> OutsideAgrees(p, out, LastRow(rows))
    requires At(all, n, Fix(p, n).1) && IsGroupRow(all, rows, out)
    ensures Eval(Fix(p, n).0, out) == Meaning(p, rows)
  {
    ContainsIffOccurs(p);
    if ContainsAggregation(p) {
      HoistMeans(p, n, all, GroupValue(rows), out, LastRow(rows));
    } else {
      assert all[n] == all[n..n + 1][0] == Plain(AsExpr(p));
      PlainMeans(AsExpr(p), rows);
      AsExprMeans(p, GroupValue(rows), LastRow(rows));
      if rows != [] { PlainIsDefined(AsExpr(p), rows); }
    }
  }

  lemma {:induction false} PlainIsDefined(e: Expr, rows: seq<Row>)
    requires Folded(Plain(e), rows).Ok? && rows != []
    ensures Eval(e, LastRow(rows)).Ok?
  {
  }

  /** Every new projection, on the output row of the new GROUP BY, is what the query means by the expression, if
      what stays outside aggregations has the same value on the output row as on the last row of the group. */
  lemma {:induction false} HoistingIsCorrect(ps: seq<AExpr>, all: seq<Output>, rows: seq<Row>, out: Row, i: nat)
    requires i < |ps| && forall p | p in ps :: ContainsAggregation(p) ==> OutsideAgrees(p, out, LastRow(rows))
    requires FixAll(ps).1 <= all && IsGroupRow(all, rows, out)
    ensures |FixAll(ps).0| == |ps| && Eval(FixAll(ps).0[i], out) == Meaning(ps[i], rows)
    decreases |ps|
  {
    var last := |ps| - 1;
    var (es, os) := FixAll(ps[..last]);
    var added := Fix(ps[last], |os|).1;
    assert ps[last] in ps && forall p | p in ps[..last] :: p in ps;
    FixAllLength(ps[..last]);
    assert os <= os + added <= all;
    if i < last {
      HoistingIsCorrect(ps[..last], all, rows, out, i);
    } else {
      assert all[|os|..|os| + |added|] == (os + added)[|os|..];
      FixMeans(ps[last], |os|, all, rows, out);
    }
  }

  lemma {:induction false} FixAllLength(ps: seq<AExpr>)
    ensures |FixAll(ps).0| == |ps|
    decreases |ps|
  {
    if ps != [] { FixAllLength(ps[..|ps| - 1]); }
  }

  /** The GROUP BY of expressions that hide no aggregation, which is left as it is. */
  function Direct(ps: seq<AExpr>): (os: seq<Output>)
    ensures |os| == |ps|
  {
    seq(|ps|, i requires 0 <= i < |ps| =>
      if ps[i].Aggr? then Aggregate(ps[i].fn, ps[i].arg) else Plain(AsExpr(ps[i])))
  }

  /** Without a hidden aggregation the GROUP BY computes what the query means by itself, columns or not. */
  lemma {:induction false} UnhiddenNeedsNoHoisting(ps: seq<AExpr>, rows: seq<Row>, out: Row, i: nat)
    requires i < |ps| && !ContainsHiddenAggregation(ps[i]) && IsGroupRow(Direct(ps), rows, out)
    ensures Meaning(ps[i], rows) == Ok(out[i])
  {
    var o := Direct(ps)[i];
    assert Folded(o, rows).Ok? && out[i] == Finish(Folded(o, rows).value);
    ContainsIffOccurs(ps[i]);
    if !ps[i].Aggr? {
      PlainMeans(o.e, rows);
      AsExprMeans(ps[i], GroupValue(rows), LastRow(rows));
      if rows != [] { PlainIsDefined(o.e, rows); }
    }
  }

  // ----- columns beside aggregations

  /** A comparison of a column with an aggregation. */
  function Beside(op: CmpOp, c: Expr, fn: Aggregation, x: Expr): AExpr {
    Binary(CmpOf(op), Scalar(c), Aggr(fn, x))
  }

  /** Two values are on the same side of a third, and NULL together. */
  predicate SameRank(a: Value, b: Value, v: Value) {
    v == Null || (if a == Null || b == Null then a == b else Sign(AsInt(a) - AsInt(v)) == Sign(AsInt(b) - AsInt(v)))
  }

  function Sign(n: int): int {
    if n < 0 then -1 else if n == 0 then 0 else 1
  }

  lemma {:induction false} RankDecides(a: Value, b: Value, v: Value)
    ensures (forall op :: CompareValues(op, a, v) == CompareValues(op, b, v)) <==> SameRank(a, b, v)
  {
    if forall op :: CompareValues(op, a, v) == CompareValues(op, b, v) {
      assert CompareValues(Lt, a, v) == CompareValues(Lt, b, v);
      assert CompareValues(Gt, a, v) == CompareValues(Gt, b, v);
    } else if SameRank(a, b, v) {
      var op :| CompareValues(op, a, v) != CompareValues(op, b, v);
      match op
      case Eq =>
      case Lt =>
      case Le =>
      case Gt =>
      case Ge =>
    }
  }

  /** The hoisted comparison reads the output at the place of the column, the query the column itself. */
  lemma {:induction false} BesideMeans(op: CmpOp, c: Expr, fn: Aggregation, x: Expr, n: nat, all: seq<Output>,
                                       rows: seq<Row>, out: Row)
    requires c.Field? && At(all, n, [Aggregate(fn, x)]) && IsGroupRow(all, rows, out)
    ensures var v := out[n];
      && Eval(Hoist(Beside(op, c, fn, x), n).0, out) ==
        (if 0 <= c.idx < |out| then Ok(CompareValues(op, out[c.idx], v)) else Err)
      && Meaning(Beside(op, c, fn, x), rows)
         == (if 0 <= c.idx < |LastRow(rows)| then Ok(CompareValues(op, LastRow(rows)[c.idx], v)) else Err)
  {
    var p := Beside(op, c, fn, x);
    assert all[n] == all[n..n + 1][0] == Aggregate(fn, x);
    assert Hoist(p.a, n) == (c, []) && Hoist(p.b, n).0 == Field(n, "", "");
    assert Hoist(p, n).0 == Cmp(op, c, Field(n, "", ""));
    ComparedColumn(op, c, Field(n, "", ""), out[n], out);
    var value, last := GroupValue(rows), LastRow(rows);
    assert Occurring(p.b) == [Aggregate(fn, x)] && Occurring(p) == Occurring(p.a) + Occurring(p.b);
    assert ValueOf(p.a, value, last) == Eval(c, last) && ValueOf(p.b, value, last) == Ok(out[n]);
    assert Meaning(p, rows) == BinaryValue(CmpOf(op), Eval(c, last), Ok(out[n]));
  }

  lemma {:induction false} ComparedColumn(op: CmpOp, c: Expr, e: Expr, v: Value, row: Row)
    requires c.Field? && Eval(e, row) == Ok(v)
    ensures Eval(Cmp(op, c, e), row) == if 0 <= c.idx < |row| then Ok(CompareValues(op, row[c.idx], v)) else Err
  {
  }

  /** The column is in both rows or in neither, and where it is, it compares alike with the value. */
  predicate ReadsAlike(i: int, out: Row, last: Row, v: Value) {
    && (0 <= i < |out| <==> 0 <= i < |last|)
    && (0 <= i < |out| ==> SameRank(out[i], last[i], v))
  }

  /** All comparisons of a column with an aggregation are right iff the output at the place of the column compares
      with the value of the aggregation like the column itself. */
  lemma {:induction false} ColumnBesideIsRightIff(c: Expr, fn: Aggregation, x: Expr, n: nat, all: seq<Output>,
                                                  rows: seq<Row>, out: Row)
    requires c.Field? && At(all, n, [Aggregate(fn, x)]) && IsGroupRow(all, rows, out)
    ensures (forall op :: Eval(Hoist(Beside(op, c, fn, x), n).0, out) == Meaning(Beside(op, c, fn, x), rows))
       <==> ReadsAlike(c.idx, out, LastRow(rows), out[n])
  {
    forall op ensures Eval(Hoist(Beside(op, c, fn, x), n).0, out) == Meaning(Beside(op, c, fn, x), rows)
                 <==> ComparesAlike(op, c.idx, out, LastRow(rows), out[n])
    {
      BesideMeans(op, c, fn, x, n, all, rows, out);
    }
    AlikeIff(c.idx, out, LastRow(rows), out[n]);
  }

  predicate ComparesAlike(op: CmpOp, i: int, out: Row, last: Row, v: Value) {
    && (0 <= i < |out| <==> 0 <= i < |last|)
    && (0 <= i < |out| ==> CompareValues(op, out[i], v) == CompareValues(op, last[i], v))
  }

  lemma {:induction false} AlikeIff(i: int, out: Row, last: Row, v: Value)
    ensures (forall op :: ComparesAlike(op, i, out, last, v)) <==> ReadsAlike(i, out, last, v)
  {
    if 0 <= i < |out| && i < |last| {
      RankDecides(out[i], last[i], v);
      assert forall op :: ComparesAlike(op, i, out, last, v) <==>
        CompareValues(op, out[i], v) == CompareValues(op, last[i], v);
    } else {
      assert ComparesAlike(Eq, i, out, last, v) <==> ReadsAlike(i, out, last, v);
    }
  }

  /** `c = COUNT(x)` alone becomes a comparison of the count with itself if c is the first column of the table, and
      an error if it is another one: it is right only where the column equals the count, or does not exist. */
  lemma {:induction false} ColumnEqualsCountIff(i: nat, x: Expr, rows: seq<Row>, out: Row)
    requires IsGroupRow([Aggregate(Count, x)], rows, out)
    ensures var (p, last) := (Beside(Eq, Field(i, "", ""), Count, x), LastRow(rows));
      && FixAll([p]).1 == [Aggregate(Count, x)]
      && (Eval(FixAll([p]).0[0], out) == Meaning(p, rows)
          <==> if i == 0 then |last| > 0 && last[0] != Null && AsInt(last[0]) == NonNull(x, rows) else i >= |last|)
  {
    var c, all := Field(i, "", ""), [Aggregate(Count, x)];
    var p := Beside(Eq, c, Count, x);
    BesideMeans(Eq, c, Count, x, 0, all, rows, out);
    BesideIsFixed(p, c, Count, x);
    var o := all[0];
    assert Folded(o, rows).Ok?;
    CountMeans(x, rows);
    assert out[0] == Int(NonNull(x, rows));
  }

  lemma {:induction false} BesideIsFixed(p: AExpr, c: Expr, fn: Aggregation, x: Expr)
    requires p == Beside(Eq, c, fn, x)
    ensures FixAll([p]) == ([Hoist(p, 0).0], [Aggregate(fn, x)])
  {
    assert [p][..0] == [];
    assert FixAll([p][..0]) == ([], []);
    var os: seq<Output> := [];
    assert Hoist(p.a, 0) == (c, os) && Hoist(p.b, 0) == (Field(0, "", ""), [Aggregate(fn, x)]);
    assert os + [Aggregate(fn, x)] == [Aggregate(fn, x)];
    assert ContainsAggregation(p.b) && ContainsAggregation(p);
    assert Hoist(p, 0).1 == [Aggregate(fn, x)];
    var es: seq<Expr> := [];
    assert FixAll([p]) == (es + [Fix(p, 0).0], os + Fix(p, 0).1);
    assert es + [Fix(p, 0).0] == [Hoist(p, 0).0] && os + Fix(p, 0).1 == [Aggregate(fn, x)];
  }

  // ----- which columns are right in every group

  /** The expressions of the GROUP BY are in range of rows of this width. */
  predicate OutputsFit(all: seq<Output>, w: nat) {
    forall o | o in all :: InRange(if o.Plain? then o.e else o.arg, w)
  }

  predicate SizedRows(rows: seq<Row>, w: nat) {
    forall r | r in rows :: |r| == w
  }

  /** The reference to a column is right in a group: the output row shows the column of the last row. */
  predicate ShowsColumn(i: nat, rows: seq<Row>, out: Row) {
    Eval(Field(i, "", ""), out) == Eval(Field(i, "", ""), LastRow(rows))
  }

  ghost predicate AlwaysShowsColumn(i: nat, all: seq<Output>, w: nat) {
    forall rows, out | rows != [] && SizedRows(rows, w) && IsGroupRow(all, rows, out) :: ShowsColumn(i, rows, out)
  }

  /** The i-th output is the i-th column. */
  ghost predicate IsColumn(i: nat, all: seq<Output>, w: nat)
    requires i < w
  {
    i < |all| && all[i].Plain? && forall r: Row | |r| == w :: Eval(all[i].e, r) == Ok(r[i])
  }

  lemma {:induction false} FoldedEvaluates(o: Output, w: nat, rows: seq<Row>)
    requires InRange(if o.Plain? then o.e else o.arg, w) && SizedRows(rows, w)
    ensures Folded(o, rows).Ok?
    decreases |rows|
  {
    if rows != [] {
      var last := |rows| - 1;
      assert rows[last] in rows;
      FoldedEvaluates(o, w, rows[..last]);
      InRangeEvaluates(if o.Plain? then o.e else o.arg, rows[last]);
    }
  }

  /** The output row of any group. */
  ghost function GroupRow(all: seq<Output>, w: nat, rows: seq<Row>): (out: Row)
    requires OutputsFit(all, w) && SizedRows(rows, w)
    ensures IsGroupRow(all, rows, out)
  {
    assert forall i | 0 <= i < |all| :: Folded(all[i], rows).Ok? by {
      forall i | 0 <= i < |all| ensures Folded(all[i], rows).Ok? { FoldedEvaluates(all[i], w, rows); }
    }
    seq(|all|, i requires 0 <= i < |all| => Finish(Folded(all[i], rows).value))
  }

  /** A row with one value, and NULL elsewhere. */
  function OneValue(w: nat, i: nat, n: int): (r: Row)
    requires i < w
    ensures |r| == w && r[i] == Int(n)
  {
    seq(w, j => if j == i then Int(n) else Null)
  }

  lemma {:induction false} FoldedOne(o: Output, r: Row)
    ensures Folded(o, [r]) == Update(o, NewBuffer(o), r)
  {
    assert [r][..0] == [];
  }

  lemma {:induction false} FoldedTwo(o: Output, r: Row, r': Row)
    requires Folded(o, [r]).Ok?
    ensures Folded(o, [r, r']) == Update(o, Folded(o, [r]).value, r')
  {
    assert [r, r'][..1] == [r];
  }

  /** No aggregation is the last value of a column in every group: a count is not negative, and the larger or
      smaller of two values need not come last. */
  lemma {:induction false} AggregationIsNoColumn(fn: Aggregation, e: Expr, i: nat, w: nat)
    requires i < w && InRange(e, w)
    ensures exists rows | rows != [] && SizedRows(rows, w) ::
      Folded(Aggregate(fn, e), rows).Ok? && Finish(Folded(Aggregate(fn, e), rows).value) != LastRow(rows)[i]
  {
    var o := Aggregate(fn, e);
    var n := if fn == Max then 1 else -1;
    var a, b := OneValue(w, i, n), OneValue(w, i, 0);
    var one, other, two := [a], [b], [a, b];
    FoldedEvaluates(o, w, one);
    FoldedEvaluates(o, w, other);
    FoldedEvaluates(o, w, two);
    FoldedOne(o, a);
    FoldedOne(o, b);
    FoldedTwo(o, a, b);
    if fn == Count { CountMeans(e, one); }
    assert Finish(Folded(o, one).value) != a[i] || Finish(Folded(o, other).value) != b[i] ||
      Finish(Folded(o, two).value) != b[i];
    assert LastRow(one) == a && LastRow(other) == b && LastRow(two) == b;
    assert SizedRows(one, w) && SizedRows(other, w) && SizedRows(two, w);
  }

  /** A column outside aggregations is right in every group iff the GROUP BY has that column as its output, at the
      place of the column. */
  lemma {:induction false} ColumnIsRightIff(i: nat, all: seq<Output>, w: nat)
    requires i < w && OutputsFit(all, w)
    ensures AlwaysShowsColumn(i, all, w) <==> IsColumn(i, all, w)
  {
    if IsColumn(i, all, w) {
      forall rows, out | rows != [] && SizedRows(rows, w) && IsGroupRow(all, rows, out)
        ensures ShowsColumn(i, rows, out)
      {
        var last := LastRow(rows);
        assert last in rows;
        var o := all[i];
        assert Folded(o, rows).Ok? && out[i] == Finish(Folded(o, rows).value);
        PlainMeans(o.e, rows);
      }
    } else {
      WrongColumnShows(i, all, w);
    }
  }

  lemma {:induction false} WrongColumnShows(i: nat, all: seq<Output>, w: nat)
    requires i < w && OutputsFit(all, w) && !IsColumn(i, all, w)
    ensures !AlwaysShowsColumn(i, all, w)
  {
    var rows: seq<Row>;
    if i >= |all| {
      rows := [OneValue(w, i, 0)];
    } else if all[i].Plain? {
      var r: Row :| |r| == w && Eval(all[i].e, r) != Ok(r[i]);
      rows := [r];
      FoldedOne(all[i], r);
    } else {
      AggregationIsNoColumn(all[i].fn, all[i].arg, i, w);
      rows :| rows != [] && SizedRows(rows, w) && Folded(all[i], rows).Ok? &&
        Finish(Folded(all[i], rows).value) != LastRow(rows)[i];
    }
    var out := GroupRow(all, w, rows);
    assert LastRow(rows) in rows;
    assert !ShowsColumn(i, rows, out);
  }
}
