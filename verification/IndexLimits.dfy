/** The filters whose planned lookup loses rows, delimited exactly, row by row, for any catalog and schema.  A lookup
    that cannot be read loses no row: the query panics. */
module IndexLimits {
  import opened Values
  import opened Expressions
  import opened Lookups
  import opened IndexPlanning
  import opened IndexSoundness
  import opened IndexReadability

  /** The filter accepts the row, and the lookup planned for the table can be read and drops it. */
  predicate Loses(cat: Catalog, e: Expr, row: Row, t: string, trow: Row) {
    && GetIndexes(cat, e).Ok? && Holds(e, row)
    && Reads(GetIndexes(cat, e).value, t) && Drops(GetIndexes(cat, e).value, t, trow)
  }

  /** The plan has a lookup for the table that can be read. */
  predicate Reads(plan: Plan, t: string) {
    t in plan && MatchExpression(plan[t]).Ok?
  }

  /** The plan has a lookup for the table that does not accept the row. */
  predicate Drops(plan: Plan, t: string, trow: Row) {
    t in plan && !Accepts(plan[t], trow)
  }

  /** An expression of columns has an index, which supports ranges and set operations. */
  predicate HasIndex(cat: Catalog, x: Expr, ix: Index) {
    !IsEvaluable(x) && IndexByExpression(cat.order, [x]) == Some(ix) && ix.mergeable
  }

  /** A plan of one lookup loses the rows the filter accepts and the lookup does not, if it can be read. */
  lemma {:induction false} OneLookupLoses(cat: Catalog, e: Expr, row: Row, t: string, trow: Row, l: Lookup)
    requires GetIndexes(cat, e) == Ok(map[t := l])
    ensures Loses(cat, e, row, t, trow) <==> Holds(e, row) && MatchExpression(l).Ok? && !Accepts(l, trow)
  {
  }

  // ----- inequalities

  /** A comparison of an expression of columns with a constant, in either order. */
  function Comparing(op: CmpOp, x: Expr, c: Expr, columnOnLeft: bool): Expr {
    if columnOnLeft then Cmp(op, x, c) else Cmp(op, c, x)
  }

  lemma {:induction false} ComparisonAcceptsIff(op: CmpOp, ix: Index, c: Value, v: Value, row: Row)
    requires OneColumn(ix, row, Ok(v)) && ix.mergeable
    ensures Accepts(ComparisonLookup(op, ix, [c]).value, row) <==> CompareValues(op, v, c) == Bool(true)
  {
    assert KeyRelates(op, ix.exprs[0], [c][0], row) <==> CompareValues(op, v, c) == Bool(true);
  }

  lemma {:induction false} ComparisonPlan(cat: Catalog, op: CmpOp, x: Expr, c: Expr, columnOnLeft: bool, ix: Index)
    requires HasIndex(cat, x, ix) && IsEvaluable(c)
    ensures GetIndexes(cat, Comparing(op, x, c, columnOnLeft)) ==
      Ok(map[ix.table := ComparisonLookup(op, ix, [Constant(c)]).value])
  {
  }

  lemma {:induction false} ComparingHolds(op: CmpOp, x: Expr, c: Expr, row: Row)
    requires IsEvaluable(c) && Eval(x, row).Ok?
    ensures Holds(Cmp(op, x, c), row) <==> CompareValues(op, Eval(x, row).value, Constant(c)) == Bool(true)
    ensures Holds(Cmp(op, c, x), row) <==> CompareValues(op, Constant(c), Eval(x, row).value) == Bool(true)
  {
    EvaluableIsConstant(c, row);
    assert Eval(c, row) == Ok(Constant(c));
  }

  /** A comparison and the same one with its operands swapped agree on equal values only, unless it is an equality. */
  lemma {:induction false} TurnedAround(op: CmpOp, v: Value, k: Value)
    ensures CompareValues(op, k, v) == Bool(true) ==>
      (CompareValues(op, v, k) == Bool(true) <==> op == Eq || AsInt(v) == AsInt(k))
  {
  }

  /** The operands are swapped when the column is on the right, the operator is not: then an inequality with a
      number loses all its rows but those on which the two sides are equal. */
  lemma {:induction false} InequalityLosesRow(cat: Catalog, op: CmpOp, x: Expr, c: Expr, columnOnLeft: bool, ix: Index,
                                              s: Schema, row: Row, ts: Schema, trow: Row)
    requires Setting(cat, s, row, ix.table, ts, trow) && Resolved(x, s)
    requires HasIndex(cat, x, ix) && IsEvaluable(c)
    ensures var e := Comparing(op, x, c, columnOnLeft);
      Loses(cat, e, row, ix.table, trow) <==>
        !columnOnLeft && op != Eq && Constant(c).Int? && Holds(e, row) && AsInt(Eval(x, row).value) != Constant(c).n
  {
    var e := Comparing(op, x, c, columnOnLeft);
    FoundIndex(cat, s, row, ix.table, ts, trow, x, ix);
    EvaluableIsConstant(c, row);
    var v, k := Eval(x, row).value, Constant(c);
    ComparisonAcceptsIff(op, ix, k, v, trow);
    ComparisonPlan(cat, op, x, c, columnOnLeft, ix);
    ComparisonReadable(op, ix, [k]);
    assert Typed([k]) <==> k.Int? by { assert k in [k]; }
    OneLookupLoses(cat, e, row, ix.table, trow, ComparisonLookup(op, ix, [k]).value);
    ComparingHolds(op, x, c, row);
    TurnedAround(op, v, k);
  }

  /** The row with one value at the place of a column. */
  function Showing(n: nat, i: nat, v: Value): (row: Row)
    requires i < n
    ensures |row| == n && row[i] == v
  {
    seq(n, j => if j == i then v else Null)
  }

  lemma {:induction false} OwnColumns(ts: Schema, row: Row)
    requires Distinct(ts) && |row| == |ts|
    ensures SameColumns(ts, row, ts, row)
  {
  }

  /** An inequality between a column and a constant keeps all the rows of the table iff the column is on
      the left or the constant is no number. */
  lemma {:induction false} InequalityKeepsAllRows(cat: Catalog, op: CmpOp, x: Expr, c: Expr, columnOnLeft: bool,
                                                  ix: Index, ts: Schema)
    requires CatalogFor(cat, ix.table, ts) && Distinct(ts)
    requires x.Field? && Resolved(x, ts) && HasIndex(cat, x, ix) && IsEvaluable(c)
    ensures (forall row: Row | |row| == |ts| :: !Loses(cat, Comparing(op, x, c, columnOnLeft), row, ix.table, row))
       <==> columnOnLeft || op == Eq || !Constant(c).Int?
  {
    var e := Comparing(op, x, c, columnOnLeft);
    forall row: Row | |row| == |ts|
      ensures Loses(cat, e, row, ix.table, row) <==>
        !columnOnLeft && op != Eq && Constant(c).Int? && Holds(e, row) && AsInt(row[x.idx]) != Constant(c).n
    {
      OwnColumns(ts, row);
      InequalityLosesRow(cat, op, x, c, columnOnLeft, ix, ts, row, ts, row);
    }
    var k := AsInt(Constant(c));
    var row := Showing(|ts|, x.idx, Int(if op == Lt || op == Le then k + 1 else k - 1));
    EvaluableIsConstant(c, row);
    assert Eval(x, row) == Ok(row[x.idx]) && Eval(c, row) == Ok(Constant(c));
    if Constant(c).Int? && !columnOnLeft && op != Eq {
      assert Holds(e, row);
      assert Loses(cat, e, row, ix.table, row);
    }
  }

  // ----- BETWEEN

  lemma {:induction false} RangeAcceptsIff(ix: Index, lo: Value, hi: Value, v: Value, row: Row)
    requires OneColumn(ix, row, Ok(v)) && ix.mergeable
    ensures Accepts(BetweenLookup(ix, [lo], [hi]).value, row) <==>
      EvalBetween(v, lo, hi) == Bool(true) && AsInt(lo) != AsInt(hi)
  {
    assert forall y | y in ix.exprs :: y == ix.exprs[0];
    HalfOpenRanges(ix, [lo], [hi], row);
  }

  lemma {:induction false} BetweenHolds(x: Expr, lo: Expr, hi: Expr, row: Row)
    requires IsEvaluable(lo) && IsEvaluable(hi) && Eval(x, row).Ok?
    ensures Holds(Between(x, lo, hi), row) <==>
      EvalBetween(Eval(x, row).value, Constant(lo), Constant(hi)) == Bool(true)
  {
    EvaluableIsConstant(lo, row);
    EvaluableIsConstant(hi, row);
  }

  lemma {:induction false} BoundsReadable(ix: Index, lo: Value, hi: Value)
    requires ix.mergeable && |ix.exprs| == 1
    ensures MatchExpression(BetweenLookup(ix, [lo], [hi]).value).Ok? <==> lo.Int? && hi.Int?
  {
    BetweenReadable(ix, [lo], [hi]);
    assert lo in [lo] && hi in [hi];
  }

  lemma {:induction false} BetweenPlan(cat: Catalog, x: Expr, lo: Expr, hi: Expr, ix: Index)
    requires HasIndex(cat, x, ix) && IsEvaluable(lo) && IsEvaluable(hi)
    ensures GetIndexes(cat, Between(x, lo, hi)) ==
      Ok(map[ix.table := BetweenLookup(ix, [Constant(lo)], [Constant(hi)]).value])
  {
  }

  /** The bounds are the same number. */
  predicate SameNumber(lo: Expr, hi: Expr)
    requires IsEvaluable(lo) && IsEvaluable(hi)
  {
    Constant(lo).Int? && Constant(hi) == Constant(lo)
  }

  /** The union of two half-open ranges misses a single point: BETWEEN loses all its rows iff its bounds are the
      same number, and none otherwise. */
  lemma {:induction false} BetweenLosesRow(cat: Catalog, x: Expr, lo: Expr, hi: Expr, ix: Index, s: Schema, row: Row,
                                           ts: Schema, trow: Row)
    requires Setting(cat, s, row, ix.table, ts, trow) && Resolved(x, s)
    requires HasIndex(cat, x, ix) && IsEvaluable(lo) && IsEvaluable(hi)
    ensures Loses(cat, Between(x, lo, hi), row, ix.table, trow) <==>
      Holds(Between(x, lo, hi), row) && SameNumber(lo, hi)
  {
    FoundIndex(cat, s, row, ix.table, ts, trow, x, ix);
    BetweenHolds(x, lo, hi, row);
    var a, b := Constant(lo), Constant(hi);
    RangeAcceptsIff(ix, a, b, Eval(x, row).value, trow);
    BetweenPlan(cat, x, lo, hi, ix);
    BoundsReadable(ix, a, b);
    OneLookupLoses(cat, Between(x, lo, hi), row, ix.table, trow, BetweenLookup(ix, [a], [b]).value);
  }

  /** BETWEEN on a column keeps all the rows of the table iff its bounds are not the same number. */
  lemma {:induction false} BetweenKeepsAllRows(cat: Catalog, x: Expr, lo: Expr, hi: Expr, ix: Index, ts: Schema)
    requires CatalogFor(cat, ix.table, ts) && Distinct(ts)
    requires x.Field? && Resolved(x, ts) && HasIndex(cat, x, ix) && IsEvaluable(lo) && IsEvaluable(hi)
    ensures (forall row: Row | |row| == |ts| :: !Loses(cat, Between(x, lo, hi), row, ix.table, row)) <==>
      !SameNumber(lo, hi)
  {
    var e := Between(x, lo, hi);
    forall row: Row | |row| == |ts| ensures Loses(cat, e, row, ix.table, row) <==> Holds(e, row) && SameNumber(lo, hi) {
      OwnColumns(ts, row);
      BetweenLosesRow(cat, x, lo, hi, ix, ts, row, ts, row);
    }
    if SameNumber(lo, hi) {
      var row := Showing(|ts|, x.idx, Int(AsInt(Constant(lo))));
      assert Eval(x, row) == Ok(row[x.idx]);
      BetweenHolds(x, lo, hi, row);
      assert Holds(e, row);
      assert Loses(cat, e, row, ix.table, row);
    }
  }

  // ----- NOT IN

  /** The lookup of a NOT IN list with a NULL accepts no row at all, but it cannot be read: no row is ever lost. */
  lemma {:induction false} NotInLosesNothing(cat: Catalog, x: Expr, list: seq<Expr>, ix: Index,
                                             s: Schema, row: Row, ts: Schema, trow: Row)
    requires Setting(cat, s, row, ix.table, ts, trow) && Resolved(x, s)
    requires HasIndex(cat, x, ix) && |list| > 1 && forall y | y in list :: IsEvaluable(y)
    ensures !Loses(cat, InList(true, x, list), row, ix.table, trow)
    ensures !NoNull(list) ==> !Reads(GetIndexes(cat, InList(true, x, list)).value, ix.table)
  {
    FoundIndex(cat, s, row, ix.table, ts, trow, x, ix);
    var e, l := InList(true, x, list), ElementLookups(true, ix, list);
    assert GetIndexes(cat, e) == InIndexes(cat, true, x, list);
    OneLookupLoses(cat, e, row, ix.table, trow, l);
    MergedIsIntersection(ix, list);
    ListLookupReadable(true, ix, list);
    if Holds(e, row) && MatchExpression(l).Ok? {
      var v := Eval(x, row).value;
      forall y | y in list ensures Eval(y, row) == Ok(Constant(y)) { EvaluableIsConstant(y, row); }
      MemberMeans(v, list, row);
      ElementsAccept(true, ix, list, v, trow);
    }
  }

  lemma {:induction false} MergedIsIntersection(ix: Index, list: seq<Expr>)
    requires |list| > 1 && forall y | y in list :: IsEvaluable(y)
    ensures ElementLookups(true, ix, list).Intersections?
  {
  }

  // ----- a negated OR

  predicate IsNullOn(e: Expr, row: Row) {
    Eval(e, row) == Ok(Null)
  }

  predicate IsFalseOn(e: Expr, row: Row) {
    Eval(e, row).Ok? && Falsy(Eval(e, row).value)
  }

  /** A negated OR holds when both operands are false, and also when one is false and the other NULL. */
  lemma {:induction false} NegatedOrHolds(l: Expr, r: Expr, row: Row)
    ensures Holds(Not(Or(l, r)), row) <==>
      || (IsFalseOn(l, row) && IsFalseOn(r, row))
      || (IsNullOn(l, row) && IsFalseOn(r, row))
      || (IsFalseOn(l, row) && IsNullOn(r, row))
    ensures Holds(Not(l), row) <==> IsFalseOn(l, row)
    ensures Holds(Not(r), row) <==> IsFalseOn(r, row)
  {
    var o := Eval(Or(l, r), row);
    assert Holds(Not(Or(l, r)), row) <==> o.Ok? && Falsy(o.value) by {
      if o.Ok? { assert Eval(Not(Or(l, r)), row) == Ok(Negate(o.value)); }
    }
    if Eval(l, row).Ok? && !Truthy(Eval(l, row).value) && Eval(r, row).Ok? {
      assert o.Ok?;
    }
  }

  /** The plan of a negated OR intersects the plans of the negated operands: a negation is no comparison
      of a column with a constant, so no index on several columns takes part. */
  lemma {:induction false} NegatedOrPlan(cat: Catalog, l: Expr, r: Expr)
    requires GetIndexes(cat, Not(l)).Ok? && GetIndexes(cat, Not(r)).Ok?
    ensures GetIndexes(cat, Not(Or(l, r))) ==
      Ok(Intersect(GetIndexes(cat, Not(l)).value, GetIndexes(cat, Not(r)).value))
  {
    var e := And(Not(l), Not(r));
    var cs := SplitConjunction(e);
    assert SplitConjunction(Not(l)) == [Not(l)] && SplitConjunction(Not(r)) == [Not(r)];
    assert cs == [Not(l), Not(r)];
    assert ColumnTables(cs) == {};
    var (multi, used) := MultiColumnIndexes(cat, cs);
    assert multi == map[] && used == {};
    ConjunctsAreLighter(e);
    var w := Weight(e);
    var none: Plan := map[];
    var pl, pr := GetIndexes(cat, Not(l)).value, GetIndexes(cat, Not(r)).value;
    assert ConjunctIndexes(cat, cs, used, 0, multi, w) == Ok(none);
    assert Intersect(none, pl) == pl;
    assert ConjunctIndexes(cat, cs, used, 1, multi, w) == Ok(pl);
    assert ConjunctIndexes(cat, cs, used, 2, multi, w) == Ok(Intersect(pl, pr));
    assert GetIndexes(cat, e) == Ok(Intersect(pl, pr));
    assert NegatedIndexes(cat, Or(l, r)) == GetIndexes(cat, e);
  }

  /** The lookup of the right operand is left out: it cannot be merged with that of the left one. */
  predicate LeftOut(left: Plan, right: Plan, t: string) {
    t in left && t in right && !CanMerge(left[t], right[t])
  }

  lemma {:induction false} IntersectDrops(left: Plan, right: Plan, t: string, trow: Row)
    ensures Drops(Intersect(left, right), t, trow) <==>
      Drops(left, t, trow) || (Drops(right, t, trow) && !LeftOut(left, right, t))
  {
    if t in left && t in right {
      IntersectionAccepts(left[t], right[t], trow);
    }
  }

  /** The intersection of two plans has a lookup for the table that can be read: both lookups, if they are merged. */
  predicate BothRead(left: Plan, right: Plan, t: string) {
    if t in left && t in right && CanMerge(left[t], right[t])
    then EvalExpression(left[t]).Ok? && EvalExpression(right[t]).Ok?
    else if t in left then Reads(left, t) else Reads(right, t)
  }

  lemma {:induction false} IntersectReads(left: Plan, right: Plan, t: string)
    ensures Reads(Intersect(left, right), t) <==> BothRead(left, right, t)
  {
    if t in left && t in right {
      IntersectionReadable(left[t], right[t]);
    }
  }

  /** A negated OR whose lookup can be read loses exactly the rows on which one operand is false, the other NULL,
      and the lookup of the negation of the NULL one does not accept the row: there the OR is false, and its
      negation true, but the pushed-in form is NULL.  The operands are any filters the planner handles. */
  lemma {:induction false} NegatedOrLosesRow(cat: Catalog, l: Expr, r: Expr, s: Schema, row: Row, t: string, ts: Schema,
                                             trow: Row)
    requires Setting(cat, s, row, t, ts, trow) && Resolved(l, s) && Resolved(r, s)
    requires GetIndexes(cat, Not(l)).Ok? && GetIndexes(cat, Not(r)).Ok?
    requires Plannable(l, false, row) && Plannable(r, false, row)
    ensures var left, right := GetIndexes(cat, Not(l)).value, GetIndexes(cat, Not(r)).value;
      Loses(cat, Not(Or(l, r)), row, t, trow) <==>
        && BothRead(left, right, t)
        && (|| (IsNullOn(l, row) && IsFalseOn(r, row) && Drops(left, t, trow))
            || (IsFalseOn(l, row) && IsNullOn(r, row) && Drops(right, t, trow) && !LeftOut(left, right, t)))
  {
    var left, right := GetIndexes(cat, Not(l)).value, GetIndexes(cat, Not(r)).value;
    NegatedOrHolds(l, r, row);
    NegatedOrPlan(cat, l, r);
    IntersectDrops(left, right, t, trow);
    IntersectReads(left, right, t);
    assert Plannable(Not(l), true, row) && Plannable(Not(r), true, row);
    LookupKeepsRow(cat, Not(l), s, row, t, ts, trow);
    LookupKeepsRow(cat, Not(r), s, row, t, ts, trow);
  }

  lemma {:induction false} UnequalDropsNull(cat: Catalog, x: Expr, c: Expr, ix: Index, s: Schema, row: Row, ts: Schema,
                                            trow: Row)
    requires Setting(cat, s, row, ix.table, ts, trow) && Resolved(x, s)
    requires HasIndex(cat, x, ix) && IsEvaluable(c)
    ensures GetIndexes(cat, Not(Cmp(Eq, x, c))).Ok?
    ensures var plan := GetIndexes(cat, Not(Cmp(Eq, x, c))).value;
      && ix.table in plan && !plan[ix.table].Plain? && (EvalExpression(plan[ix.table]).Ok? <==> Constant(c).Int?)
      && (IsNullOn(Cmp(Eq, x, c), row) ==> Drops(plan, ix.table, trow))
  {
    FoundIndex(cat, s, row, ix.table, ts, trow, x, ix);
    EvaluableIsConstant(c, row);
    var k := Constant(c);
    var u := Negated(ix, Point(ix, [k]));
    assert GetIndexes(cat, Not(Cmp(Eq, x, c))) == NegatedIndexes(cat, Cmp(Eq, x, c));
    assert UnequalIndexes(cat, x, c) == map[ix.table := u];
    ElementReadable(true, ix, k);
    assert u.inner.key[0] == k;
    assert Accepts(u, trow) <==> KeyDiffers(ix.exprs[0], k, trow);
  }

  /** A negated OR of two equalities between indexed expressions of one table and numbers loses exactly the rows on
      which one of them is false and the other NULL. */
  lemma {:induction false} NegatedOrOfEqualitiesLosesRow(cat: Catalog, x: Expr, c: Expr, ix: Index, y: Expr, d: Expr,
                                                         ix': Index, s: Schema, row: Row, ts: Schema, trow: Row)
    requires Setting(cat, s, row, ix.table, ts, trow) && Resolved(x, s) && Resolved(y, s)
    requires HasIndex(cat, x, ix) && HasIndex(cat, y, ix') && ix'.table == ix.table
    requires IsEvaluable(c) && IsEvaluable(d) && Resolved(c, s) && Resolved(d, s)
    ensures var l, r := Cmp(Eq, x, c), Cmp(Eq, y, d);
      Loses(cat, Not(Or(l, r)), row, ix.table, trow) <==>
        && Constant(c).Int? && Constant(d).Int?
        && ((IsNullOn(l, row) && IsFalseOn(r, row)) || (IsFalseOn(l, row) && IsNullOn(r, row)))
  {
    UnequalDropsNull(cat, x, c, ix, s, row, ts, trow);
    UnequalDropsNull(cat, y, d, ix', s, row, ts, trow);
    NegatedOrLosesRow(cat, Cmp(Eq, x, c), Cmp(Eq, y, d), s, row, ix.table, ts, trow);
  }
}
