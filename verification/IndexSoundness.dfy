/** A planned lookup never loses a row that the filter accepts. */
module IndexSoundness {
  import opened Values
  import opened Expressions
  import opened Lookups
  import opened IndexPlanning

  /** Every index of table `t` is over expressions of its columns `ts`, and an index over a column of a
      table is an index of that table. */
  predicate CatalogFor(cat: Catalog, t: string, ts: Schema) {
    && (forall ix | ix in cat.order :: |ix.exprs| > 0)
    && (forall ix, x | ix in cat.order && x in ix.exprs && ix.table == t :: Resolved(x, ts))
    && (forall ix, x | ix in cat.order && x in ix.exprs && x.Field? :: x.table == ix.table)
  }

  /** The filter is evaluated on `row` with schema `s`, the lookup of table `t` on the row `trow` that
      the table contributes to it. */
  predicate Setting(cat: Catalog, s: Schema, row: Row, t: string, ts: Schema, trow: Row) {
    CatalogFor(cat, t, ts) && SameColumns(s, row, ts, trow)
  }

  /** The comparison has its column on the right and a constant on the left. */
  predicate ColumnOnRight(l: Expr, r: Expr) {
    IsEvaluable(l) && !IsEvaluable(r)
  }

  predicate SameConstant(lo: Expr, hi: Expr) {
    && IsEvaluable(lo) && IsEvaluable(hi)
    && Constant(lo) != Null && Constant(hi) != Null
    && AsInt(Constant(lo)) == AsInt(Constant(hi))
  }

  predicate NoNull(list: seq<Expr>) {
    forall y | y in list && IsEvaluable(y) :: Constant(y) != Null
  }

  predicate Known(e: Expr, row: Row) {
    Eval(e, row).Ok? && Eval(e, row).value != Null
  }

  /** The filter avoids the shapes whose lookups do not accept all rows: an inequality with its column on the
      right, a BETWEEN with equal bounds, a NOT IN list with a NULL and, beneath a negation, an OR with a NULL
      operand. */
  predicate Plannable(e: Expr, positive: bool, row: Row) {
    match e
    case Cmp(op, l, r) => op != Eq ==> !ColumnOnRight(l, r)
    case Between(x, lo, hi) =>
      if positive then !SameConstant(lo, hi) else !ColumnOnRight(x, lo) && !ColumnOnRight(x, hi)
    case InList(negated, _, list) => positive && negated ==> NoNull(list)
    case Not(x) => Plannable(x, !positive, row)
    case And(l, r) => Plannable(l, positive, row) && Plannable(r, positive, row)
    case Or(l, r) =>
      && Plannable(l, positive, row) && Plannable(r, positive, row)
      && (!positive ==> Known(l, row) && Known(r, row))
    case _ => true
  }

  /** The row passes the filter, and the filter is one the planner handles. */
  predicate Accepted(e: Expr, row: Row) {
    Holds(e, row) && Plannable(e, true, row)
  }

  /** The lookup can be evaluated on the row, and keeps it when it has to. */
  predicate Keeps(l: Lookup, row: Row, must: bool) {
    Fits(l, |row|) && (must ==> Accepts(l, row))
  }

  predicate PlanKeeps(plan: Plan, t: string, row: Row, must: bool) {
    t in plan ==> Keeps(plan[t], row, must)
  }

  // ----- one index

  lemma {:induction false} ErasedMember(xs: seq<Expr>, es: seq<Expr>, x: Expr)
    requires multiset(Erased(xs)) <= multiset(Erased(es))
    requires x in xs
    ensures exists e | e in es :: Erase(e) == Erase(x)
  {
    var i :| 0 <= i < |xs| && xs[i] == x;
    assert Erased(xs)[i] in multiset(Erased(xs));
    assert Erase(x) in multiset(Erased(es));
    assert Erase(x) in Erased(es);
    var j :| 0 <= j < |es| && Erased(es)[j] == Erase(x);
    assert es[j] in es;
  }

  /** The index has one expression, whose value on the row is `v`. */
  predicate OneColumn(ix: Index, row: Row, v: Result<Value>) {
    |ix.exprs| == 1 && InRange(ix.exprs[0], |row|) && Eval(ix.exprs[0], row) == v
  }

  /** An index found for one expression is over that expression alone. */
  lemma {:induction false} FoundIndex(cat: Catalog, s: Schema, row: Row, t: string, ts: Schema, trow: Row, x: Expr,
                                      ix: Index)
    requires Setting(cat, s, row, t, ts, trow) && Resolved(x, s)
    requires IndexByExpression(cat.order, [x]) == Some(ix) && ix.table == t
    ensures OneColumn(ix, trow, Eval(x, row)) && Eval(x, row).Ok?
  {
    var a, b := multiset(Erased(ix.exprs)), multiset(Erased([x]));
    assert |a| <= |b| by { assert b == a + (b - a); }
    assert ix.exprs[0] in ix.exprs;
    ErasedMember(ix.exprs, [x], ix.exprs[0]);
    ResolvedInRange(ix.exprs[0], ts);
    SameValue(x, s, row, ix.exprs[0], ts, trow);
    InRangeEvaluates(ix.exprs[0], trow);
  }

  lemma {:induction false} ComparisonAccepts(op: CmpOp, ix: Index, c: Value, v: Value, row: Row)
    requires OneColumn(ix, row, Ok(v))
    ensures var l := ComparisonLookup(op, ix, [c]);
      l.Some? ==> Keeps(l.value, row, CompareValues(op, v, c) == Bool(true))
  {
    assert forall y | y in ix.exprs :: y == ix.exprs[0];
    if CompareValues(op, v, c) == Bool(true) {
      assert KeyRelates(op, ix.exprs[0], [c][0], row);
    }
  }

  lemma {:induction false} ComparisonKeeps(cat: Catalog, s: Schema, row: Row, t: string, ts: Schema, trow: Row,
                                           op: CmpOp, l: Expr, r: Expr)
    requires Setting(cat, s, row, t, ts, trow) && Resolved(l, s) && Resolved(r, s)
    ensures PlanKeeps(ComparisonIndexes(cat, op, l, r), t, trow, Accepted(Cmp(op, l, r), row))
  {
    if t in ComparisonIndexes(cat, op, l, r) {
      var left := if IsEvaluable(r) then l else r;
      var right := if IsEvaluable(r) then r else l;
      var ix := IndexByExpression(cat.order, [left]).value;
      FoundIndex(cat, s, row, t, ts, trow, left, ix);
      EvaluableIsConstant(right, row);
      ComparisonAccepts(op, ix, Constant(right), Eval(left, row).value, trow);
    }
  }

  /** The lookup for one key of a one-column index. */
  lemma {:induction false} ElementAccepts(negated: bool, ix: Index, c: Value, v: Value, row: Row)
    requires OneColumn(ix, row, Ok(v)) && v != Null
    ensures Fits(ElementLookup(negated, ix, c), |row|)
    ensures Accepts(ElementLookup(negated, ix, c), row) <==> c != Null && (AsInt(c) == AsInt(v)) != negated
  {
    var x := ix.exprs[0];
    assert forall y | y in ix.exprs :: y == x;
    assert Fits(Point(ix, [c]), |row|);
    assert Accepts(Point(ix, [c]), row) <==> KeyRelates(Eq, x, [c][0], row);
    if c != Null && AsInt(c) != AsInt(v) {
      assert KeyDiffers(x, [c][0], row);
    }
  }

  lemma {:induction false} ElementFits(negated: bool, ix: Index, c: Value, row: Row, v: Result<Value>)
    requires OneColumn(ix, row, v)
    ensures Fits(ElementLookup(negated, ix, c), |row|)
  {
    assert forall y | y in ix.exprs :: y == ix.exprs[0];
    assert Fits(Point(ix, [c]), |row|);
  }

  lemma {:induction false} UnequalKeeps(cat: Catalog, s: Schema, row: Row, t: string, ts: Schema, trow: Row, l: Expr,
                                        r: Expr)
    requires Setting(cat, s, row, t, ts, trow) && Resolved(l, s) && Resolved(r, s)
    ensures PlanKeeps(UnequalIndexes(cat, l, r), t, trow, Holds(Not(Cmp(Eq, l, r)), row))
  {
    if t in UnequalIndexes(cat, l, r) {
      var left := if IsEvaluable(r) then l else r;
      var right := if IsEvaluable(r) then r else l;
      var ix := IndexByExpression(cat.order, [left]).value;
      FoundIndex(cat, s, row, t, ts, trow, left, ix);
      var c := Constant(right);
      ElementFits(true, ix, c, trow, Eval(left, row));
      if Holds(Not(Cmp(Eq, l, r)), row) {
        EvaluableIsConstant(right, row);
        assert Eval(Cmp(Eq, l, r), row) == Ok(Bool(false));
        ElementAccepts(true, ix, c, Eval(left, row).value, trow);
      }
    }
  }

  /** The two half-open ranges of a BETWEEN cover the closed one, unless it is a single point. */
  lemma {:induction false} HalfOpenRanges(ix: Index, lo: seq<Value>, hi: seq<Value>, row: Row)
    requires |ix.exprs| > 0 && |lo| > 0 && |hi| > 0
    requires forall x | x in ix.exprs :: InRange(x, |row|)
    requires ix.mergeable
    ensures Fits(BetweenLookup(ix, lo, hi).value, |row|)
    ensures Accepts(BetweenLookup(ix, lo, hi).value, row) <==>
      && KeyRelates(Ge, ix.exprs[0], lo[0], row) && KeyRelates(Le, ix.exprs[0], hi[0], row)
      && AsInt(lo[0]) != AsInt(hi[0])
  {
    var a, d := Ascend(ix, lo, hi), Descend(ix, lo, hi);
    UnionAccepts(a, d, row);
    MergeFits(a, d, |row|);
  }

  lemma {:induction false} RangeAccepts(ix: Index, lo: Value, hi: Value, v: Value, row: Row)
    requires OneColumn(ix, row, Ok(v)) && ix.mergeable
    ensures Keeps(BetweenLookup(ix, [lo], [hi]).value, row,
      EvalBetween(v, lo, hi) == Bool(true) && AsInt(lo) != AsInt(hi))
  {
    assert forall y | y in ix.exprs :: y == ix.exprs[0];
    HalfOpenRanges(ix, [lo], [hi], row);
  }

  lemma {:induction false} BetweenKeeps(cat: Catalog, s: Schema, row: Row, t: string, ts: Schema, trow: Row, x: Expr,
                                        lo: Expr, hi: Expr)
    requires Setting(cat, s, row, t, ts, trow) && Resolved(x, s) && Resolved(lo, s) && Resolved(hi, s)
    ensures PlanKeeps(BetweenIndexes(cat, x, lo, hi), t, trow, Accepted(Between(x, lo, hi), row))
  {
    if t in BetweenIndexes(cat, x, lo, hi) {
      var ix := IndexByExpression(cat.order, [x]).value;
      FoundIndex(cat, s, row, t, ts, trow, x, ix);
      EvaluableIsConstant(lo, row);
      EvaluableIsConstant(hi, row);
      RangeAccepts(ix, Constant(lo), Constant(hi), Eval(x, row).value, trow);
    }
  }

  lemma {:induction false} ElementsFit(negated: bool, ix: Index, list: seq<Expr>, row: Row, v: Result<Value>)
    requires |list| > 0 && forall y | y in list :: IsEvaluable(y)
    requires OneColumn(ix, row, v)
    ensures Fits(ElementLookups(negated, ix, list), |row|)
  {
    var last := |list| - 1;
    var l := ElementLookup(negated, ix, Constant(list[last]));
    ElementFits(negated, ix, Constant(list[last]), row, v);
    if last > 0 {
      ElementsFit(negated, ix, list[..last], row, v);
      MergeFits(ElementLookups(negated, ix, list[..last]), l, |row|);
    }
  }

  /** The lookups of an IN list accept exactly the rows whose value is in it; those of a NOT IN list,
      exactly the rows whose value differs from every element. */
  lemma {:induction false} ElementsAccept(negated: bool, ix: Index, list: seq<Expr>, v: Value, row: Row)
    requires |list| > 0 && forall y | y in list :: IsEvaluable(y)
    requires OneColumn(ix, row, Ok(v)) && v != Null
    ensures !negated ==> (Accepts(ElementLookups(negated, ix, list), row) <==>
      exists y | y in list :: Constant(y) != Null && AsInt(Constant(y)) == AsInt(v))
    ensures negated ==> (Accepts(ElementLookups(negated, ix, list), row) <==>
      forall y | y in list :: Constant(y) != Null && AsInt(Constant(y)) != AsInt(v))
  {
    var last := |list| - 1;
    var c := Constant(list[last]);
    var l := ElementLookup(negated, ix, c);
    ElementAccepts(negated, ix, c, v, row);
    assert forall y :: y in list <==> y in list[..last] || y == list[last];
    if last > 0 {
      ElementsAccept(negated, ix, list[..last], v, row);
      var before := ElementLookups(negated, ix, list[..last]);
      UnionAccepts(before, l, row);
      IntersectionAccepts(before, l, row);
    }
  }

  lemma {:induction false} InKeeps(cat: Catalog, s: Schema, row: Row, t: string, ts: Schema, trow: Row, negated: bool,
                                   x: Expr, list: seq<Expr>)
    requires Setting(cat, s, row, t, ts, trow) && Resolved(x, s)
    requires InIndexes(cat, negated, x, list).Ok?
    ensures PlanKeeps(InIndexes(cat, negated, x, list).value, t, trow, Accepted(InList(negated, x, list), row))
  {
    if t in InIndexes(cat, negated, x, list).value {
      var ix := IndexByExpression(cat.order, [x]).value;
      FoundIndex(cat, s, row, t, ts, trow, x, ix);
      ElementsFit(negated, ix, list, trow, Eval(x, row));
      if Accepted(InList(negated, x, list), row) {
        var v := Eval(x, row).value;
        forall y | y in list ensures Eval(y, row) == Ok(Constant(y)) { EvaluableIsConstant(y, row); }
        MemberMeans(v, list, row);
        ElementsAccept(negated, ix, list, v, trow);
      }
    }
  }

  // ----- multi-column indexes

  predicate AllAccepted(cs: seq<Expr>, row: Row) {
    forall c | c in cs :: Accepted(c, row)
  }

  predicate AllResolved(cs: seq<Expr>, s: Schema) {
    forall c | c in cs :: Resolved(c, s)
  }

  /** A conjunct that holds puts its column in the relation with its constant that the lookup asks for. */
  lemma {:induction false} ConjunctRelates(e: Expr, s: Schema, row: Row, x: Expr, ts: Schema, trow: Row)
    requires Resolved(e, s) && Accepted(e, row)
    requires ExtractColumn(e).Some? && Erase(ExtractColumn(e).value.col) == Erase(x)
    requires SameColumns(s, row, ts, trow) && Resolved(x, ts)
    ensures var c := ExtractColumn(e).value;
      if c.kind.Range? then
        && KeyRelates(Ge, x, c.lower, trow) && KeyRelates(Le, x, c.upper, trow)
        && AsInt(c.lower) != AsInt(c.upper)
      else KeyRelates(c.kind.op, x, c.lower, trow)
  {
    var c := ExtractColumn(e).value;
    SameValue(c.col, s, row, x, ts, trow);
    match e
    case Cmp(op, l, r) => EvaluableIsConstant(if IsEvaluable(r) then r else l, row);
    case Between(y, lo, hi) => EvaluableIsConstant(lo, row); EvaluableIsConstant(hi, row);
  }

  /** The conjuncts at `ps` provide the key of the index. */
  predicate Keyed(cs: seq<Expr>, kind: Kind, ix: Index, ps: seq<nat>) {
    && |ix.exprs| == |ps| > 0
    && (forall p | p in ps :: p < |cs| && ExtractColumn(cs[p]).Some?)
    && (forall i | 0 <= i < |ps| :: KeyedBy(cs, kind, ps[i], ix.exprs[i]))
  }

  predicate KeyedBy(cs: seq<Expr>, kind: Kind, p: nat, x: Expr) {
    && p < |cs| && ExtractColumn(cs[p]).Some?
    && ExtractColumn(cs[p]).value.kind == kind
    && Erase(ExtractColumn(cs[p]).value.col) == Erase(x)
  }

  lemma {:induction false} KeyedLookupKeeps(cs: seq<Expr>, kind: Kind, ix: Index, ps: seq<nat>, s: Schema, row: Row,
                                            ts: Schema, trow: Row)
    requires AllResolved(cs, s) && SameColumns(s, row, ts, trow)
    requires Keyed(cs, kind, ix, ps)
    requires forall x | x in ix.exprs :: Resolved(x, ts)
    ensures var l := KeyedLookup(cs, kind, ix, ps); l.Some? ==> Keeps(l.value, trow, AllAccepted(cs, row))
  {
    forall x | x in ix.exprs ensures InRange(x, |trow|) { ResolvedInRange(x, ts); }
    var lows, highs := LowerKeys(cs, ps), UpperKeys(cs, ps);
    if AllAccepted(cs, row) {
      forall i | 0 <= i < |ps|
        ensures !kind.Range? ==> KeyRelates(kind.op, ix.exprs[i], lows[i], trow)
        ensures kind.Range? ==>
          KeyRelates(Ge, ix.exprs[i], lows[i], trow) && KeyRelates(Le, ix.exprs[i], highs[i], trow)
        ensures kind.Range? ==> AsInt(lows[i]) != AsInt(highs[i])
      {
        assert KeyedBy(cs, kind, ps[i], ix.exprs[i]);
        assert cs[ps[i]] in cs && ix.exprs[i] in ix.exprs;
        ConjunctRelates(cs[ps[i]], s, row, ix.exprs[i], ts, trow);
      }
    }
    if kind.Range? && ix.mergeable {
      HalfOpenRanges(ix, lows, highs, trow);
    }
  }

  /** The index chosen for a group of conjuncts on columns of `t` is an index of `t`, and the group
      provides its key. */
  lemma {:induction false} GroupKey(cat: Catalog, t: string, ts: Schema, cs: seq<Expr>, kind: Kind, g: seq<nat>,
                                    ix: Index, ps: seq<nat>)
    requires CatalogFor(cat, t, ts) && ix in cat.order
    requires g == Group(cs, t, kind) && KeyPositions(cs, g, ix.exprs) == Some(ps)
    ensures ix.table == t && Keyed(cs, kind, ix, ps)
  {
    forall i | 0 <= i < |ps| ensures ps[i] in g && KeyedBy(cs, kind, ps[i], ix.exprs[i]) {}
    assert KeyedBy(cs, kind, ps[0], ix.exprs[0]) && InGroup(cs[ps[0]], t, kind);
    assert ix.exprs[0] in ix.exprs && ix.exprs[0].Field?;
  }

  lemma {:induction false} GroupKeeps(cat: Catalog, s: Schema, row: Row, t: string, ts: Schema, trow: Row,
                                      cs: seq<Expr>, kind: Kind)
    requires Setting(cat, s, row, t, ts, trow) && AllResolved(cs, s)
    ensures var l := GroupLookup(cat, cs, t, kind).0; l.Some? ==> Keeps(l.value, trow, AllAccepted(cs, row))
  {
    if GroupLookup(cat, cs, t, kind).0.Some? {
      var g := Group(cs, t, kind);
      var wide := Widest(cat.scan, GroupColumns(cs, g)).value;
      var ix := IndexByExpression(cat.order, wide.exprs).value;
      var ps := KeyPositions(cs, g, ix.exprs).value;
      GroupKey(cat, t, ts, cs, kind, g, ix, ps);
      KeyedLookupKeeps(cs, kind, ix, ps, s, row, ts, trow);
    }
  }

  lemma {:induction false} TableKeeps(cat: Catalog, s: Schema, row: Row, t: string, ts: Schema, trow: Row,
                                      cs: seq<Expr>, kinds: seq<Kind>)
    requires Setting(cat, s, row, t, ts, trow) && AllResolved(cs, s)
    ensures var l := TableLookup(cat, cs, t, kinds).0; l.Some? ==> Keeps(l.value, trow, AllAccepted(cs, row))
  {
    if kinds != [] {
      var last := |kinds| - 1;
      TableKeeps(cat, s, row, t, ts, trow, cs, kinds[..last]);
      GroupKeeps(cat, s, row, t, ts, trow, cs, kinds[last]);
      var before := TableLookup(cat, cs, t, kinds[..last]).0;
      var l := GroupLookup(cat, cs, t, kinds[last]).0;
      if before.Some? && l.Some? {
        IntersectionAccepts(before.value, l.value, trow);
        MergeFits(before.value, l.value, |trow|);
      }
    }
  }

  lemma {:induction false} MultiColumnKeeps(cat: Catalog, s: Schema, row: Row, t: string, ts: Schema, trow: Row,
                                            cs: seq<Expr>)
    requires Setting(cat, s, row, t, ts, trow) && AllResolved(cs, s)
    ensures PlanKeeps(MultiColumnIndexes(cat, cs).0, t, trow, AllAccepted(cs, row))
  {
    TableKeeps(cat, s, row, t, ts, trow, cs, Kinds(cs, t));
  }

  // ----- merged plans

  lemma {:induction false} MergeOrKeeps(left: Plan, right: Plan, t: string, trow: Row, l: bool, r: bool)
    requires PlanKeeps(left, t, trow, l) && PlanKeeps(right, t, trow, r)
    ensures PlanKeeps(MergeOr(left, right), t, trow, l || r)
  {
    if t in MergeOr(left, right) {
      UnionAccepts(left[t], right[t], trow);
      MergeFits(left[t], right[t], |trow|);
    }
  }

  lemma {:induction false} IntersectKeeps(left: Plan, right: Plan, t: string, trow: Row, must: bool)
    requires PlanKeeps(left, t, trow, must) && PlanKeeps(right, t, trow, must)
    ensures PlanKeeps(Intersect(left, right), t, trow, must)
  {
    if t in left && t in right {
      IntersectionAccepts(left[t], right[t], trow);
      MergeFits(left[t], right[t], |trow|);
    }
  }

  // ----- the whole filter

  lemma {:induction false} ConjunctsAccepted(e: Expr, s: Schema, row: Row)
    requires Resolved(e, s)
    ensures AllResolved(SplitConjunction(e), s)
    ensures Accepted(e, row) ==> AllAccepted(SplitConjunction(e), row)
  {
    if e.And? {
      ConjunctsAccepted(e.l, s, row);
      ConjunctsAccepted(e.r, s, row);
    }
  }

  function Opposite(op: CmpOp): CmpOp
    requires op != Eq
  {
    match op
    case Gt => Le
    case Ge => Lt
    case Lt => Ge
    case _ => Gt
  }

  lemma {:induction false} OppositeAccepted(op: CmpOp, l: Expr, r: Expr, row: Row)
    requires op != Eq
    ensures Accepted(Not(Cmp(op, l, r)), row) ==> Accepted(Cmp(Opposite(op), l, r), row)
  {
    if Accepted(Not(Cmp(op, l, r)), row) {
      assert Eval(Cmp(op, l, r), row).value == Bool(false);
      assert Plannable(Cmp(op, l, r), false, row);
    }
  }

  lemma {:induction false} DoubleNegationAccepted(x: Expr, row: Row)
    ensures Accepted(Not(Not(x)), row) ==> Accepted(x, row)
  {
    if Accepted(Not(Not(x)), row) {
      assert Eval(Not(x), row).value == Bool(false);
      assert Plannable(Not(x), false, row);
    }
  }

  lemma {:induction false} OutsideAccepted(x: Expr, lo: Expr, hi: Expr, row: Row)
    ensures Accepted(Not(Between(x, lo, hi)), row) ==> Accepted(Or(Cmp(Lt, x, lo), Cmp(Gt, x, hi)), row)
  {
    if Accepted(Not(Between(x, lo, hi)), row) {
      assert Eval(Between(x, lo, hi), row).value == Bool(false);
      assert Plannable(Between(x, lo, hi), false, row);
      assert Eval(Cmp(Lt, x, lo), row).Ok? && Eval(Cmp(Gt, x, hi), row).Ok?;
    }
  }

  /** De Morgan, one way: this is where an OR with a NULL operand would break. */
  lemma {:induction false} NeitherAccepted(l: Expr, r: Expr, row: Row)
    ensures Accepted(Not(Or(l, r)), row) ==> Accepted(And(Not(l), Not(r)), row)
  {
    if Accepted(Not(Or(l, r)), row) {
      assert Eval(Or(l, r), row).Ok? && !Truthy(Eval(Or(l, r), row).value);
      assert Plannable(Or(l, r), false, row);
      assert Holds(Not(l), row) && Holds(Not(r), row);
      assert Plannable(Not(l), true, row) && Plannable(Not(r), true, row);
    }
  }

  lemma {:induction false} NotBothAccepted(l: Expr, r: Expr, row: Row)
    ensures Accepted(Not(And(l, r)), row) ==> Accepted(Not(l), row) || Accepted(Not(r), row)
  {
    if Accepted(Not(And(l, r)), row) {
      assert Eval(And(l, r), row).value == Bool(false);
      assert Plannable(And(l, r), false, row);
      assert Plannable(Not(l), true, row) && Plannable(Not(r), true, row);
    }
  }

  /** The lookup planned for a table keeps every row that the filter accepts. */
  lemma {:induction false} LookupKeepsRow(cat: Catalog, e: Expr, s: Schema, row: Row, t: string, ts: Schema, trow: Row)
    requires Setting(cat, s, row, t, ts, trow) && Resolved(e, s)
    requires GetIndexes(cat, e).Ok?
    ensures PlanKeeps(GetIndexes(cat, e).value, t, trow, Accepted(e, row))
    decreases Weight(e), 1, 0
  {
    match e
    case Or(l, r) =>
      if |set c | c in Columns(e) :: c.source| <= 1 {
        LookupKeepsRow(cat, l, s, row, t, ts, trow);
        LookupKeepsRow(cat, r, s, row, t, ts, trow);
        MergeOrKeeps(GetIndexes(cat, l).value, GetIndexes(cat, r).value, t, trow, Accepted(l, row), Accepted(r, row));
      }
    case InList(negated, x, list) => InKeeps(cat, s, row, t, ts, trow, negated, x, list);
    case Cmp(op, l, r) => ComparisonKeeps(cat, s, row, t, ts, trow, op, l, r);
    case Not(x) => NegatedLookupKeepsRow(cat, x, s, row, t, ts, trow);
    case Between(x, lo, hi) => BetweenKeeps(cat, s, row, t, ts, trow, x, lo, hi);
    case And(_, _) =>
      ConjunctsAreLighter(e);
      ConjunctsAccepted(e, s, row);
      var cs := SplitConjunction(e);
      var (multi, used) := MultiColumnIndexes(cat, cs);
      MultiColumnKeeps(cat, s, row, t, ts, trow, cs);
      ConjunctsKeepRow(cat, cs, used, |cs|, multi, Weight(e), s, row, t, ts, trow);
    case _ =>
  }

  lemma {:induction false} ConjunctsKeepRow(cat: Catalog, cs: seq<Expr>, used: set<nat>, n: nat, multi: Plan, w: nat,
                                            s: Schema, row: Row, t: string, ts: Schema, trow: Row)
    requires Setting(cat, s, row, t, ts, trow) && AllResolved(cs, s)
    requires n <= |cs| && forall c | c in cs :: Weight(c) < w
    requires ConjunctIndexes(cat, cs, used, n, multi, w).Ok?
    requires PlanKeeps(multi, t, trow, AllAccepted(cs, row))
    ensures PlanKeeps(ConjunctIndexes(cat, cs, used, n, multi, w).value, t, trow, AllAccepted(cs, row))
    decreases w, 0, n
  {
    if n > 0 {
      ConjunctsKeepRow(cat, cs, used, n - 1, multi, w, s, row, t, ts, trow);
      if n - 1 !in used {
        var c := cs[n - 1];
        assert c in cs;
        LookupKeepsRow(cat, c, s, row, t, ts, trow);
        IntersectKeeps(ConjunctIndexes(cat, cs, used, n - 1, multi, w).value, GetIndexes(cat, c).value, t, trow,
          AllAccepted(cs, row));
      }
    }
  }

  lemma {:induction false} NegatedLookupKeepsRow(cat: Catalog, e: Expr, s: Schema, row: Row, t: string, ts: Schema,
                                                 trow: Row)
    requires Setting(cat, s, row, t, ts, trow) && Resolved(e, s)
    requires NegatedIndexes(cat, e).Ok?
    ensures PlanKeeps(NegatedIndexes(cat, e).value, t, trow, Accepted(Not(e), row))
    decreases 3 * Weight(e) + 1, 0, 1
  {
    match e
    case Not(x) =>
      DoubleNegationAccepted(x, row);
      LookupKeepsRow(cat, x, s, row, t, ts, trow);
    case Cmp(op, l, r) =>
      if op == Eq {
        UnequalKeeps(cat, s, row, t, ts, trow, l, r);
      } else {
        OppositeAccepted(op, l, r, row);
        LookupKeepsRow(cat, Cmp(Opposite(op), l, r), s, row, t, ts, trow);
      }
    case Between(x, lo, hi) =>
      assert Weight(Cmp(Lt, x, lo)) == Weight(Cmp(Gt, x, hi)) == 1;
      OutsideAccepted(x, lo, hi, row);
      assert Resolved(Cmp(Lt, x, lo), s) && Resolved(Cmp(Gt, x, hi), s);
      LookupKeepsRow(cat, Or(Cmp(Lt, x, lo), Cmp(Gt, x, hi)), s, row, t, ts, trow);
    case Or(l, r) =>
      assert Weight(Not(l)) == 3 * Weight(l) + 1 && Weight(Not(r)) == 3 * Weight(r) + 1;
      NeitherAccepted(l, r, row);
      assert Resolved(Not(l), s) && Resolved(Not(r), s);
      LookupKeepsRow(cat, And(Not(l), Not(r)), s, row, t, ts, trow);
    case And(l, r) => NegatedAndKeepsRow(cat, l, r, s, row, t, ts, trow);
    case _ =>
  }

  /** The OR of two negations is merged from their plans, so the operands are treated one by one. */
  lemma {:induction false} NegatedAndKeepsRow(cat: Catalog, l: Expr, r: Expr, s: Schema, row: Row, t: string,
                                              ts: Schema, trow: Row)
    requires Setting(cat, s, row, t, ts, trow) && Resolved(l, s) && Resolved(r, s)
    requires GetIndexes(cat, Or(Not(l), Not(r))).Ok?
    ensures PlanKeeps(GetIndexes(cat, Or(Not(l), Not(r))).value, t, trow, Accepted(Not(And(l, r)), row))
    decreases 3 * (Weight(l) + Weight(r) + 1) + 1, 0, 0
  {
    var e := Or(Not(l), Not(r));
    NotBothAccepted(l, r, row);
    if |set c | c in Columns(e) :: c.source| <= 1 {
      assert GetIndexes(cat, Not(l)).Ok? && GetIndexes(cat, Not(r)).Ok?;
      assert Weight(Not(l)) == 3 * Weight(l) + 1 && Weight(Not(r)) == 3 * Weight(r) + 1;
      LookupKeepsRow(cat, Not(l), s, row, t, ts, trow);
      LookupKeepsRow(cat, Not(r), s, row, t, ts, trow);
      MergeOrKeeps(GetIndexes(cat, Not(l)).value, GetIndexes(cat, Not(r)).value, t, trow, Accepted(Not(l), row),
        Accepted(Not(r), row));
    }
  }
}
