/** A planned lookup is there, and it accepts no row too many: for filters whose comparisons all meet an index of one
    table, it selects exactly the rows of the filter. */
module IndexPrecision {
  import opened Values
  import opened Expressions
  import opened Lookups
  import opened IndexPlanning
  import opened IndexSoundness
  import opened IndexReadability
  import opened IndexLimits
  import opened WideIndexes

  /** The expression has columns, and the index found for it is of this table. */
  predicate ServedExpr(cat: Catalog, t: string, x: Expr) {
    var ix := IndexByExpression(cat.order, [x]);
    !IsEvaluable(x) && ix.Some? && ix.value.table == t && ix.value.mergeable
  }

  /** A comparison of such an expression with a constant; the constant may be on the left in an equality. */
  predicate ServedComparison(cat: Catalog, t: string, op: CmpOp, l: Expr, r: Expr) {
    || (ServedExpr(cat, t, l) && IsEvaluable(r))
    || (op == Eq && ServedExpr(cat, t, r) && IsEvaluable(l))
  }

  predicate NotNull(c: Expr) {
    IsEvaluable(c) && Constant(c) != Null
  }

  predicate OneSource(e: Expr) {
    |set c | c in Columns(e) :: c.source| <= 1
  }

  /** The filter, or its negation, is built from comparisons, BETWEEN and lists that each meet an index of the table,
      and no range has an index on several columns. */
  ghost predicate Served(cat: Catalog, t: string, e: Expr, positive: bool)
    decreases Weight(e)
  {
    match e
    case Cmp(op, l, r) => ServedComparison(cat, t, op, l, r)
    case Between(x, lo, hi) =>
      && ServedExpr(cat, t, x) && IsEvaluable(lo) && IsEvaluable(hi)
      && (!positive ==> OneSource(Or(Cmp(Lt, x, lo), Cmp(Gt, x, hi))) && NotNull(lo) && NotNull(hi))
    case InList(_, x, list) =>
      positive && ServedExpr(cat, t, x) && |list| > 1 && forall y | y in list :: IsEvaluable(y)
    case Not(x) => Served(cat, t, x, !positive)
    case And(l, r) =>
      if positive then
        ConjunctsAreLighter(e);
        var cs := SplitConjunction(e);
        && NarrowRanges(cat, cs)
        && forall i | 0 <= i < |cs| :: ServedTogether(cat, cs, t, i) || Served(cat, t, cs[i], true)
      else OneSource(e) && Served(cat, t, l, false) && Served(cat, t, r, false)
    case Or(l, r) =>
      && (positive ==> OneSource(e))
      && Served(cat, t, l, positive) && Served(cat, t, r, positive)
    case _ => false
  }

  /** The plan has one lookup, for this table, and what it accepts satisfies the filter. */
  predicate Tight(plan: Plan, t: string, trow: Row, holds: bool) {
    plan.Keys == {t} && !plan[t].Plain? && (Accepts(plan[t], trow) ==> holds)
  }

  // ----- one comparison, BETWEEN or list

  lemma {:induction false} OneLookupIsTight(plan: Plan, t: string, l: Lookup, trow: Row, holds: bool)
    requires plan == map[t := l] && !l.Plain? && (Accepts(l, trow) ==> holds)
    ensures Tight(plan, t, trow, holds)
  {
  }

  lemma {:induction false} ComparisonIsNotPlain(op: CmpOp, ix: Index, keys: seq<Value>)
    requires ix.mergeable
    ensures ComparisonLookup(op, ix, keys).Some? && !ComparisonLookup(op, ix, keys).value.Plain?
  {
  }

  lemma {:induction false} EqualsEitherWay(a: Value, b: Value)
    ensures CompareValues(Eq, a, b) == CompareValues(Eq, b, a)
  {
  }

  lemma {:induction false} ComparisonTight(cat: Catalog, s: Schema, row: Row, t: string, ts: Schema, trow: Row,
                                           op: CmpOp, l: Expr, r: Expr)
    requires Setting(cat, s, row, t, ts, trow) && Resolved(l, s) && Resolved(r, s) && ServedComparison(cat, t, op, l, r)
    ensures GetIndexes(cat, Cmp(op, l, r)).Ok?
    ensures Tight(GetIndexes(cat, Cmp(op, l, r)).value, t, trow, Holds(Cmp(op, l, r), row))
  {
    var left := ServedExpr(cat, t, l) && IsEvaluable(r);
    var (x, c) := if left then (l, r) else (r, l);
    var ix := IndexByExpression(cat.order, [x]).value;
    FoundIndex(cat, s, row, t, ts, trow, x, ix);
    var v, k := Eval(x, row).value, Constant(c);
    ComparisonPlan(cat, op, x, c, left, ix);
    ComparisonIsNotPlain(op, ix, [k]);
    ComparisonAcceptsIff(op, ix, k, v, trow);
    ComparingHolds(op, x, c, row);
    EqualsEitherWay(v, k);
    OneLookupIsTight(GetIndexes(cat, Cmp(op, l, r)).value, t, ComparisonLookup(op, ix, [k]).value, trow,
      Holds(Cmp(op, l, r), row));
  }

  lemma {:induction false} UnequalAcceptsIff(ix: Index, k: Value, v: Value, row: Row)
    requires OneColumn(ix, row, Ok(v))
    ensures Accepts(Negated(ix, Point(ix, [k])), row) <==> CompareValues(Eq, v, k) == Bool(false)
  {
    var u := Negated(ix, Point(ix, [k]));
    assert u.inner.key[0] == k;
    assert Accepts(u, row) <==> KeyDiffers(ix.exprs[0], u.inner.key[0], row);
  }

  lemma {:induction false} UnequalHolds(x: Expr, c: Expr, row: Row)
    requires IsEvaluable(c) && Eval(x, row).Ok?
    ensures Holds(Not(Cmp(Eq, x, c)), row) <==> CompareValues(Eq, Eval(x, row).value, Constant(c)) == Bool(false)
    ensures Holds(Not(Cmp(Eq, c, x)), row) <==> CompareValues(Eq, Eval(x, row).value, Constant(c)) == Bool(false)
  {
    EvaluableIsConstant(c, row);
    var v, k := Eval(x, row).value, Constant(c);
    assert Eval(Cmp(Eq, x, c), row) == Ok(CompareValues(Eq, v, k)) &&
      Eval(Cmp(Eq, c, x), row) == Ok(CompareValues(Eq, k, v));
    EqualsEitherWay(v, k);
  }

  lemma {:induction false} UnequalTight(cat: Catalog, s: Schema, row: Row, t: string, ts: Schema, trow: Row, l: Expr,
                                        r: Expr)
    requires Setting(cat, s, row, t, ts, trow) && Resolved(l, s) && Resolved(r, s) && ServedComparison(cat, t, Eq, l, r)
    ensures Tight(UnequalIndexes(cat, l, r), t, trow, Holds(Not(Cmp(Eq, l, r)), row))
  {
    var left := ServedExpr(cat, t, l) && IsEvaluable(r);
    var (x, c) := if left then (l, r) else (r, l);
    var ix := IndexByExpression(cat.order, [x]).value;
    FoundIndex(cat, s, row, t, ts, trow, x, ix);
    UnequalAcceptsIff(ix, Constant(c), Eval(x, row).value, trow);
    UnequalHolds(x, c, row);
    var u := Negated(ix, Point(ix, [Constant(c)]));
    OneLookupIsTight(UnequalIndexes(cat, l, r), t, u, trow, Holds(Not(Cmp(Eq, l, r)), row));
  }

  lemma {:induction false} BetweenTight(cat: Catalog, s: Schema, row: Row, t: string, ts: Schema, trow: Row, x: Expr,
                                        lo: Expr, hi: Expr)
    requires Setting(cat, s, row, t, ts, trow) && Resolved(x, s)
    requires ServedExpr(cat, t, x) && IsEvaluable(lo) && IsEvaluable(hi)
    ensures GetIndexes(cat, Between(x, lo, hi)).Ok?
    ensures Tight(GetIndexes(cat, Between(x, lo, hi)).value, t, trow, Holds(Between(x, lo, hi), row))
  {
    var ix := IndexByExpression(cat.order, [x]).value;
    FoundIndex(cat, s, row, t, ts, trow, x, ix);
    BetweenPlan(cat, x, lo, hi, ix);
    RangeAcceptsIff(ix, Constant(lo), Constant(hi), Eval(x, row).value, trow);
    BetweenHolds(x, lo, hi, row);
    OneLookupIsTight(GetIndexes(cat, Between(x, lo, hi)).value, t,
                     BetweenLookup(ix, [Constant(lo)], [Constant(hi)]).value, trow, Holds(Between(x, lo, hi), row));
  }

  /** A lookup for the elements of a list accepts no NULL. */
  lemma {:induction false} ElementsRefuseNull(negated: bool, ix: Index, list: seq<Expr>, row: Row)
    requires |list| > 0 && forall y | y in list :: IsEvaluable(y)
    requires OneColumn(ix, row, Ok(Null))
    ensures !Accepts(ElementLookups(negated, ix, list), row)
  {
    var last := |list| - 1;
    var c := Constant(list[last]);
    var l := ElementLookup(negated, ix, c);
    assert [c][0] == c;
    assert !Accepts(Point(ix, [c]), row) by { assert !KeyRelates(Eq, ix.exprs[0], [c][0], row); }
    UnequalAcceptsIff(ix, c, Null, row);
    if last > 0 {
      ElementsRefuseNull(negated, ix, list[..last], row);
      var before := ElementLookups(negated, ix, list[..last]);
      UnionAccepts(before, l, row);
      IntersectionAccepts(before, l, row);
    }
  }

  lemma {:induction false} InListHolds(negated: bool, x: Expr, list: seq<Expr>, row: Row)
    requires Eval(x, row).Ok? && Eval(x, row).value != Null && forall y | y in list :: IsEvaluable(y)
    ensures var v := Eval(x, row).value;
      Holds(InList(negated, x, list), row) <==>
        ((exists y | y in list :: Constant(y) != Null && AsInt(Constant(y)) == AsInt(v)) != negated)
  {
    var v := Eval(x, row).value;
    forall y | y in list ensures Eval(y, row) == Ok(Constant(y)) { EvaluableIsConstant(y, row); }
    EvaluableMember(v, list, row);
    MemberMeans(v, list, row);
  }

  lemma {:induction false} ListTight(cat: Catalog, s: Schema, row: Row, t: string, ts: Schema, trow: Row, negated: bool,
                                     x: Expr, list: seq<Expr>)
    requires Setting(cat, s, row, t, ts, trow) && Resolved(x, s)
    requires ServedExpr(cat, t, x) && |list| > 1 && forall y | y in list :: IsEvaluable(y)
    ensures GetIndexes(cat, InList(negated, x, list)).Ok?
    ensures Tight(GetIndexes(cat, InList(negated, x, list)).value, t, trow, Holds(InList(negated, x, list), row))
  {
    var e := InList(negated, x, list);
    var ix := IndexByExpression(cat.order, [x]).value;
    FoundIndex(cat, s, row, t, ts, trow, x, ix);
    var l, v := ElementLookups(negated, ix, list), Eval(x, row).value;
    assert GetIndexes(cat, e) == InIndexes(cat, negated, x, list);
    MergedIsNotPlain(negated, ix, list);
    if v == Null {
      ElementsRefuseNull(negated, ix, list, trow);
    } else {
      ElementsAccept(negated, ix, list, v, trow);
      InListHolds(negated, x, list, row);
    }
    OneLookupIsTight(GetIndexes(cat, e).value, t, l, trow, Holds(e, row));
  }

  // ----- groups of conjuncts

  /** A conjunct on a column that is not on the wrong side of an inequality. */
  predicate Straight(c: Expr) {
    c.Cmp? && c.op != Eq ==> !ColumnOnRight(c.l, c.r)
  }

  /** The relation between its column and its constants that the lookup asks for. */
  predicate Relates(c: ColumnExpr, x: Expr, row: Row) {
    if c.kind.Range? then KeyRelates(Ge, x, c.lower, row) && KeyRelates(Le, x, c.upper, row)
    else KeyRelates(c.kind.op, x, c.lower, row)
  }

  /** A conjunct holds if its column is in the relation with its constant that the lookup asks for. */
  lemma {:induction false} RelationHolds(e: Expr, s: Schema, row: Row, x: Expr, ts: Schema, trow: Row)
    requires Resolved(e, s) && Straight(e)
    requires ExtractColumn(e).Some? && Erase(ExtractColumn(e).value.col) == Erase(x)
    requires SameColumns(s, row, ts, trow) && Resolved(x, ts)
    requires Relates(ExtractColumn(e).value, x, trow)
    ensures Holds(e, row)
  {
    var c := ExtractColumn(e).value;
    SameValue(c.col, s, row, x, ts, trow);
    match e
    case Cmp(op, l, r) =>
      var k := if IsEvaluable(r) then r else l;
      EvaluableIsConstant(k, row);
      ComparingHolds(op, c.col, k, row);
      EqualsEitherWay(Eval(c.col, row).value, Constant(k));
    case Between(y, lo, hi) => BetweenHolds(y, lo, hi, row);
  }

  lemma {:induction false} KeyedRelates(cs: seq<Expr>, kind: Kind, ix: Index, ps: seq<nat>, row: Row, l: Lookup, i: nat)
    requires Keyed(cs, kind, ix, ps) && ix.mergeable && (|ix.exprs| == 1 || kind == Comparison(Eq))
    requires (forall x | x in ix.exprs :: InRange(x, |row|)) && i < |ps|
    requires KeyedLookup(cs, kind, ix, ps) == Some(l) && Accepts(l, row)
    ensures KeyedBy(cs, kind, ps[i], ix.exprs[i])
    ensures Relates(ExtractColumn(cs[ps[i]]).value, ix.exprs[i], row)
  {
    var lows, highs := LowerKeys(cs, ps), UpperKeys(cs, ps);
    assert KeyedBy(cs, kind, ps[i], ix.exprs[i]);
    if kind.Range? {
      HalfOpenRanges(ix, lows, highs, row);
    } else {
      assert KeyRelates(kind.op, ix.exprs[i], lows[i], row);
    }
  }

  /** The lookup with the keys of these conjuncts accepts only rows on which they hold. */
  lemma {:induction false} KeyedTight(cs: seq<Expr>, kind: Kind, ix: Index, ps: seq<nat>, s: Schema, row: Row,
                                      ts: Schema, trow: Row, l: Lookup)
    requires AllResolved(cs, s) && SameColumns(s, row, ts, trow) && forall c | c in cs :: Straight(c)
    requires Keyed(cs, kind, ix, ps) && ix.mergeable && (|ix.exprs| == 1 || kind == Comparison(Eq))
    requires forall x | x in ix.exprs :: Resolved(x, ts)
    requires KeyedLookup(cs, kind, ix, ps) == Some(l) && Accepts(l, trow)
    ensures forall p | p in ps :: Holds(cs[p], row)
  {
    forall x | x in ix.exprs ensures InRange(x, |trow|) { ResolvedInRange(x, ts); }
    forall p | p in ps ensures Holds(cs[p], row) {
      var i :| 0 <= i < |ps| && ps[i] == p;
      KeyedRelates(cs, kind, ix, ps, trow, l, i);
      assert cs[p] in cs && ix.exprs[i] in ix.exprs;
      RelationHolds(cs[p], s, row, ix.exprs[i], ts, trow);
    }
  }

  /** What is accepted makes the conjuncts at these positions hold; if there are any, there is a lookup. */
  predicate Implies(l: Option<Lookup>, used: set<nat>, cs: seq<Expr>, row: Row, trow: Row) {
    && (forall p | p in used :: p < |cs|)
    && (used != {} ==> l.Some?)
    && (l.Some? ==> !l.value.Plain? && (Accepts(l.value, trow) ==> forall p | p in used :: Holds(cs[p], row)))
  }

  lemma {:induction false} GroupTight(cat: Catalog, s: Schema, row: Row, t: string, ts: Schema, trow: Row,
                                      cs: seq<Expr>, kind: Kind)
    requires Setting(cat, s, row, t, ts, trow) && AllResolved(cs, s) && AllMergeable(cat, t)
    requires NarrowRange(cat, cs, t, kind) && forall c | c in cs :: Straight(c)
    ensures var (l, used) := GroupLookup(cat, cs, t, kind); Implies(l, used, cs, row, trow)
  {
    var (l, used) := GroupLookup(cat, cs, t, kind);
    if used != {} || l.Some? {
      var ix, ps := GroupIndex(cat, t, ts, cs, kind);
      assert ix.mergeable;
      KeyedLookupIsTight(cs, kind, ix, ps, used, s, row, ts, trow);
    }
  }

  lemma {:induction false} KeyedLookupIsTight(cs: seq<Expr>, kind: Kind, ix: Index, ps: seq<nat>, used: set<nat>,
                                              s: Schema, row: Row, ts: Schema, trow: Row)
    requires AllResolved(cs, s) && SameColumns(s, row, ts, trow) && forall c | c in cs :: Straight(c)
    requires Keyed(cs, kind, ix, ps) && ix.mergeable && (|ix.exprs| == 1 || kind == Comparison(Eq))
    requires forall x | x in ix.exprs :: Resolved(x, ts)
    requires forall p :: p in used <==> p in ps
    ensures Implies(KeyedLookup(cs, kind, ix, ps), used, cs, row, trow)
  {
    var l := KeyedLookup(cs, kind, ix, ps).value;
    if Accepts(l, trow) { KeyedTight(cs, kind, ix, ps, s, row, ts, trow, l); }
  }

  lemma {:induction false} BothImply(before: Option<Lookup>, l: Option<Lookup>, used: set<nat>, used': set<nat>,
                                     cs: seq<Expr>, row: Row, trow: Row)
    requires Implies(before, used, cs, row, trow) && Implies(l, used', cs, row, trow)
    ensures Implies(MergeLookups(before, l), used + used', cs, row, trow)
  {
    if before.Some? && l.Some? { IntersectionAccepts(before.value, l.value, trow); }
  }

  lemma {:induction false} TableTight(cat: Catalog, s: Schema, row: Row, t: string, ts: Schema, trow: Row,
                                      cs: seq<Expr>, kinds: seq<Kind>)
    requires Setting(cat, s, row, t, ts, trow) && AllResolved(cs, s) && AllMergeable(cat, t)
    requires NarrowRanges(cat, cs) && forall c | c in cs :: Straight(c)
    ensures var (l, used) := TableLookup(cat, cs, t, kinds); Implies(l, used, cs, row, trow)
  {
    if kinds != [] {
      var last := |kinds| - 1;
      TableTight(cat, s, row, t, ts, trow, cs, kinds[..last]);
      GroupTight(cat, s, row, t, ts, trow, cs, kinds[last]);
      var (before, used) := TableLookup(cat, cs, t, kinds[..last]);
      var (l, used') := GroupLookup(cat, cs, t, kinds[last]);
      BothImply(before, l, used, used', cs, row, trow);
    }
  }

  // ----- conjunctions

  /** The plan has lookups for this table only, and what they accept makes the conjuncts at these positions hold. */
  predicate Covers(plan: Plan, t: string, trow: Row, cs: seq<Expr>, row: Row, used: set<nat>) {
    plan.Keys <= {t} && Implies(LookupFor(plan, t), used, cs, row, trow)
  }

  /** A column with an index of the table is a column of the table. */
  lemma {:induction false} ServedColumn(cat: Catalog, t: string, ts: Schema, x: Expr)
    requires CatalogFor(cat, t, ts) && ServedExpr(cat, t, x) && x.Field?
    ensures x.table == t
  {
    var ix := IndexByExpression(cat.order, [x]).value;
    assert ix.exprs[0] in ix.exprs;
    ErasedMember(ix.exprs, [x], ix.exprs[0]);
  }

  /** A conjunct on a column of this table, or on none; not on the wrong side of an inequality. */
  predicate Own(c: Expr, t: string) {
    Straight(c) && (ExtractColumn(c).Some? ==> ExtractColumn(c).value.col.table == t)
  }

  lemma {:induction false} ServedConjunct(cat: Catalog, t: string, ts: Schema, c: Expr)
    requires CatalogFor(cat, t, ts) && Served(cat, t, c, true)
    ensures Own(c, t)
  {
    if ExtractColumn(c).Some? { ServedColumn(cat, t, ts, ExtractColumn(c).value.col); }
  }

  lemma {:induction false} OneServed(cat: Catalog, t: string, ts: Schema, cs: seq<Expr>, i: nat)
    requires CatalogFor(cat, t, ts) && i < |cs|
    requires ServedTogether(cat, cs, t, i) || Served(cat, t, cs[i], true)
    ensures Own(cs[i], t) && (i in MultiColumnIndexes(cat, cs).1 || Served(cat, t, cs[i], true))
  {
    if ServedTogether(cat, cs, t, i) {
      TogetherIsUsedByGroup(cat, cs, t, i);
      TogetherIsUsed(cat, cs, t, i);
    } else {
      ServedConjunct(cat, t, ts, cs[i]);
    }
  }

  lemma {:induction false} ServedConjuncts(cat: Catalog, t: string, ts: Schema, cs: seq<Expr>)
    requires CatalogFor(cat, t, ts)
    requires forall i | 0 <= i < |cs| :: ServedTogether(cat, cs, t, i) || Served(cat, t, cs[i], true)
    ensures forall c | c in cs :: Own(c, t)
    ensures forall i | 0 <= i < |cs| :: i in MultiColumnIndexes(cat, cs).1 || Served(cat, t, cs[i], true)
  {
    forall i | 0 <= i < |cs|
      ensures Own(cs[i], t) && (i in MultiColumnIndexes(cat, cs).1 || Served(cat, t, cs[i], true))
    {
      OneServed(cat, t, ts, cs, i);
    }
  }

  lemma {:induction false} MultiColumnTight(cat: Catalog, s: Schema, row: Row, t: string, ts: Schema, trow: Row,
                                            cs: seq<Expr>)
    requires Setting(cat, s, row, t, ts, trow) && AllResolved(cs, s) && AllMergeable(cat, t) && NarrowRanges(cat, cs)
    requires forall c | c in cs :: Own(c, t)
    ensures var (multi, used) := MultiColumnIndexes(cat, cs); Covers(multi, t, trow, cs, row, used)
  {
    var (multi, used) := MultiColumnIndexes(cat, cs);
    TableTight(cat, s, row, t, ts, trow, cs, Kinds(cs, t));
    var (l, own) := TableLookup(cat, cs, t, Kinds(cs, t));
    if t in ColumnTables(cs) {
      assert used == own;
    } else {
      assert ColumnTables(cs) == {} && used == {};
    }
  }

  lemma {:induction false} CoversOneMore(before: Plan, plan: Plan, t: string, trow: Row, cs: seq<Expr>, row: Row,
                                         used: set<nat>, p: nat)
    requires Covers(before, t, trow, cs, row, used) && p < |cs| && Tight(plan, t, trow, Holds(cs[p], row))
    ensures Covers(Intersect(before, plan), t, trow, cs, row, used + {p})
  {
    if t in before { IntersectionAccepts(before[t], plan[t], trow); }
  }

  function Below(n: nat): (r: set<nat>)
    ensures forall i: nat :: i in r <==> i < n
  {
    if n == 0 then {} else Below(n - 1) + {n - 1}
  }

  /** Every conjunct is used already or has an index of its own. */
  ghost predicate UsedOrServed(cat: Catalog, t: string, cs: seq<Expr>, used: set<nat>) {
    forall i | 0 <= i < |cs| :: i in used || Served(cat, t, cs[i], true)
  }

  lemma {:induction false} BelowStep(used: set<nat>, n: nat)
    requires n > 0
    ensures used + Below(n) == used + Below(n - 1) + {n - 1}
    ensures n - 1 in used ==> used + Below(n) == used + Below(n - 1)
  {
  }

  lemma {:induction false} ConjunctStep(cat: Catalog, cs: seq<Expr>, used: set<nat>, n: nat, multi: Plan, w: nat)
    requires 0 < n <= |cs| && forall c | c in cs :: Weight(c) < w
    ensures var before := ConjunctIndexes(cat, cs, used, n - 1, multi, w);
      var r := ConjunctIndexes(cat, cs, used, n, multi, w);
      before.Ok? ==>
        if n - 1 in used then r == before
        else GetIndexes(cat, cs[n - 1]).Ok? ==> r == Ok(Intersect(before.value, GetIndexes(cat, cs[n - 1]).value))
  {
    assert cs[n - 1] in cs;
  }

  lemma {:induction false} ConjunctsTight(cat: Catalog, cs: seq<Expr>, used: set<nat>, n: nat, multi: Plan, w: nat,
                                          s: Schema, row: Row, t: string, ts: Schema, trow: Row)
    requires Setting(cat, s, row, t, ts, trow) && AllResolved(cs, s) && AllMergeable(cat, t)
    requires n <= |cs| && forall c | c in cs :: Weight(c) < w
    requires UsedOrServed(cat, t, cs, used)
    requires Covers(multi, t, trow, cs, row, used)
    ensures ConjunctIndexes(cat, cs, used, n, multi, w).Ok?
    ensures Covers(ConjunctIndexes(cat, cs, used, n, multi, w).value, t, trow, cs, row, used + Below(n))
    decreases w, 0, n
  {
    if n == 0 {
      assert used + Below(0) == used;
    } else {
      ConjunctsTight(cat, cs, used, n - 1, multi, w, s, row, t, ts, trow);
      ConjunctStep(cat, cs, used, n, multi, w);
      BelowStep(used, n);
      if n - 1 !in used {
        assert cs[n - 1] in cs;
        LookupIsTight(cat, cs[n - 1], s, row, t, ts, trow);
        CoversOneMore(ConjunctIndexes(cat, cs, used, n - 1, multi, w).value, GetIndexes(cat, cs[n - 1]).value, t, trow,
                      cs, row, used + Below(n - 1), n - 1);
      }
    }
  }

  lemma {:induction false} CoveredIsTight(plan: Plan, t: string, trow: Row, e: Expr, row: Row, used: set<nat>)
    requires Covers(plan, t, trow, SplitConjunction(e), row, used)
    requires forall i: nat | i < |SplitConjunction(e)| :: i in used
    ensures Tight(plan, t, trow, Holds(e, row))
  {
    assert 0 in used;
    assert plan.Keys == {t};
  }

  lemma {:induction false} AndTight(cat: Catalog, e: Expr, s: Schema, row: Row, t: string, ts: Schema, trow: Row)
    requires Setting(cat, s, row, t, ts, trow) && Resolved(e, s) && AllMergeable(cat, t) && e.And?
    requires Served(cat, t, e, true)
    ensures GetIndexes(cat, e).Ok? && Tight(GetIndexes(cat, e).value, t, trow, Holds(e, row))
    decreases Weight(e), 1, 0
  {
    ConjunctsAreLighter(e);
    ConjunctsResolved(e, s);
    var cs := SplitConjunction(e);
    ServedConjuncts(cat, t, ts, cs);
    var (multi, used) := MultiColumnIndexes(cat, cs);
    MultiColumnTight(cat, s, row, t, ts, trow, cs);
    ConjunctsTight(cat, cs, used, |cs|, multi, Weight(e), s, row, t, ts, trow);
    CoveredIsTight(GetIndexes(cat, e).value, t, trow, e, row, used + Below(|cs|));
  }

  // ----- disjunctions and negations

  lemma {:induction false} MergedTight(left: Plan, right: Plan, t: string, trow: Row, l: bool, r: bool)
    requires Tight(left, t, trow, l) && Tight(right, t, trow, r)
    ensures Tight(MergeOr(left, right), t, trow, l || r)
  {
    UnionAccepts(left[t], right[t], trow);
  }

  lemma {:induction false} OrPlan(cat: Catalog, l: Expr, r: Expr)
    requires OneSource(Or(l, r)) && GetIndexes(cat, l).Ok? && GetIndexes(cat, r).Ok?
    ensures GetIndexes(cat, Or(l, r)) == Ok(MergeOr(GetIndexes(cat, l).value, GetIndexes(cat, r).value))
  {
  }

  lemma {:induction false} OrTight(cat: Catalog, l: Expr, r: Expr, t: string, trow: Row, lh: bool, rh: bool)
    requires OneSource(Or(l, r)) && GetIndexes(cat, l).Ok? && GetIndexes(cat, r).Ok?
    requires Tight(GetIndexes(cat, l).value, t, trow, lh) && Tight(GetIndexes(cat, r).value, t, trow, rh)
    ensures GetIndexes(cat, Or(l, r)).Ok? && Tight(GetIndexes(cat, Or(l, r)).value, t, trow, lh || rh)
  {
    OrPlan(cat, l, r);
    MergedTight(GetIndexes(cat, l).value, GetIndexes(cat, r).value, t, trow, lh, rh);
  }

  lemma {:induction false} EitherHolds(l: Expr, r: Expr, row: Row)
    requires InRange(l, |row|) && InRange(r, |row|) && (Holds(l, row) || Holds(r, row))
    ensures Holds(Or(l, r), row)
  {
    InRangeEvaluates(l, row);
    InRangeEvaluates(r, row);
  }

  lemma {:induction false} EitherFails(l: Expr, r: Expr, row: Row)
    requires InRange(l, |row|) && InRange(r, |row|) && (Holds(Not(l), row) || Holds(Not(r), row))
    ensures Holds(Not(And(l, r)), row)
  {
    InRangeEvaluates(l, row);
    InRangeEvaluates(r, row);
    assert Eval(And(l, r), row) == Ok(Bool(false));
  }

  lemma {:induction false} NeitherHolds(l: Expr, r: Expr, row: Row)
    requires Holds(And(Not(l), Not(r)), row)
    ensures Holds(Not(Or(l, r)), row)
  {
    AndHolds(Not(l), Not(r), row);
    NegatedOrHolds(l, r, row);
  }

  lemma {:induction false} OppositeHolds(op: CmpOp, l: Expr, r: Expr, row: Row)
    requires op != Eq && Holds(Cmp(Opposite(op), l, r), row)
    ensures Holds(Not(Cmp(op, l, r)), row)
  {
    assert Eval(Cmp(op, l, r), row) == Ok(Bool(false));
  }

  lemma {:induction false} OutsideHolds(x: Expr, lo: Expr, hi: Expr, row: Row)
    requires NotNull(lo) && NotNull(hi) && Eval(x, row).Ok? && Holds(Or(Cmp(Lt, x, lo), Cmp(Gt, x, hi)), row)
    ensures Holds(Not(Between(x, lo, hi)), row)
  {
    EvaluableIsConstant(lo, row);
    EvaluableIsConstant(hi, row);
    ComparingHolds(Lt, x, lo, row);
    ComparingHolds(Gt, x, hi, row);
    assert Eval(Cmp(Lt, x, lo), row).Ok? && Eval(Cmp(Gt, x, hi), row).Ok?;
    assert Holds(Cmp(Lt, x, lo), row) || Holds(Cmp(Gt, x, hi), row);
    assert Eval(Between(x, lo, hi), row) == Ok(Bool(false));
  }

  // ----- the whole filter

  /** The lookup planned for the table exists, and accepts only rows on which the filter holds. */
  lemma {:induction false} LookupIsTight(cat: Catalog, e: Expr, s: Schema, row: Row, t: string, ts: Schema, trow: Row)
    requires Setting(cat, s, row, t, ts, trow) && Resolved(e, s) && AllMergeable(cat, t) && Served(cat, t, e, true)
    ensures GetIndexes(cat, e).Ok? && Tight(GetIndexes(cat, e).value, t, trow, Holds(e, row))
    decreases Weight(e), 1, 1
  {
    match e
    case Cmp(op, l, r) => ComparisonTight(cat, s, row, t, ts, trow, op, l, r);
    case Between(x, lo, hi) => BetweenTight(cat, s, row, t, ts, trow, x, lo, hi);
    case InList(negated, x, list) => ListTight(cat, s, row, t, ts, trow, negated, x, list);
    case Not(x) => NegatedLookupIsTight(cat, x, s, row, t, ts, trow);
    case And(_, _) => AndTight(cat, e, s, row, t, ts, trow);
    case Or(l, r) =>
      LookupIsTight(cat, l, s, row, t, ts, trow);
      LookupIsTight(cat, r, s, row, t, ts, trow);
      OrTight(cat, l, r, t, trow, Holds(l, row), Holds(r, row));
      ResolvedInRange(l, s);
      ResolvedInRange(r, s);
      if Holds(l, row) || Holds(r, row) { EitherHolds(l, r, row); }
  }

  lemma {:induction false} NegatedComparisonTight(cat: Catalog, s: Schema, row: Row, t: string, ts: Schema, trow: Row,
                                                  op: CmpOp, l: Expr, r: Expr)
    requires Setting(cat, s, row, t, ts, trow) && Resolved(l, s) && Resolved(r, s) && ServedComparison(cat, t, op, l, r)
    ensures NegatedIndexes(cat, Cmp(op, l, r)).Ok?
    ensures Tight(NegatedIndexes(cat, Cmp(op, l, r)).value, t, trow, Holds(Not(Cmp(op, l, r)), row))
  {
    if op == Eq {
      UnequalTight(cat, s, row, t, ts, trow, l, r);
    } else {
      ComparisonTight(cat, s, row, t, ts, trow, Opposite(op), l, r);
      assert NegatedIndexes(cat, Cmp(op, l, r)) == GetIndexes(cat, Cmp(Opposite(op), l, r));
      if Holds(Cmp(Opposite(op), l, r), row) { OppositeHolds(op, l, r, row); }
    }
  }

  lemma {:induction false} NegatedBetweenTight(cat: Catalog, s: Schema, row: Row, t: string, ts: Schema, trow: Row,
                                               x: Expr, lo: Expr, hi: Expr)
    requires Setting(cat, s, row, t, ts, trow) && Resolved(Between(x, lo, hi), s)
    requires Served(cat, t, Between(x, lo, hi), false)
    ensures NegatedIndexes(cat, Between(x, lo, hi)).Ok?
    ensures Tight(NegatedIndexes(cat, Between(x, lo, hi)).value, t, trow, Holds(Not(Between(x, lo, hi)), row))
  {
    var a, b := Cmp(Lt, x, lo), Cmp(Gt, x, hi);
    ResolvedInRange(x, s);
    InRangeEvaluates(x, row);
    ComparisonTight(cat, s, row, t, ts, trow, Lt, x, lo);
    ComparisonTight(cat, s, row, t, ts, trow, Gt, x, hi);
    OrTight(cat, a, b, t, trow, Holds(a, row), Holds(b, row));
    assert NegatedIndexes(cat, Between(x, lo, hi)) == GetIndexes(cat, Or(a, b)) by {
      assert Weight(a) == Weight(b) == 1;
    }
    ResolvedInRange(a, s);
    ResolvedInRange(b, s);
    if Holds(a, row) || Holds(b, row) {
      EitherHolds(a, b, row);
      OutsideHolds(x, lo, hi, row);
    }
  }

  lemma {:induction false} NegatedLookupIsTight(cat: Catalog, e: Expr, s: Schema, row: Row, t: string, ts: Schema,
                                                trow: Row)
    requires Setting(cat, s, row, t, ts, trow) && Resolved(e, s) && AllMergeable(cat, t) && Served(cat, t, e, false)
    ensures NegatedIndexes(cat, e).Ok? && Tight(NegatedIndexes(cat, e).value, t, trow, Holds(Not(e), row))
    decreases 3 * Weight(e) + 1, 0, 1
  {
    match e
    case Not(x) =>
      LookupIsTight(cat, x, s, row, t, ts, trow);
      if Holds(x, row) { assert Eval(Not(x), row) == Ok(Bool(false)); }
    case Cmp(op, l, r) => NegatedComparisonTight(cat, s, row, t, ts, trow, op, l, r);
    case Between(x, lo, hi) => NegatedBetweenTight(cat, s, row, t, ts, trow, x, lo, hi);
    case Or(l, r) => NegatedOrIsTight(cat, l, r, s, row, t, ts, trow);
    case And(l, r) => NegatedAndIsTight(cat, l, r, s, row, t, ts, trow);
  }

  lemma {:induction false} SameSources(l: Expr, r: Expr)
    requires OneSource(And(l, r))
    ensures OneSource(Or(Not(l), Not(r)))
  {
    assert Columns(Or(Not(l), Not(r))) == Columns(And(l, r));
  }

  lemma {:induction false} NegatedAndIsTight(cat: Catalog, l: Expr, r: Expr, s: Schema, row: Row, t: string,
                                             ts: Schema, trow: Row)
    requires Setting(cat, s, row, t, ts, trow) && Resolved(And(l, r), s) && AllMergeable(cat, t)
    requires Served(cat, t, And(l, r), false)
    ensures NegatedIndexes(cat, And(l, r)).Ok?
    ensures Tight(NegatedIndexes(cat, And(l, r)).value, t, trow, Holds(Not(And(l, r)), row))
    decreases 3 * (Weight(l) + Weight(r) + 1) + 1, 0, 0
  {
    assert Weight(Not(l)) == 3 * Weight(l) + 1 && Weight(Not(r)) == 3 * Weight(r) + 1;
    LookupIsTight(cat, Not(l), s, row, t, ts, trow);
    LookupIsTight(cat, Not(r), s, row, t, ts, trow);
    SameSources(l, r);
    OrTight(cat, Not(l), Not(r), t, trow, Holds(Not(l), row), Holds(Not(r), row));
    ResolvedInRange(l, s);
    ResolvedInRange(r, s);
    if Holds(Not(l), row) || Holds(Not(r), row) { EitherFails(l, r, row); }
  }

  lemma {:induction false} NegationsServed(cat: Catalog, t: string, ts: Schema, l: Expr, r: Expr)
    requires CatalogFor(cat, t, ts) && Served(cat, t, l, false) && Served(cat, t, r, false)
    ensures Served(cat, t, And(Not(l), Not(r)), true)
  {
    var e, cs := And(Not(l), Not(r)), [Not(l), Not(r)];
    assert SplitConjunction(Not(l)) == [Not(l)] && SplitConjunction(Not(r)) == [Not(r)];
    assert SplitConjunction(e) == cs;
    forall t', kind ensures NarrowRange(cat, cs, t', kind) { NegationsHaveNoGroup(cat, l, r, t', kind); }
    assert Served(cat, t, cs[0], true) && Served(cat, t, cs[1], true);
  }

  lemma {:induction false} NegatedOrIsTight(cat: Catalog, l: Expr, r: Expr, s: Schema, row: Row, t: string, ts: Schema,
                                            trow: Row)
    requires Setting(cat, s, row, t, ts, trow) && Resolved(l, s) && Resolved(r, s) && AllMergeable(cat, t)
    requires Served(cat, t, l, false) && Served(cat, t, r, false)
    ensures GetIndexes(cat, And(Not(l), Not(r))).Ok?
    ensures Tight(GetIndexes(cat, And(Not(l), Not(r))).value, t, trow, Holds(Not(Or(l, r)), row))
    decreases 3 * (Weight(l) + Weight(r) + 1) + 1, 0, 0
  {
    var e := And(Not(l), Not(r));
    assert Weight(Not(l)) == 3 * Weight(l) + 1 && Weight(Not(r)) == 3 * Weight(r) + 1;
    NegationsServed(cat, t, ts, l, r);
    AndTight(cat, e, s, row, t, ts, trow);
    if Holds(e, row) { NeitherHolds(l, r, row); }
  }

  /** For such a filter the planned lookup selects exactly the rows on which the filter holds, outside the shapes
      that lose rows. */
  lemma {:induction false} LookupIsExact(cat: Catalog, e: Expr, s: Schema, row: Row, t: string, ts: Schema, trow: Row)
    requires Setting(cat, s, row, t, ts, trow) && Resolved(e, s) && AllMergeable(cat, t) && Served(cat, t, e, true)
    requires Plannable(e, true, row)
    ensures GetIndexes(cat, e).Ok? && GetIndexes(cat, e).value.Keys == {t}
    ensures Accepts(GetIndexes(cat, e).value[t], trow) <==> Holds(e, row)
  {
    LookupIsTight(cat, e, s, row, t, ts, trow);
    LookupKeepsRow(cat, e, s, row, t, ts, trow);
  }

  /** An index without ranges and set operations serves single equalities, exactly, with a lookup of its own kind; no
      other comparison and no negation of one. */
  lemma {:induction false} UnmergeableServesEqualities(cat: Catalog, s: Schema, row: Row, t: string, ts: Schema,
                                                       trow: Row, op: CmpOp, l: Expr, r: Expr, ix: Index)
    requires Setting(cat, s, row, t, ts, trow) && Resolved(l, s) && Resolved(r, s) && !IsEvaluable(l) && IsEvaluable(r)
    requires IndexByExpression(cat.order, [l]) == Some(ix) && ix.table == t && !ix.mergeable
    ensures op == Eq ==> GetIndexes(cat, Cmp(op, l, r)) == Ok(map[t := Plain(ix, [Constant(r)])])
    ensures op == Eq ==> (Accepts(Plain(ix, [Constant(r)]), trow) <==> Holds(Cmp(op, l, r), row))
    ensures op != Eq ==> GetIndexes(cat, Cmp(op, l, r)) == Ok(map[])
    ensures NegatedIndexes(cat, Cmp(Eq, l, r)) == Ok(map[]) && GetIndexes(cat, Between(l, r, r)) == Ok(map[])
  {
    FoundIndex(cat, s, row, t, ts, trow, l, ix);
    EvaluableIsConstant(r, row);
    assert [Constant(r)][0] == Constant(r);
    assert Accepts(Plain(ix, [Constant(r)]), trow) <==> KeyRelates(Eq, ix.exprs[0], [Constant(r)][0], trow);
  }

  // ----- filters of which only a part meets an index

  /** An OR has lookups iff it has columns of one table only and both its operands have lookups, for the same tables,
      that can be merged; then it has one for each of them. */
  lemma {:induction false} OrHasLookupIff(cat: Catalog, l: Expr, r: Expr, t: string)
    requires GetIndexes(cat, l).Ok? && GetIndexes(cat, r).Ok?
    ensures GetIndexes(cat, Or(l, r)).Ok?
    ensures var left, right := GetIndexes(cat, l).value, GetIndexes(cat, r).value;
      t in GetIndexes(cat, Or(l, r)).value <==>
        OneSource(Or(l, r)) && left.Keys == right.Keys && AllMerge(left, right) && t in left
  {
    if OneSource(Or(l, r)) {
      OrPlan(cat, l, r);
    } else {
      assert GetIndexes(cat, Or(l, r)) == Ok(map[]);
    }
  }

  predicate NonePlain(plan: Plan, t: string) {
    NotPlain(LookupFor(plan, t))
  }

  lemma {:induction false} MergedNotPlain(left: Plan, right: Plan, t: string)
    requires NonePlain(left, t) && NonePlain(right, t)
    ensures NonePlain(MergeOr(left, right), t) && NonePlain(Intersect(left, right), t)
  {
  }

  lemma {:induction false} OneNotPlain(cat: Catalog, t: string, op: CmpOp, l: Expr, r: Expr)
    requires AllMergeable(cat, t)
    ensures NonePlain(ComparisonIndexes(cat, op, l, r), t) && NonePlain(UnequalIndexes(cat, l, r), t)
  {
    var (left, right) := if IsEvaluable(r) then (l, r) else (r, l);
    var found := IndexByExpression(cat.order, [left]);
    if IsEvaluable(right) && found.Some? && found.value.table == t {
      ComparisonIsNotPlain(op, found.value, [Constant(right)]);
    }
  }

  lemma {:induction false} ListNotPlain(cat: Catalog, t: string, negated: bool, x: Expr, list: seq<Expr>)
    requires InIndexes(cat, negated, x, list).Ok?
    ensures NonePlain(InIndexes(cat, negated, x, list).value, t)
  {
    var found := IndexByExpression(cat.order, [x]);
    if |list| >= 2 && found.Some? && (forall y | y in list :: IsEvaluable(y)) {
      MergedIsNotPlain(negated, found.value, list);
    }
  }

  /** With such indexes every lookup of the table, of whatever filter, can be merged with others. */
  lemma {:induction false} PlanNotPlain(cat: Catalog, e: Expr, t: string, ts: Schema)
    requires CatalogFor(cat, t, ts) && AllMergeable(cat, t) && GetIndexes(cat, e).Ok?
    ensures NonePlain(GetIndexes(cat, e).value, t)
    decreases Weight(e), 1, 0
  {
    match e
    case Or(l, r) =>
      if OneSource(e) {
        PlanNotPlain(cat, l, t, ts);
        PlanNotPlain(cat, r, t, ts);
        MergedNotPlain(GetIndexes(cat, l).value, GetIndexes(cat, r).value, t);
      }
    case InList(negated, x, list) => ListNotPlain(cat, t, negated, x, list);
    case Cmp(op, l, r) => OneNotPlain(cat, t, op, l, r);
    case Not(x) => NegatedNotPlain(cat, x, t, ts);
    case Between(x, lo, hi) =>
    case And(_, _) =>
      ConjunctsAreLighter(e);
      var cs := SplitConjunction(e);
      var (multi, used) := MultiColumnIndexes(cat, cs);
      TableIsNotPlain(cat, t, ts, cs, Kinds(cs, t));
      ConjunctsNotPlain(cat, cs, used, |cs|, multi, Weight(e), t, ts);
    case _ =>
  }

  lemma {:induction false} ConjunctsNotPlain(cat: Catalog, cs: seq<Expr>, used: set<nat>, n: nat, multi: Plan, w: nat,
                                             t: string, ts: Schema)
    requires CatalogFor(cat, t, ts) && AllMergeable(cat, t) && NonePlain(multi, t)
    requires n <= |cs| && forall c | c in cs :: Weight(c) < w
    requires ConjunctIndexes(cat, cs, used, n, multi, w).Ok?
    ensures NonePlain(ConjunctIndexes(cat, cs, used, n, multi, w).value, t)
    decreases w, 0, n
  {
    if n > 0 {
      ConjunctsNotPlain(cat, cs, used, n - 1, multi, w, t, ts);
      if n - 1 !in used {
        assert cs[n - 1] in cs;
        PlanNotPlain(cat, cs[n - 1], t, ts);
        MergedNotPlain(ConjunctIndexes(cat, cs, used, n - 1, multi, w).value, GetIndexes(cat, cs[n - 1]).value, t);
      }
    }
  }

  lemma {:induction false} NegatedOneNotPlain(cat: Catalog, t: string, op: CmpOp, l: Expr, r: Expr)
    requires AllMergeable(cat, t)
    ensures NegatedIndexes(cat, Cmp(op, l, r)).Ok? && NonePlain(NegatedIndexes(cat, Cmp(op, l, r)).value, t)
  {
    OneNotPlain(cat, t, if op == Eq then Eq else Opposite(op), l, r);
  }

  lemma {:induction false} NegatedNotPlain(cat: Catalog, e: Expr, t: string, ts: Schema)
    requires CatalogFor(cat, t, ts) && AllMergeable(cat, t) && NegatedIndexes(cat, e).Ok?
    ensures NonePlain(NegatedIndexes(cat, e).value, t)
    decreases 3 * Weight(e) + 1, 0, 1
  {
    match e
    case Not(x) => PlanNotPlain(cat, x, t, ts);
    case Cmp(op, l, r) => NegatedOneNotPlain(cat, t, op, l, r);
    case Between(x, lo, hi) =>
      assert Weight(Cmp(Lt, x, lo)) == Weight(Cmp(Gt, x, hi)) == 1;
      PlanNotPlain(cat, Or(Cmp(Lt, x, lo), Cmp(Gt, x, hi)), t, ts);
    case Or(l, r) =>
      assert Weight(Not(l)) == 3 * Weight(l) + 1 && Weight(Not(r)) == 3 * Weight(r) + 1;
      PlanNotPlain(cat, And(Not(l), Not(r)), t, ts);
    case And(l, r) => NegatedAndNotPlain(cat, l, r, t, ts);
    case _ =>
  }

  lemma {:induction false} NegatedAndNotPlain(cat: Catalog, l: Expr, r: Expr, t: string, ts: Schema)
    requires CatalogFor(cat, t, ts) && AllMergeable(cat, t) && GetIndexes(cat, Or(Not(l), Not(r))).Ok?
    ensures NonePlain(GetIndexes(cat, Or(Not(l), Not(r))).value, t)
    decreases 3 * (Weight(l) + Weight(r) + 1) + 1, 0, 0
  {
    if OneSource(Or(Not(l), Not(r))) {
      assert Weight(Not(l)) == 3 * Weight(l) + 1 && Weight(Not(r)) == 3 * Weight(r) + 1;
      PlanNotPlain(cat, Not(l), t, ts);
      PlanNotPlain(cat, Not(r), t, ts);
      MergedNotPlain(GetIndexes(cat, Not(l)).value, GetIndexes(cat, Not(r)).value, t);
    }
  }

  /** There is a lookup that accepts the row only if the condition holds. */
  predicate Narrows(l: Option<Lookup>, holds: bool, trow: Row) {
    l.Some? && !l.value.Plain? && (Accepts(l.value, trow) ==> holds)
  }

  lemma {:induction false} IntersectNarrows(left: Plan, right: Plan, t: string, holds: bool, trow: Row)
    requires NonePlain(left, t) && NonePlain(right, t)
    requires Narrows(LookupFor(left, t), holds, trow) || Narrows(LookupFor(right, t), holds, trow)
    ensures Narrows(LookupFor(Intersect(left, right), t), holds, trow)
  {
    if t in left && t in right { IntersectionAccepts(left[t], right[t], trow); }
  }

  /** The conjunct at this position has been looked at and takes part, or is still to come. */
  lemma {:induction false} ConjunctsNarrow(cat: Catalog, cs: seq<Expr>, used: set<nat>, n: nat, multi: Plan, w: nat,
                                           t: string, ts: Schema, i: nat, holds: bool, trow: Row)
    requires CatalogFor(cat, t, ts) && AllMergeable(cat, t) && NonePlain(multi, t)
    requires i < n <= |cs| && forall c | c in cs :: Weight(c) < w
    requires ConjunctIndexes(cat, cs, used, n, multi, w).Ok?
    requires if i in used then Narrows(LookupFor(multi, t), holds, trow)
             else GetIndexes(cat, cs[i]).Ok? && Narrows(LookupFor(GetIndexes(cat, cs[i]).value, t), holds, trow)
    ensures Narrows(LookupFor(ConjunctIndexes(cat, cs, used, n, multi, w).value, t), holds, trow)
  {
    if i in used {
      UsedNarrow(cat, cs, used, n, multi, w, t, ts, holds, trow);
    } else {
      if i < n - 1 { ConjunctsNarrow(cat, cs, used, n - 1, multi, w, t, ts, i, holds, trow); }
      OneMoreNarrows(cat, cs, used, n, multi, w, t, ts, i, holds, trow);
    }
  }

  lemma {:induction false} OneMoreNarrows(cat: Catalog, cs: seq<Expr>, used: set<nat>, n: nat, multi: Plan, w: nat,
                                          t: string, ts: Schema, i: nat, holds: bool, trow: Row)
    requires CatalogFor(cat, t, ts) && AllMergeable(cat, t) && NonePlain(multi, t)
    requires i < n <= |cs| && forall c | c in cs :: Weight(c) < w
    requires ConjunctIndexes(cat, cs, used, n, multi, w).Ok?
    requires Narrows(LookupFor(ConjunctIndexes(cat, cs, used, n - 1, multi, w).value, t), holds, trow) ||
      (i == n - 1 && i !in used && Narrows(LookupFor(GetIndexes(cat, cs[i]).value, t), holds, trow))
    ensures Narrows(LookupFor(ConjunctIndexes(cat, cs, used, n, multi, w).value, t), holds, trow)
  {
    ConjunctStep(cat, cs, used, n, multi, w);
    if n - 1 !in used {
      assert cs[n - 1] in cs;
      ConjunctsNotPlain(cat, cs, used, n - 1, multi, w, t, ts);
      PlanNotPlain(cat, cs[n - 1], t, ts);
      IntersectNarrows(ConjunctIndexes(cat, cs, used, n - 1, multi, w).value, GetIndexes(cat, cs[n - 1]).value, t,
                       holds, trow);
    }
  }

  lemma {:induction false} UsedNarrow(cat: Catalog, cs: seq<Expr>, used: set<nat>, n: nat, multi: Plan, w: nat,
                                      t: string, ts: Schema, holds: bool, trow: Row)
    requires CatalogFor(cat, t, ts) && AllMergeable(cat, t) && Narrows(LookupFor(multi, t), holds, trow)
    requires n <= |cs| && forall c | c in cs :: Weight(c) < w
    requires ConjunctIndexes(cat, cs, used, n, multi, w).Ok?
    ensures Narrows(LookupFor(ConjunctIndexes(cat, cs, used, n, multi, w).value, t), holds, trow)
  {
    if n > 0 {
      UsedNarrow(cat, cs, used, n - 1, multi, w, t, ts, holds, trow);
      OneMoreNarrows(cat, cs, used, n, multi, w, t, ts, n - 1, holds, trow);
    }
  }

  lemma {:induction false} TablePositions(cat: Catalog, cs: seq<Expr>, t: string, kinds: seq<Kind>, p: nat)
    requires p in TableLookup(cat, cs, t, kinds).1
    ensures p < |cs| && ExtractColumn(cs[p]).Some? && ExtractColumn(cs[p]).value.col.table == t
  {
    var last := |kinds| - 1;
    if p in GroupLookup(cat, cs, t, kinds[last]).1 {
      GroupPositions(cat, cs, t, kinds[last], p);
    } else {
      TablePositions(cat, cs, t, kinds[..last], p);
    }
  }

  lemma {:induction false} GroupPositions(cat: Catalog, cs: seq<Expr>, t: string, kind: Kind, p: nat)
    requires p in GroupLookup(cat, cs, t, kind).1
    ensures p < |cs| && InGroup(cs[p], t, kind)
  {
    assert p in Group(cs, t, kind);
  }

  /** A used conjunct on the table holds wherever the lookups on several columns accept. */
  lemma {:induction false} UsedHolds(cat: Catalog, s: Schema, row: Row, t: string, ts: Schema, trow: Row, cs: seq<Expr>,
                                     i: nat)
    requires Setting(cat, s, row, t, ts, trow) && AllResolved(cs, s) && AllMergeable(cat, t) && NarrowRanges(cat, cs)
    requires forall c | c in cs :: Straight(c)
    requires i < |cs| && Own(cs[i], t) && i in MultiColumnIndexes(cat, cs).1
    ensures Narrows(LookupFor(MultiColumnIndexes(cat, cs).0, t), Holds(cs[i], row), trow)
  {
    var u :| u in ColumnTables(cs) && i in TableLookup(cat, cs, u, Kinds(cs, u)).1;
    TablePositions(cat, cs, u, Kinds(cs, u), i);
    TableTight(cat, s, row, t, ts, trow, cs, Kinds(cs, t));
  }

  /** Whatever else a conjunction says: every conjunct that meets indexes of the table takes part in the lookup of
      the table, which accepts only rows on which the conjunct holds. */
  lemma {:induction false} ConjunctTakesPart(cat: Catalog, e: Expr, s: Schema, row: Row, t: string, ts: Schema,
                                             trow: Row, i: nat)
    requires Setting(cat, s, row, t, ts, trow) && Resolved(e, s) && AllMergeable(cat, t)
    requires e.And? && GetIndexes(cat, e).Ok? && NarrowRanges(cat, SplitConjunction(e))
    requires forall c | c in SplitConjunction(e) :: Straight(c)
    requires var cs := SplitConjunction(e);
      i < |cs| && (ServedTogether(cat, cs, t, i) || Served(cat, t, cs[i], true))
    ensures Narrows(LookupFor(GetIndexes(cat, e).value, t), Holds(SplitConjunction(e)[i], row), trow)
  {
    var cs := SplitConjunction(e);
    ConjunctsAreLighter(e);
    ConjunctsResolved(e, s);
    var (multi, used) := MultiColumnIndexes(cat, cs);
    TableIsNotPlain(cat, t, ts, cs, Kinds(cs, t));
    assert NonePlain(multi, t);
    OneServed(cat, t, ts, cs, i);
    if i in used {
      UsedHolds(cat, s, row, t, ts, trow, cs, i);
    } else {
      assert cs[i] in cs;
      LookupIsTight(cat, cs[i], s, row, t, ts, trow);
    }
    ConjunctsNarrow(cat, cs, used, |cs|, multi, Weight(e), t, ts, i, Holds(cs[i], row), trow);
  }
}
