/** When a planned lookup can be read at all.  `EvalExpression` panics on a key that is no number and on a
    range over several expressions; whether a plan meets one is decided by the constants of the filter
    and by the widths of the indexes. */
module IndexReadability {
  import opened Values
  import opened Expressions
  import opened Lookups
  import opened IndexPlanning

  // ----- single lookups

  /** A lookup for one key of a mergeable index can be read iff an equality has numbers for all indexed
      expressions, or an inequality has a number for the only one. */
  lemma {:induction false} ComparisonReadable(op: CmpOp, ix: Index, keys: seq<Value>)
    requires ix.mergeable && |keys| == |ix.exprs| > 0
    ensures EvalExpression(ComparisonLookup(op, ix, keys).value).Ok? <==> Typed(keys) && (op == Eq || |ix.exprs| == 1)
  {
    assert keys[..|ix.exprs|] == keys;
    if |keys| == 1 { assert keys[0] in keys; assert Typed(keys) <==> keys[0].Int?; }
  }

  lemma {:induction false} BetweenReadable(ix: Index, lo: seq<Value>, hi: seq<Value>)
    requires ix.mergeable && |lo| == |hi| == |ix.exprs| > 0
    ensures EvalExpression(BetweenLookup(ix, lo, hi).value).Ok? <==> |ix.exprs| == 1 && Typed(lo) && Typed(hi)
  {
    var a, d := Ascend(ix, lo, hi), Descend(ix, lo, hi);
    UnionReadable(a, d);
    if |lo| == 1 {
      assert Typed(lo) <==> lo[0].Int?;
      assert Typed(hi) <==> hi[0].Int?;
    }
  }

  // ----- merged lookups

  lemma {:induction false} ReadableElements(ls: seq<Lookup>)
    ensures EvalExpressions(ls).Ok? <==> forall l | l in ls :: EvalExpression(l).Ok?
  {
    if ls != [] {
      ReadableElements(ls[1..]);
      assert ls[0] in ls;
      assert forall l :: l in ls <==> l == ls[0] || l in ls[1..];
    }
  }

  lemma {:induction false} MergedReadable(l: Lookup, parts: seq<Lookup>)
    requires (l.Unions? || l.Intersections?) && l.parts == parts && |parts| > 0
    ensures EvalExpression(l).Ok? <==> forall p | p in parts :: EvalExpression(p).Ok?
  {
    ReadableElements(parts);
  }

  lemma {:induction false} UnionPartsReadable(ls: seq<Lookup>)
    ensures (forall p | p in UnionParts(ls) :: EvalExpression(p).Ok?) <==> forall l | l in ls :: EvalExpression(l).Ok?
  {
    if ls != [] {
      UnionPartsReadable(ls[1..]);
      var l := ls[0];
      var ps := if l.Unions? && |l.parts| > 0 then l.parts else [l];
      assert forall p :: p in UnionParts(ls) <==> p in ps || p in UnionParts(ls[1..]);
      assert forall x :: x in ls <==> x == l || x in ls[1..];
      if l.Unions? && |l.parts| > 0 { MergedReadable(l, l.parts); }
    }
  }

  lemma {:induction false} IntersectionPartsReadable(ls: seq<Lookup>)
    ensures (forall p | p in IntersectionParts(ls) :: EvalExpression(p).Ok?) <==>
      forall l | l in ls :: EvalExpression(l).Ok?
  {
    if ls != [] {
      IntersectionPartsReadable(ls[1..]);
      var l := ls[0];
      var ps := if l.Intersections? && |l.parts| > 0 then l.parts else [l];
      assert forall p :: p in IntersectionParts(ls) <==> p in ps || p in IntersectionParts(ls[1..]);
      assert forall x :: x in ls <==> x == l || x in ls[1..];
      if l.Intersections? && |l.parts| > 0 { MergedReadable(l, l.parts); }
    }
  }

  /** A union can be read iff both its sides can, flattened or not. */
  lemma {:induction false} UnionReadable(a: Lookup, b: Lookup)
    ensures EvalExpression(Union(a, b)).Ok? <==> EvalExpression(a).Ok? && EvalExpression(b).Ok?
  {
    UnionPartsReadable([a, b]);
    assert forall l :: l in [a, b] <==> l == a || l == b;
    assert |UnionParts([a, b])| > 0;
    MergedReadable(Union(a, b), UnionParts([a, b]));
  }

  lemma {:induction false} IntersectionReadable(a: Lookup, b: Lookup)
    ensures EvalExpression(Intersection(a, b)).Ok? <==> EvalExpression(a).Ok? && EvalExpression(b).Ok?
  {
    IntersectionPartsReadable([a, b]);
    assert forall l :: l in [a, b] <==> l == a || l == b;
    assert |IntersectionParts([a, b])| > 0;
    MergedReadable(Intersection(a, b), IntersectionParts([a, b]));
  }

  // ----- lists

  lemma {:induction false} ElementReadable(negated: bool, ix: Index, c: Value)
    requires |ix.exprs| == 1
    ensures EvalExpression(ElementLookup(negated, ix, c)).Ok? <==> c.Int?
  {
    assert [c][..1] == [c];
    assert EvalExpression(Point(ix, [c])).Ok? <==> c.Int?;
  }

  /** The lookup of an IN or NOT IN list can be read iff every element is a number: `getType` panics on
      a NULL or a boolean. */
  lemma {:induction false} ListLookupReadable(negated: bool, ix: Index, list: seq<Expr>)
    requires |ix.exprs| == 1
    requires |list| > 0 && forall y | y in list :: IsEvaluable(y)
    ensures EvalExpression(ElementLookups(negated, ix, list)).Ok? <==> forall y | y in list :: Constant(y).Int?
  {
    var last := |list| - 1;
    var l := ElementLookup(negated, ix, Constant(list[last]));
    ElementReadable(negated, ix, Constant(list[last]));
    assert forall y :: y in list <==> y in list[..last] || y == list[last];
    if last > 0 {
      ListLookupReadable(negated, ix, list[..last]);
      var before := ElementLookups(negated, ix, list[..last]);
      UnionReadable(before, l);
      IntersectionReadable(before, l);
    }
  }

  // ----- the plan of a filter

  /** Every index has an expression. */
  predicate NoEmptyIndex(cat: Catalog) {
    forall ix | ix in cat.order :: |ix.exprs| > 0
  }

  /** The expression is compared with constants: if it has an index that supports set operations, they
      are numbers. */
  predicate NumbersFor(cat: Catalog, x: Expr, cs: seq<Expr>)
    requires forall c | c in cs :: IsEvaluable(c)
  {
    var ix := IndexByExpression(cat.order, [x]);
    ix.Some? && ix.value.mergeable ==> forall c | c in cs :: Constant(c).Int?
  }

  predicate ReadableComparison(cat: Catalog, l: Expr, r: Expr) {
    if IsEvaluable(r) then IsEvaluable(l) || NumbersFor(cat, l, [r])
    else IsEvaluable(l) ==> NumbersFor(cat, r, [l])
  }

  /** An indexed expression needs a list of two elements or more, and of numbers if the index supports
      set operations. */
  predicate ReadableList(cat: Catalog, negated: bool, x: Expr, list: seq<Expr>) {
    !IsEvaluable(x) && (forall y | y in list :: IsEvaluable(y)) ==>
      var ix := IndexByExpression(cat.order, [x]);
      && (ix.Some? && (ix.value.mergeable || !negated) ==> |list| >= 2)
      && NumbersFor(cat, x, list)
  }

  /** An index that a group of conjuncts of one kind serves has one expression only, unless the group is of
      equalities. */
  predicate NarrowRange(cat: Catalog, cs: seq<Expr>, t: string, kind: Kind) {
    forall ix | ix in cat.order && ix.mergeable && Matches(ix, GroupColumns(cs, Group(cs, t, kind))) ::
      |ix.exprs| == 1 || kind == Comparison(Eq)
  }

  ghost predicate NarrowRanges(cat: Catalog, cs: seq<Expr>) {
    forall t, kind :: NarrowRange(cat, cs, t, kind)
  }

  /** It has numbers for keys as well. */
  predicate ReadableGroup(cat: Catalog, cs: seq<Expr>, t: string, kind: Kind) {
    var g := Group(cs, t, kind);
    && NarrowRange(cat, cs, t, kind)
    && forall ix, p | ix in cat.order && ix.mergeable && Matches(ix, GroupColumns(cs, g)) && p in g ::
        ExtractColumn(cs[p]).value.lower.Int? && ExtractColumn(cs[p]).value.upper.Int?
  }

  ghost predicate ReadableGroups(cat: Catalog, cs: seq<Expr>) {
    forall t, kind :: ReadableGroup(cat, cs, t, kind)
  }

  /** The filter, or its negation, has numbers wherever it meets an index that supports set operations, and
      no range over an index of several expressions. */
  ghost predicate ReadableFilter(cat: Catalog, e: Expr, positive: bool)
    decreases Weight(e)
  {
    match e
    case Cmp(_, l, r) => ReadableComparison(cat, l, r)
    case Between(x, lo, hi) =>
      if positive then !IsEvaluable(x) && IsEvaluable(lo) && IsEvaluable(hi) ==> NumbersFor(cat, x, [lo, hi])
      else ReadableComparison(cat, x, lo) && ReadableComparison(cat, x, hi)
    case InList(negated, x, list) => positive ==> ReadableList(cat, negated, x, list)
    case Not(x) => ReadableFilter(cat, x, !positive)
    case And(l, r) =>
      if positive then
        ConjunctsAreLighter(e);
        ReadableGroups(cat, SplitConjunction(e)) && forall c | c in SplitConjunction(e) :: ReadableFilter(cat, c, true)
      else ReadableFilter(cat, l, false) && ReadableFilter(cat, r, false)
    case Or(l, r) => ReadableFilter(cat, l, positive) && ReadableFilter(cat, r, positive)
    case _ => true
  }

  /** The lookup can be read, as it is or as a part of another one if it supports that. */
  predicate Ready(l: Lookup) {
    if l.Plain? then 0 < |l.ix.exprs| <= |l.key| else EvalExpression(l).Ok?
  }

  predicate PlanReady(plan: Plan) {
    forall t | t in plan :: Ready(plan[t])
  }

  lemma {:induction false} FoundIsNarrow(cat: Catalog, x: Expr, ix: Index)
    requires NoEmptyIndex(cat) && IndexByExpression(cat.order, [x]) == Some(ix)
    ensures |ix.exprs| == 1
  {
    var a, b := multiset(Erased(ix.exprs)), multiset(Erased([x]));
    assert |a| <= |b| by { assert b == a + (b - a); }
  }

  lemma {:induction false} ComparisonReady(op: CmpOp, ix: Index, keys: seq<Value>)
    requires |keys| == |ix.exprs| > 0
    requires ix.mergeable ==> Typed(keys) && (op == Eq || |ix.exprs| == 1)
    ensures var l := ComparisonLookup(op, ix, keys); l.Some? ==> Ready(l.value)
  {
    if ix.mergeable { ComparisonReadable(op, ix, keys); }
  }

  lemma {:induction false} ComparisonPlanReady(cat: Catalog, op: CmpOp, l: Expr, r: Expr)
    requires NoEmptyIndex(cat) && ReadableComparison(cat, l, r)
    ensures PlanReady(ComparisonIndexes(cat, op, l, r)) && PlanReady(UnequalIndexes(cat, l, r))
  {
    var left := if IsEvaluable(r) then l else r;
    var right := if IsEvaluable(r) then r else l;
    var found := IndexByExpression(cat.order, [left]);
    if !IsEvaluable(left) && IsEvaluable(right) && found.Some? {
      var ix, c := found.value, Constant(right);
      FoundIsNarrow(cat, left, ix);
      assert ix.mergeable ==> c.Int? by { assert right in [right]; assert NumbersFor(cat, left, [right]); }
      ComparisonReady(op, ix, [c]);
      ElementReadable(true, ix, c);
    }
  }

  lemma {:induction false} BetweenPlanReady(cat: Catalog, x: Expr, lo: Expr, hi: Expr)
    requires NoEmptyIndex(cat) &&
      (!IsEvaluable(x) && IsEvaluable(lo) && IsEvaluable(hi) ==> NumbersFor(cat, x, [lo, hi]))
    ensures PlanReady(BetweenIndexes(cat, x, lo, hi))
  {
    var found := IndexByExpression(cat.order, [x]);
    if !IsEvaluable(x) && IsEvaluable(lo) && IsEvaluable(hi) && found.Some? && found.value.mergeable {
      FoundIsNarrow(cat, x, found.value);
      assert lo in [lo, hi] && hi in [lo, hi];
      BetweenReadable(found.value, [Constant(lo)], [Constant(hi)]);
    }
  }

  lemma {:induction false} ListPlanReady(cat: Catalog, negated: bool, x: Expr, list: seq<Expr>)
    requires NoEmptyIndex(cat) && ReadableList(cat, negated, x, list)
    ensures InIndexes(cat, negated, x, list).Ok? && PlanReady(InIndexes(cat, negated, x, list).value)
  {
    var found := IndexByExpression(cat.order, [x]);
    if !IsEvaluable(x) && (forall y | y in list :: IsEvaluable(y)) && found.Some? && found.value.mergeable {
      var ix := found.value;
      FoundIsNarrow(cat, x, ix);
      ListLookupReadable(negated, ix, list);
      MergedIsNotPlain(negated, ix, list);
    }
  }

  lemma {:induction false} MergedIsNotPlain(negated: bool, ix: Index, list: seq<Expr>)
    requires |list| > 0 && forall y | y in list :: IsEvaluable(y)
    ensures !ElementLookups(negated, ix, list).Plain?
  {
  }

  lemma {:induction false} MergeReady(left: Plan, right: Plan)
    requires PlanReady(left) && PlanReady(right)
    ensures PlanReady(MergeOr(left, right)) && PlanReady(Intersect(left, right))
  {
    forall t | t in MergeOr(left, right) ensures Ready(MergeOr(left, right)[t]) {
      UnionReadable(left[t], right[t]);
    }
    forall t | t in Intersect(left, right) ensures Ready(Intersect(left, right)[t]) {
      if t in left && t in right { IntersectionReadable(left[t], right[t]); }
    }
  }

  // ----- indexes on several columns

  /** The key of the index for a group of conjuncts is made of their constants. */
  lemma {:induction false} GroupReady(cat: Catalog, cs: seq<Expr>, t: string, kind: Kind)
    requires NoEmptyIndex(cat) && ReadableGroup(cat, cs, t, kind)
    ensures var l := GroupLookup(cat, cs, t, kind).0; l.Some? ==> Ready(l.value)
  {
    if GroupLookup(cat, cs, t, kind).0.Some? {
      var g := Group(cs, t, kind);
      var cols := GroupColumns(cs, g);
      var wide := Widest(cat.scan, cols).value;
      var ix := IndexByExpression(cat.order, wide.exprs).value;
      var ps := KeyPositions(cs, g, ix.exprs).value;
      assert Matches(ix, cols);
      assert forall p | p in ps :: p in g;
      KeyedReady(cs, kind, ix, ps);
    }
  }

  lemma {:induction false} KeyedReady(cs: seq<Expr>, kind: Kind, ix: Index, ps: seq<nat>)
    requires |ix.exprs| == |ps| > 0
    requires forall p | p in ps :: p < |cs| && ExtractColumn(cs[p]).Some?
    requires ix.mergeable ==> |ix.exprs| == 1 || kind == Comparison(Eq)
    requires ix.mergeable ==>
      forall p | p in ps :: ExtractColumn(cs[p]).value.lower.Int? && ExtractColumn(cs[p]).value.upper.Int?
    ensures var l := KeyedLookup(cs, kind, ix, ps); l.Some? ==> Ready(l.value)
  {
    var lows, highs := LowerKeys(cs, ps), UpperKeys(cs, ps);
    if ix.mergeable {
      forall i | 0 <= i < |ps| ensures lows[i].Int? && highs[i].Int? { assert ps[i] in ps; }
      assert Typed(lows) && Typed(highs);
      if kind.Range? { BetweenReadable(ix, lows, highs); }
    }
    if !kind.Range? { ComparisonReady(kind.op, ix, lows); }
  }

  lemma {:induction false} TableReady(cat: Catalog, cs: seq<Expr>, t: string, kinds: seq<Kind>)
    requires NoEmptyIndex(cat) && ReadableGroups(cat, cs)
    ensures var l := TableLookup(cat, cs, t, kinds).0; l.Some? ==> Ready(l.value)
  {
    if kinds != [] {
      var last := |kinds| - 1;
      TableReady(cat, cs, t, kinds[..last]);
      GroupReady(cat, cs, t, kinds[last]);
      var before := TableLookup(cat, cs, t, kinds[..last]).0;
      var l := GroupLookup(cat, cs, t, kinds[last]).0;
      if before.Some? && l.Some? { IntersectionReadable(before.value, l.value); }
    }
  }

  // ----- the whole filter

  /** The plan of such a filter is no error, and all its lookups can be read. */
  lemma {:induction false} PlanIsReady(cat: Catalog, e: Expr)
    requires NoEmptyIndex(cat) && ReadableFilter(cat, e, true)
    ensures GetIndexes(cat, e).Ok? && PlanReady(GetIndexes(cat, e).value)
    decreases Weight(e), 1, 0
  {
    match e
    case Or(l, r) =>
      PlanIsReady(cat, l);
      PlanIsReady(cat, r);
      MergeReady(GetIndexes(cat, l).value, GetIndexes(cat, r).value);
    case InList(negated, x, list) => ListPlanReady(cat, negated, x, list);
    case Cmp(op, l, r) => ComparisonPlanReady(cat, op, l, r);
    case Not(x) => NegatedPlanIsReady(cat, x);
    case Between(x, lo, hi) => BetweenPlanReady(cat, x, lo, hi);
    case And(_, _) =>
      ConjunctsAreLighter(e);
      var cs := SplitConjunction(e);
      var (multi, used) := MultiColumnIndexes(cat, cs);
      forall t | t in multi ensures Ready(multi[t]) { TableReady(cat, cs, t, Kinds(cs, t)); }
      ConjunctsReady(cat, cs, used, |cs|, multi, Weight(e));
    case _ =>
  }

  lemma {:induction false} ConjunctsReady(cat: Catalog, cs: seq<Expr>, used: set<nat>, n: nat, multi: Plan, w: nat)
    requires n <= |cs| && forall c | c in cs :: Weight(c) < w
    requires NoEmptyIndex(cat) && PlanReady(multi) && forall c | c in cs :: ReadableFilter(cat, c, true)
    ensures ConjunctIndexes(cat, cs, used, n, multi, w).Ok? &&
      PlanReady(ConjunctIndexes(cat, cs, used, n, multi, w).value)
    decreases w, 0, n
  {
    if n > 0 {
      ConjunctsReady(cat, cs, used, n - 1, multi, w);
      if n - 1 !in used {
        var c := cs[n - 1];
        assert c in cs;
        PlanIsReady(cat, c);
        MergeReady(ConjunctIndexes(cat, cs, used, n - 1, multi, w).value, GetIndexes(cat, c).value);
      }
    }
  }

  lemma {:induction false} NegatedPlanIsReady(cat: Catalog, e: Expr)
    requires NoEmptyIndex(cat) && ReadableFilter(cat, e, false)
    ensures NegatedIndexes(cat, e).Ok? && PlanReady(NegatedIndexes(cat, e).value)
    decreases 3 * Weight(e) + 1, 0, 1
  {
    match e
    case Not(x) => PlanIsReady(cat, x);
    case Cmp(op, l, r) =>
      ComparisonPlanReady(cat, op, l, r);
      if op != Eq {
        PlanIsReady(cat, Cmp(if op == Gt then Le else if op == Ge then Lt else if op == Lt then Ge else Gt, l, r));
      }
    case Between(x, lo, hi) =>
      var a, b := Cmp(Lt, x, lo), Cmp(Gt, x, hi);
      assert Weight(a) == Weight(b) == 1;
      assert ReadableFilter(cat, a, true) && ReadableFilter(cat, b, true);
      PlanIsReady(cat, Or(a, b));
    case Or(l, r) => NegatedOrIsReady(cat, l, r);
    case And(l, r) =>
      assert Weight(Not(l)) == 3 * Weight(l) + 1 && Weight(Not(r)) == 3 * Weight(r) + 1;
      assert ReadableFilter(cat, Not(l), true) && ReadableFilter(cat, Not(r), true);
      PlanIsReady(cat, Or(Not(l), Not(r)));
    case _ =>
  }

  lemma {:induction false} NoGroup(cs: seq<Expr>, t: string, kind: Kind)
    requires forall c | c in cs :: ExtractColumn(c).None?
    ensures Group(cs, t, kind) == []
  {
    if cs != [] {
      NoGroup(cs[..|cs| - 1], t, kind);
    }
  }

  /** A negation is no comparison of a column with a constant: there are no groups. */
  lemma {:induction false} NegationsHaveNoGroup(cat: Catalog, l: Expr, r: Expr, t: string, kind: Kind)
    requires NoEmptyIndex(cat)
    ensures ReadableGroup(cat, [Not(l), Not(r)], t, kind)
  {
    var cs := [Not(l), Not(r)];
    NoGroup(cs, t, kind);
    var none := GroupColumns(cs, []);
    forall ix | ix in cat.order ensures !Matches(ix, none) {
      assert Erase(ix.exprs[0]) == Erased(ix.exprs)[0];
      assert Erased(ix.exprs)[0] in multiset(Erased(ix.exprs));
    }
  }

  lemma {:induction false} NegatedOrIsReady(cat: Catalog, l: Expr, r: Expr)
    requires NoEmptyIndex(cat) && ReadableFilter(cat, l, false) && ReadableFilter(cat, r, false)
    ensures GetIndexes(cat, And(Not(l), Not(r))).Ok? && PlanReady(GetIndexes(cat, And(Not(l), Not(r))).value)
    decreases 3 * (Weight(l) + Weight(r) + 1) + 1, 0, 0
  {
    var e := And(Not(l), Not(r));
    assert Weight(Not(l)) == 3 * Weight(l) + 1 && Weight(Not(r)) == 3 * Weight(r) + 1;
    assert SplitConjunction(Not(l)) == [Not(l)] && SplitConjunction(Not(r)) == [Not(r)];
    assert SplitConjunction(e) == [Not(l), Not(r)];
    forall t, kind ensures ReadableGroup(cat, [Not(l), Not(r)], t, kind) { NegationsHaveNoGroup(cat, l, r, t, kind); }
    assert ReadableFilter(cat, Not(l), true) && ReadableFilter(cat, Not(r), true);
    assert ReadableFilter(cat, e, true);
    PlanIsReady(cat, e);
  }

  /** The lookup planned for a table can be read: for every such filter, and for a single equality whatever
      its constant is. */
  lemma {:induction false} PlannedLookupIsReadable(cat: Catalog, e: Expr, t: string)
    requires NoEmptyIndex(cat) && (ReadableFilter(cat, e, true) || (e.Cmp? && e.op == Eq))
    ensures GetIndexes(cat, e).Ok?
    ensures t in GetIndexes(cat, e).value ==> MatchExpression(GetIndexes(cat, e).value[t]).Ok?
  {
    if ReadableFilter(cat, e, true) {
      PlanIsReady(cat, e);
    } else if t in GetIndexes(cat, e).value {
      var left := if IsEvaluable(e.r) then e.l else e.r;
      FoundIsNarrow(cat, left, IndexByExpression(cat.order, [left]).value);
    }
  }
}
