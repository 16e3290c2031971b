/** Choosing one index lookup per table for a filter: `getIndexes` and `getNegatedIndexes`.

    The lookup found for a table replaces the full scan of that table, so it must never lose a row
    the filter accepts.  `LookupKeepsRow` proves that for every filter and row outside four shapes.  Three
    of them lose rows: an inequality with its column on the right, a BETWEEN with equal bounds and a negated
    OR with a NULL operand; `IndexLimits` says exactly which.  The lookup of the fourth, a NOT IN list with a
    NULL, cannot be read. */
module IndexPlanning {
  import opened Values
  import opened Expressions
  import opened Lookups

  /** The usable indexes: in registration order, and in the order a scan over all of them visits. */
  datatype Catalog = Catalog(order: seq<Index>, scan: seq<Index>)

  type Plan = map<string, Lookup>

  /** The lookup of a table in a plan. */
  function LookupFor(plan: Plan, t: string): Option<Lookup> {
    if t in plan then Some(plan[t]) else None
  }

  function Erased(es: seq<Expr>): (r: seq<Expr>)
    ensures |r| == |es|
    ensures forall i | 0 <= i < |es| :: r[i] == Erase(es[i])
  {
    seq(|es|, i requires 0 <= i < |es| => Erase(es[i]))
  }

  /** `exprListsMatch` on the strings of two expression lists. */
  predicate Matches(ix: Index, es: seq<Expr>) {
    multiset(Erased(ix.exprs)) <= multiset(Erased(es))
  }

  /** `IndexByExpression`: the first usable index whose expressions are all among the given ones. */
  function IndexByExpression(order: seq<Index>, es: seq<Expr>): (r: Option<Index>)
    ensures r.Some? ==> r.value in order && Matches(r.value, es)
    ensures r.None? ==> forall ix | ix in order :: !Matches(ix, es)
  {
    if order == [] then None
    else if Matches(order[0], es) then Some(order[0])
    else IndexByExpression(order[1..], es)
  }

  // ----- lookups on one index

  function Get(ix: Index, key: seq<Value>): Lookup {
    if ix.mergeable then Point(ix, key) else Plain(ix, key)
  }

  /** `comparisonIndexLookup`. */
  function ComparisonLookup(op: CmpOp, ix: Index, keys: seq<Value>): Option<Lookup> {
    if op == Eq then Some(Get(ix, keys))
    else if !ix.mergeable then None
    else match op
      case Gt => Some(Descend(ix, keys, []))
      case Ge => Some(Ascend(ix, keys, []))
      case Lt => Some(Ascend(ix, [], keys))
      case _ => Some(Descend(ix, [], keys))
  }

  /** `betweenIndexLookup`: the union of two half-open ranges. */
  function BetweenLookup(ix: Index, lowers: seq<Value>, uppers: seq<Value>): Option<Lookup> {
    if ix.mergeable then Some(Union(Ascend(ix, lowers, uppers), Descend(ix, lowers, uppers))) else None
  }

  function Constant(e: Expr): Value
    requires IsEvaluable(e)
  {
    EvaluableIsConstant(e, []);
    Eval(e, []).value
  }

  function Singleton(ix: Index, l: Option<Lookup>): Plan {
    if l.Some? then map[ix.table := l.value] else map[]
  }

  /** `getComparisonIndex`: the operands are swapped when the column is on the right, the operator
      is not. */
  function ComparisonIndexes(cat: Catalog, op: CmpOp, l: Expr, r: Expr): Plan {
    var left := if IsEvaluable(r) then l else r;
    var right := if IsEvaluable(r) then r else l;
    if !IsEvaluable(left) && IsEvaluable(right) then
      match IndexByExpression(cat.order, [left])
      case None => map[]
      case Some(ix) => Singleton(ix, ComparisonLookup(op, ix, [Constant(right)]))
    else map[]
  }

  /** The negated equality of `getNegatedIndexes`. */
  function UnequalIndexes(cat: Catalog, l: Expr, r: Expr): Plan {
    var left := if IsEvaluable(r) then l else r;
    var right := if IsEvaluable(r) then r else l;
    if !IsEvaluable(left) && IsEvaluable(right) then
      match IndexByExpression(cat.order, [left])
      case None => map[]
      case Some(ix) => if ix.mergeable then map[ix.table := Negated(ix, Point(ix, [Constant(right)]))] else map[]
    else map[]
  }

  function BetweenIndexes(cat: Catalog, e: Expr, lo: Expr, hi: Expr): Plan {
    if !IsEvaluable(e) && IsEvaluable(lo) && IsEvaluable(hi) then
      match IndexByExpression(cat.order, [e])
      case None => map[]
      case Some(ix) => Singleton(ix, BetweenLookup(ix, [Constant(lo)], [Constant(hi)]))
    else map[]
  }

  /** The lookup for one element of an IN list. */
  function ElementLookup(negated: bool, ix: Index, v: Value): Lookup {
    if negated then Negated(ix, Point(ix, [v])) else Point(ix, [v])
  }

  /** The lookups of the elements, merged from the first to the last: united for IN, intersected for
      NOT IN. */
  function ElementLookups(negated: bool, ix: Index, list: seq<Expr>): Lookup
    requires |list| > 0
    requires forall y | y in list :: IsEvaluable(y)
  {
    var last := |list| - 1;
    var l := ElementLookup(negated, ix, Constant(list[last]));
    if last == 0 then l
    else if negated then Intersection(ElementLookups(negated, ix, list[..last]), l)
    else Union(ElementLookups(negated, ix, list[..last]), l)
  }

  /** The IN and NOT IN cases.  The right side is evaluated as a tuple: a tuple of one element is the
      element itself, so a list of one is an error, and a list of none has no first value. */
  function InIndexes(cat: Catalog, negated: bool, e: Expr, list: seq<Expr>): Result<Plan> {
    if !IsEvaluable(e) && forall y | y in list :: IsEvaluable(y) then
      match IndexByExpression(cat.order, [e])
      case None => Ok(map[])
      case Some(ix) =>
        if negated && !ix.mergeable then Ok(map[])
        else if |list| < 2 then Err
        else if !ix.mergeable then Ok(map[])
        else Ok(map[ix.table := ElementLookups(negated, ix, list)])
    else Ok(map[])
  }

  // ----- merging plans

  /** The merge of an OR: every table needs a lookup from both sides, else no lookup is used. */
  function MergeOr(left: Plan, right: Plan): Plan {
    if left.Keys == right.Keys && AllMerge(left, right) then map t | t in left :: Union(left[t], right[t]) else map[]
  }

  predicate AllMerge(left: Plan, right: Plan) {
    forall t | t in left && t in right :: CanMerge(left[t], right[t])
  }

  /** `indexesIntersection`: lookups on the same table are intersected when they can be merged, else
      the left one is kept. */
  function Intersect(left: Plan, right: Plan): Plan {
    map t | t in left.Keys + right.Keys :: IntersectAt(left, right, t)
  }

  function IntersectAt(left: Plan, right: Plan, t: string): Lookup
    requires t in left || t in right
  {
    if t !in left then right[t]
    else if t in right && CanMerge(left[t], right[t]) then Intersection(left[t], right[t])
    else left[t]
  }

  /** The loop of the OR case, over the tables in any order: what it merges, and what is left over. */
  method MergeOrTables(left: Plan, right: Plan) returns (merged: Plan, rest: set<string>, ok: bool)
    ensures ok <==> left.Keys <= right.Keys && AllMerge(left, right)
    ensures ok ==> rest == right.Keys - left.Keys && merged.Keys == left.Keys
    ensures ok ==> forall t | t in left :: merged[t] == Union(left[t], right[t])
  {
    merged, rest, ok := left, right.Keys, true;
    var todo := left.Keys;
    while todo != {}
      invariant todo <= left.Keys == merged.Keys
      invariant rest == right.Keys - (left.Keys - todo)
      invariant forall t | t in left && t !in todo ::
        t in right && CanMerge(left[t], right[t]) && merged[t] == Union(left[t], right[t])
      decreases |todo|
    {
      var t :| t in todo;
      if t !in rest || !CanMerge(left[t], right[t]) {
        return merged, rest, false;
      }
      merged := merged[t := Union(left[t], right[t])];
      rest := rest - {t};
      todo := todo - {t};
    }
  }

  method MergeOrLoop(left: Plan, right: Plan) returns (result: Plan)
    ensures result == MergeOr(left, right)
  {
    var merged, rest, ok := MergeOrTables(left, right);
    if !ok || rest != {} {
      return map[];
    }
    assert forall t :: t in right.Keys && t !in left.Keys <==> t in rest;
    assert left.Keys == right.Keys;
    return merged;
  }

  /** The two loops of `indexesIntersection`, over the tables in any order. */
  method IntersectLoop(left: Plan, right: Plan) returns (result: Plan)
    ensures result == Intersect(left, right)
  {
    result := map[];
    var todo := left.Keys;
    while todo != {}
      invariant todo <= left.Keys
      invariant result.Keys == left.Keys - todo
      invariant forall t | t in result :: result[t] == IntersectAt(left, right, t)
      decreases |todo|
    {
      var t :| t in todo;
      var l := left[t];
      if t in right && CanMerge(l, right[t]) {
        l := Intersection(l, right[t]);
      }
      result := result[t := l];
      todo := todo - {t};
    }
    result := AddMissing(left, right, result);
  }

  method AddMissing(left: Plan, right: Plan, merged: Plan) returns (result: Plan)
    requires merged.Keys == left.Keys
    requires forall t | t in left :: merged[t] == IntersectAt(left, right, t)
    ensures result == Intersect(left, right)
  {
    result := merged;
    var todo := right.Keys;
    while todo != {}
      invariant forall t :: t in result <==> t in left || (t in right && t !in todo)
      invariant forall t | t in todo :: t in right
      invariant forall t | t in result :: result[t] == IntersectAt(left, right, t)
      decreases |todo|
    {
      var t :| t in todo;
      if t !in result {
        result := result[t := right[t]];
      }
      todo := todo - {t};
    }
    IsIntersect(left, right, result);
  }

  lemma {:induction false} IsIntersect(left: Plan, right: Plan, plan: Plan)
    requires forall t :: t in plan <==> t in left || t in right
    requires forall t | t in plan :: plan[t] == IntersectAt(left, right, t)
    ensures plan == Intersect(left, right)
  {
    forall t | t in plan ensures plan[t] == Intersect(left, right)[t] {}
    assert plan.Keys == Intersect(left, right).Keys;
  }

  // ----- multi-column indexes

  /** What `groupExpressionsByOperator` groups by: the type of the comparison. */
  datatype Kind = Comparison(op: CmpOp) | Range

  /** A conjunct that compares one column with a constant (`extractColumnExpr`).  The code also
      extracts negated comparisons; they form groups of their own, for which it finds no lookup. */
  datatype ColumnExpr = ColumnExpr(col: Expr, kind: Kind, lower: Value, upper: Value)

  function ExtractColumn(e: Expr): Option<ColumnExpr> {
    match e
    case Cmp(op, l, r) =>
      var left := if IsEvaluable(r) then l else r;
      var right := if IsEvaluable(r) then r else l;
      if IsEvaluable(right) && left.Field? then
        Some(ColumnExpr(left, Comparison(op), Constant(right), Constant(right)))
      else None
    case Between(x, lo, hi) =>
      if IsEvaluable(lo) && IsEvaluable(hi) && x.Field? then
        Some(ColumnExpr(x, Range, Constant(lo), Constant(hi)))
      else None
    case _ => None
  }

  predicate InGroup(e: Expr, table: string, kind: Kind) {
    var c := ExtractColumn(e);
    c.Some? && c.value.col.table == table && c.value.kind == kind
  }

  /** The positions of the conjuncts of one table and one kind, in order. */
  function Group(cs: seq<Expr>, table: string, kind: Kind): (r: seq<nat>)
    ensures forall p | p in r :: p < |cs| && InGroup(cs[p], table, kind)
  {
    if cs == [] then []
    else
      var last := |cs| - 1;
      var g := Group(cs[..last], table, kind);
      if InGroup(cs[last], table, kind) then g + [last] else g
  }

  function GroupColumns(cs: seq<Expr>, g: seq<nat>): seq<Expr>
    requires forall p | p in g :: p < |cs| && ExtractColumn(cs[p]).Some?
  {
    seq(|g|, i requires 0 <= i < |g| => assert g[i] in g; ExtractColumn(cs[g[i]]).value.col)
  }

  /** `ExpressionsWithIndexes` and the choice of its longest answer: the first of the longest indexes
      of more than one expression, all of them among the given columns. */
  function Widest(scan: seq<Index>, cols: seq<Expr>): (r: Option<Index>)
    ensures r.Some? ==> Matches(r.value, cols)
  {
    if scan == [] then None
    else
      var last := |scan| - 1;
      var best := Widest(scan[..last], cols);
      var ix := scan[last];
      if 1 < |ix.exprs| <= |cols| && Matches(ix, cols) && (best.None? || |ix.exprs| > |best.value.exprs|)
      then Some(ix) else best
  }

  /** `findColumn`: the first conjunct of the group on the given column. */
  function FindColumn(cs: seq<Expr>, g: seq<nat>, x: Expr): (r: Option<nat>)
    requires forall p | p in g :: p < |cs| && ExtractColumn(cs[p]).Some?
    ensures r.Some? ==> r.value in g && Erase(ExtractColumn(cs[r.value]).value.col) == Erase(x)
    ensures r.None? ==> forall p | p in g :: Erase(ExtractColumn(cs[p]).value.col) != Erase(x)
  {
    if g == [] then None
    else
      assert g[0] in g && forall p | p in g[1..] :: p in g;
      if Erase(ExtractColumn(cs[g[0]]).value.col) == Erase(x) then Some(g[0])
      else FindColumn(cs, g[1..], x)
  }

  /** The conjuncts that provide the key of the index, one per indexed expression. */
  function KeyPositions(cs: seq<Expr>, g: seq<nat>, exprs: seq<Expr>): (r: Option<seq<nat>>)
    requires forall p | p in g :: p < |cs| && ExtractColumn(cs[p]).Some?
    ensures r.Some? ==> |r.value| == |exprs|
    ensures r.Some? ==> forall i | 0 <= i < |exprs| ::
      r.value[i] in g && Erase(ExtractColumn(cs[r.value[i]]).value.col) == Erase(exprs[i])
  {
    if exprs == [] then Some([])
    else
      var p := FindColumn(cs, g, exprs[0]);
      var ps := KeyPositions(cs, g, exprs[1..]);
      if p.Some? && ps.Some? then Some([p.value] + ps.value) else None
  }

  function LowerKeys(cs: seq<Expr>, ps: seq<nat>): seq<Value>
    requires forall p | p in ps :: p < |cs| && ExtractColumn(cs[p]).Some?
  {
    seq(|ps|, i requires 0 <= i < |ps| => assert ps[i] in ps; ExtractColumn(cs[ps[i]]).value.lower)
  }

  function UpperKeys(cs: seq<Expr>, ps: seq<nat>): seq<Value>
    requires forall p | p in ps :: p < |cs| && ExtractColumn(cs[p]).Some?
  {
    seq(|ps|, i requires 0 <= i < |ps| => assert ps[i] in ps; ExtractColumn(cs[ps[i]]).value.upper)
  }

  /** The lookup for the key that these conjuncts provide. */
  function KeyedLookup(cs: seq<Expr>, kind: Kind, ix: Index, ps: seq<nat>): Option<Lookup>
    requires forall p | p in ps :: p < |cs| && ExtractColumn(cs[p]).Some?
  {
    if kind.Range? then BetweenLookup(ix, LowerKeys(cs, ps), UpperKeys(cs, ps))
    else ComparisonLookup(kind.op, ix, LowerKeys(cs, ps))
  }

  /** `getMultiColumnIndexForExpressions` on one group: a lookup, and the conjuncts it stands for. */
  function GroupLookup(cat: Catalog, cs: seq<Expr>, table: string, kind: Kind): (Option<Lookup>, set<nat>) {
    var g := Group(cs, table, kind);
    match Widest(cat.scan, GroupColumns(cs, g))
    case None => (None, {})
    case Some(wide) =>
      match IndexByExpression(cat.order, wide.exprs)
      case None => (None, {})
      case Some(ix) =>
        match KeyPositions(cs, g, ix.exprs)
        case None => (None, {})
        case Some(ps) =>
          assert forall p | p in ps :: p in g;
          (KeyedLookup(cs, kind, ix, ps), set p | p in ps)
  }

  /** The kinds of comparisons on a table, in order of first appearance. */
  function Kinds(cs: seq<Expr>, table: string): seq<Kind> {
    if cs == [] then []
    else
      var last := |cs| - 1;
      var ks := Kinds(cs[..last], table);
      var c := ExtractColumn(cs[last]);
      if c.Some? && c.value.col.table == table && c.value.kind !in ks then ks + [c.value.kind] else ks
  }

  function MergeLookups(before: Option<Lookup>, l: Option<Lookup>): Option<Lookup> {
    if before.None? then l
    else if l.Some? && CanMerge(before.value, l.value) then Some(Intersection(before.value, l.value))
    else before
  }

  /** The lookups of all groups of a table, intersected in order. */
  function TableLookup(cat: Catalog, cs: seq<Expr>, table: string, kinds: seq<Kind>): (Option<Lookup>, set<nat>) {
    if kinds == [] then (None, {})
    else
      var last := |kinds| - 1;
      var (before, used) := TableLookup(cat, cs, table, kinds[..last]);
      var (l, used') := GroupLookup(cat, cs, table, kinds[last]);
      (MergeLookups(before, l), used + used')
  }

  function ColumnTables(cs: seq<Expr>): set<string> {
    set c | c in cs && ExtractColumn(c).Some? :: ExtractColumn(c).value.col.table
  }

  /** `getMultiColumnIndexes`: the plan, and the conjuncts it makes it unnecessary to look at again. */
  function MultiColumnIndexes(cat: Catalog, cs: seq<Expr>): (Plan, set<nat>) {
    (map t | t in ColumnTables(cs) && TableLookup(cat, cs, t, Kinds(cs, t)).0.Some? ::
       TableLookup(cat, cs, t, Kinds(cs, t)).0.value,
     set t, p | t in ColumnTables(cs) && p in TableLookup(cat, cs, t, Kinds(cs, t)).1 :: p)
  }

  // ----- the mutual recursion

  /** The termination measure: pushing a negation inwards enlarges the expression but makes it
      lighter. */
  function Weight(e: Expr): nat {
    match e
    case Between(_, _, _) => 2
    case Not(x) => 3 * Weight(x) + 1
    case And(l, r) => Weight(l) + Weight(r) + 1
    case Or(l, r) => Weight(l) + Weight(r) + 1
    case _ => 1
  }

  lemma {:induction false} ConjunctsAreLighter(e: Expr)
    ensures forall c | c in SplitConjunction(e) :: Weight(c) <= Weight(e) && (e.And? ==> Weight(c) < Weight(e))
  {
    if e.And? {
      ConjunctsAreLighter(e.l);
      ConjunctsAreLighter(e.r);
    }
  }

  /** `getIndexes`. */
  function GetIndexes(cat: Catalog, e: Expr): Result<Plan>
    decreases Weight(e), 1, 0
  {
    match e
    case Or(l, r) =>
      if |set c | c in Columns(e) :: c.source| > 1 then Ok(map[]) else
      var left :- GetIndexes(cat, l);
      var right :- GetIndexes(cat, r);
      Ok(MergeOr(left, right))
    case InList(negated, x, list) => InIndexes(cat, negated, x, list)
    case Cmp(op, l, r) => Ok(ComparisonIndexes(cat, op, l, r))
    case Not(x) => NegatedIndexes(cat, x)
    case Between(x, lo, hi) => Ok(BetweenIndexes(cat, x, lo, hi))
    case And(_, _) =>
      ConjunctsAreLighter(e);
      var cs := SplitConjunction(e);
      var (multi, used) := MultiColumnIndexes(cat, cs);
      ConjunctIndexes(cat, cs, used, |cs|, multi, Weight(e))
    case _ => Ok(map[])
  }

  /** The loop of the AND case over the first `n` conjuncts. */
  function ConjunctIndexes(cat: Catalog, cs: seq<Expr>, used: set<nat>, n: nat, multi: Plan, w: nat): Result<Plan>
    requires n <= |cs|
    requires forall c | c in cs :: Weight(c) < w
    decreases w, 0, n
  {
    if n == 0 then Ok(multi) else
    var before :- ConjunctIndexes(cat, cs, used, n - 1, multi, w);
    if n - 1 in used then Ok(before) else
    assert cs[n - 1] in cs;
    var plan :- GetIndexes(cat, cs[n - 1]);
    Ok(Intersect(before, plan))
  }

  /** `getNegatedIndexes` of the negation of `e`. */
  function NegatedIndexes(cat: Catalog, e: Expr): Result<Plan>
    decreases 3 * Weight(e) + 1, 0, 0
  {
    match e
    case Not(x) => GetIndexes(cat, x)
    case Cmp(op, l, r) =>
      (match op
       case Eq => Ok(UnequalIndexes(cat, l, r))
       case Gt => GetIndexes(cat, Cmp(Le, l, r))
       case Ge => GetIndexes(cat, Cmp(Lt, l, r))
       case Lt => GetIndexes(cat, Cmp(Ge, l, r))
       case Le => GetIndexes(cat, Cmp(Gt, l, r)))
    case Between(x, lo, hi) =>
      assert Weight(Cmp(Lt, x, lo)) == Weight(Cmp(Gt, x, hi)) == 1;
      GetIndexes(cat, Or(Cmp(Lt, x, lo), Cmp(Gt, x, hi)))
    case Or(l, r) =>
      assert Weight(Not(l)) == 3 * Weight(l) + 1 && Weight(Not(r)) == 3 * Weight(r) + 1;
      GetIndexes(cat, And(Not(l), Not(r)))
    case And(l, r) =>
      assert Weight(Not(l)) == 3 * Weight(l) + 1 && Weight(Not(r)) == 3 * Weight(r) + 1;
      GetIndexes(cat, Or(Not(l), Not(r)))
    case _ => Ok(map[])
  }
}
