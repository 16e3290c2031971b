/** The lookups of the in-memory indexes and what they select.  `EvalExpression` is the code's way of
    giving a lookup a meaning: it builds the expression that the rows must satisfy.  `Accepts` is the
    reference: it says directly which rows belong to a lookup. */
module Lookups {
  import opened Values
  import opened Expressions

  /** An index over expressions of one table.  Only mergeable indexes support ranges, negation and
      set operations. */
  datatype Index = Index(table: string, exprs: seq<Expr>, mergeable: bool)

  datatype Lookup =
    | Plain(ix: Index, key: seq<Value>)                      // UnmergeableIndexLookup
    | Point(ix: Index, key: seq<Value>)                      // MergeableIndexLookup
    | Ascend(ix: Index, gte: seq<Value>, lt: seq<Value>)     // AscendIndexLookup
    | Descend(ix: Index, gt: seq<Value>, lte: seq<Value>)    // DescendIndexLookup
    | Negated(ix: Index, inner: Lookup)                      // NegateIndexLookup
    | Unions(ix: Index, parts: seq<Lookup>)                  // MergedIndexLookup, Unions set
    | Intersections(ix: Index, parts: seq<Lookup>)           // MergedIndexLookup, Intersections set

  // ----- the expression of a lookup

  /** `and` of the memory package: the right-nested conjunction; the empty one panics. */
  function AndAll(es: seq<Expr>): Expr
    requires |es| > 0
  {
    if |es| == 1 then es[0] else And(es[0], AndAll(es[1..]))
  }

  function OrAll(es: seq<Expr>): Expr
    requires |es| > 0
  {
    if |es| == 1 then es[0] else Or(es[0], OrAll(es[1..]))
  }

  function Equalities(exprs: seq<Expr>, key: seq<Value>): (r: seq<Expr>)
    requires |exprs| <= |key|
    ensures |r| == |exprs|
  {
    seq(|exprs|, i requires 0 <= i < |exprs| => Cmp(Eq, exprs[i], Lit(key[i])))
  }

  /** `getType` panics on anything but a number. */
  predicate Typed(vs: seq<Value>) {
    forall v | v in vs :: v.Int?
  }

  function Both(a: Result<Expr>, b: Result<Expr>): Result<Expr> {
    var x :- a;
    var y :- b;
    Ok(AndAll([x, y]))
  }

  /** One bound of a range lookup on the first (and only) indexed expression. */
  function Bound(op: CmpOp, ix: Index, keys: seq<Value>): Result<Expr>
    requires |keys| > 0
  {
    if |ix.exprs| == 0 || !keys[0].Int? then Err else Ok(Cmp(op, ix.exprs[0], Lit(keys[0])))
  }

  function Range(ix: Index, loOp: CmpOp, lo: seq<Value>, hiOp: CmpOp, hi: seq<Value>): Result<Expr> {
    if |ix.exprs| > 1 then Err
    else if |hi| > 0 && |lo| > 0 then Both(Bound(hiOp, ix, hi), Bound(loOp, ix, lo))
    else if |hi| > 0 then Bound(hiOp, ix, hi)
    else if |lo| > 0 then Bound(loOp, ix, lo)
    else Err
  }

  /** `EvalExpression`; `Err` where the code panics. */
  function EvalExpression(l: Lookup): Result<Expr>
    decreases l, 1
  {
    match l
    case Plain(_, _) => Err
    case Point(ix, key) =>
      if 0 < |ix.exprs| <= |key| && Typed(key[..|ix.exprs|]) then Ok(AndAll(Equalities(ix.exprs, key))) else Err
    case Ascend(ix, gte, lt) => Range(ix, Ge, gte, Lt, lt)
    case Descend(ix, gt, lte) => Range(ix, Gt, gt, Le, lte)
    case Negated(_, inner) =>
      var e :- EvalExpression(inner);
      Ok(Not(e))
    case Unions(_, parts) =>
      var es :- EvalExpressions(parts);
      if |es| == 0 then Err else Ok(OrAll(es))
    case Intersections(_, parts) =>
      var es :- EvalExpressions(parts);
      if |es| == 0 then Err else Ok(AndAll(es))
  }

  function EvalExpressions(ls: seq<Lookup>): (r: Result<seq<Expr>>)
    ensures r.Ok? ==> |r.value| == |ls|
    decreases ls, 0
  {
    if ls == [] then Ok([]) else
    var e :- EvalExpression(ls[0]);
    var es :- EvalExpressions(ls[1..]);
    Ok([e] + es)
  }

  /** The expression `Values` matches rows with.  A point lookup uses its key as it is, every other
      lookup goes through `EvalExpression`. */
  function MatchExpression(l: Lookup): Result<Expr> {
    if l.Plain? || l.Point? then
      if 0 < |l.ix.exprs| <= |l.key| then Ok(AndAll(Equalities(l.ix.exprs, l.key))) else Err
    else EvalExpression(l)
  }

  // ----- the rows of a lookup

  /** The indexed expression has a value on the row, and it relates to the key value as `op` says. */
  predicate KeyRelates(op: CmpOp, e: Expr, key: Value, row: Row) {
    && Eval(e, row).Ok?
    && CompareValues(op, Eval(e, row).value, key) == Bool(true)
  }

  predicate KeyDiffers(e: Expr, key: Value, row: Row) {
    && Eval(e, row).Ok?
    && CompareValues(Eq, Eval(e, row).value, key) == Bool(false)
  }

  predicate InBounds(ix: Index, loOp: CmpOp, lo: seq<Value>, hiOp: CmpOp, hi: seq<Value>, row: Row) {
    && |ix.exprs| > 0
    && (|lo| > 0 ==> KeyRelates(loOp, ix.exprs[0], lo[0], row))
    && (|hi| > 0 ==> KeyRelates(hiOp, ix.exprs[0], hi[0], row))
  }

  predicate Accepts(l: Lookup, row: Row) {
    match l
    case Plain(ix, key) => |ix.exprs| <= |key| && forall i | 0 <= i < |ix.exprs| ::
      KeyRelates(Eq, ix.exprs[i], key[i], row)
    case Point(ix, key) => |ix.exprs| <= |key| && forall i | 0 <= i < |ix.exprs| ::
      KeyRelates(Eq, ix.exprs[i], key[i], row)
    case Ascend(ix, gte, lt) => InBounds(ix, Ge, gte, Lt, lt, row)
    case Descend(ix, gt, lte) => InBounds(ix, Gt, gt, Le, lte, row)
    case Negated(ix, inner) =>
      inner.Point? && |inner.ix.exprs| <= |inner.key|
      && exists i | 0 <= i < |inner.ix.exprs| :: KeyDiffers(inner.ix.exprs[i], inner.key[i], row)
    case Unions(_, parts) => exists p | p in parts :: Accepts(p, row)
    case Intersections(_, parts) => forall p | p in parts :: Accepts(p, row)
  }

  /** The lookup is over expressions that a row of `n` values can evaluate; a negation is always of a
      point lookup. */
  predicate Fits(l: Lookup, n: nat) {
    && (forall e | e in l.ix.exprs :: InRange(e, n))
    && (l.Negated? ==> l.inner.Point? && Fits(l.inner, n))
    && (l.Unions? || l.Intersections? ==> forall p | p in l.parts :: Fits(p, n))
  }

  lemma {:induction false} AndAllMeans(es: seq<Expr>, row: Row)
    requires |es| > 0
    requires forall e | e in es :: InRange(e, |row|)
    ensures InRange(AndAll(es), |row|)
    ensures Holds(AndAll(es), row) <==> forall e | e in es :: Holds(e, row)
  {
    if |es| > 1 {
      AndAllMeans(es[1..], row);
      AndHolds(es[0], AndAll(es[1..]), row);
      assert forall e :: e in es <==> e == es[0] || e in es[1..];
    }
  }

  lemma {:induction false} OrAllMeans(es: seq<Expr>, row: Row)
    requires |es| > 0
    requires forall e | e in es :: InRange(e, |row|)
    ensures InRange(OrAll(es), |row|)
    ensures Holds(OrAll(es), row) <==> exists e | e in es :: Holds(e, row)
  {
    if |es| > 1 {
      OrAllMeans(es[1..], row);
      InRangeEvaluates(es[0], row);
      assert forall e :: e in es <==> e == es[0] || e in es[1..];
    }
  }

  /** A conjunction of comparisons is false, not merely NULL, exactly when one of them is. */
  lemma {:induction false} AndAllFalse(es: seq<Expr>, row: Row)
    requires |es| > 0
    requires forall e | e in es :: InRange(e, |row|) && e.Cmp?
    ensures InRange(AndAll(es), |row|)
    ensures Eval(AndAll(es), row).Ok? && !Eval(AndAll(es), row).value.Int?
    ensures Eval(AndAll(es), row) == Ok(Bool(false)) <==> exists e | e in es :: Eval(e, row) == Ok(Bool(false))
  {
    InRangeEvaluates(es[0], row);
    if |es| > 1 {
      AndAllFalse(es[1..], row);
      assert forall e :: e in es <==> e == es[0] || e in es[1..];
    }
  }

  lemma {:induction false} ComparisonMeans(op: CmpOp, e: Expr, key: Value, row: Row)
    requires InRange(e, |row|)
    ensures InRange(Cmp(op, e, Lit(key)), |row|)
    ensures Holds(Cmp(op, e, Lit(key)), row) <==> KeyRelates(op, e, key, row)
    ensures Eval(Cmp(Eq, e, Lit(key)), row) == Ok(Bool(false)) <==> KeyDiffers(e, key, row)
  {
    InRangeEvaluates(e, row);
    assert Eval(Lit(key), row) == Ok(key);
  }

  lemma {:induction false} EqualitiesMean(exprs: seq<Expr>, key: seq<Value>, row: Row)
    requires |exprs| <= |key|
    requires forall e | e in exprs :: InRange(e, |row|)
    ensures forall e | e in Equalities(exprs, key) :: InRange(e, |row|) && e.Cmp?
    ensures (forall e | e in Equalities(exprs, key) :: Holds(e, row))
      <==> forall i | 0 <= i < |exprs| :: KeyRelates(Eq, exprs[i], key[i], row)
    ensures (exists e | e in Equalities(exprs, key) :: Eval(e, row) == Ok(Bool(false)))
      <==> exists i | 0 <= i < |exprs| :: KeyDiffers(exprs[i], key[i], row)
  {
    var es := Equalities(exprs, key);
    forall i | 0 <= i < |exprs|
      ensures es[i] in es && InRange(es[i], |row|)
      ensures Holds(es[i], row) <==> KeyRelates(Eq, exprs[i], key[i], row)
      ensures Eval(es[i], row) == Ok(Bool(false)) <==> KeyDiffers(exprs[i], key[i], row)
    {
      assert exprs[i] in exprs;
      ComparisonMeans(Eq, exprs[i], key[i], row);
    }
  }

  lemma {:induction false} RangeMeans(ix: Index, loOp: CmpOp, lo: seq<Value>, hiOp: CmpOp, hi: seq<Value>, row: Row)
    requires forall e | e in ix.exprs :: InRange(e, |row|)
    requires Range(ix, loOp, lo, hiOp, hi).Ok?
    ensures InRange(Range(ix, loOp, lo, hiOp, hi).value, |row|)
    ensures Holds(Range(ix, loOp, lo, hiOp, hi).value, row) <==> InBounds(ix, loOp, lo, hiOp, hi, row)
  {
    if |hi| > 0 { ComparisonMeans(hiOp, ix.exprs[0], hi[0], row); }
    if |lo| > 0 { ComparisonMeans(loOp, ix.exprs[0], lo[0], row); }
    if |lo| > 0 && |hi| > 0 {
      var h, l := Bound(hiOp, ix, hi).value, Bound(loOp, ix, lo).value;
      assert AndAll([h, l]) == And(h, l);
      AndHolds(h, l, row);
    }
  }

  /** The expression the code builds for a lookup holds on exactly the rows of the lookup, however
      deeply lookups were negated, united and intersected. */
  lemma {:induction false} EvalExpressionSelects(l: Lookup, row: Row)
    requires Fits(l, |row|)
    requires EvalExpression(l).Ok?
    ensures InRange(EvalExpression(l).value, |row|)
    ensures Holds(EvalExpression(l).value, row) <==> Accepts(l, row)
    decreases l, 1
  {
    match l
    case Plain(_, _) =>
    case Point(ix, key) =>
      EqualitiesMean(ix.exprs, key, row);
      AndAllMeans(Equalities(ix.exprs, key), row);
    case Ascend(ix, gte, lt) => RangeMeans(ix, Ge, gte, Lt, lt, row);
    case Descend(ix, gt, lte) => RangeMeans(ix, Gt, gt, Le, lte, row);
    case Negated(_, inner) =>
      EqualitiesMean(inner.ix.exprs, inner.key, row);
      AndAllFalse(Equalities(inner.ix.exprs, inner.key), row);
    case Unions(_, parts) =>
      PartsSelect(parts, row);
      OrAllMeans(EvalExpressions(parts).value, row);
    case Intersections(_, parts) =>
      PartsSelect(parts, row);
      AndAllMeans(EvalExpressions(parts).value, row);
  }

  lemma {:induction false} PartsSelect(parts: seq<Lookup>, row: Row)
    requires forall p | p in parts :: Fits(p, |row|)
    requires EvalExpressions(parts).Ok?
    ensures forall e | e in EvalExpressions(parts).value :: InRange(e, |row|)
    ensures (exists e | e in EvalExpressions(parts).value :: Holds(e, row)) <==>
      exists p | p in parts :: Accepts(p, row)
    ensures (forall e | e in EvalExpressions(parts).value :: Holds(e, row)) <==>
      forall p | p in parts :: Accepts(p, row)
    decreases parts, 0
  {
    if parts != [] {
      EvalExpressionSelects(parts[0], row);
      PartsSelect(parts[1..], row);
      var es := EvalExpressions(parts).value;
      assert es[1..] == EvalExpressions(parts[1..]).value;
      assert forall p :: p in parts <==> p == parts[0] || p in parts[1..];
      assert forall e :: e in es <==> e == es[0] || e in es[1..];
    }
  }

  /** What `Values` matches rows with selects exactly the rows of the lookup. */
  lemma {:induction false} MatchExpressionSelects(l: Lookup, row: Row)
    requires Fits(l, |row|)
    requires MatchExpression(l).Ok?
    ensures InRange(MatchExpression(l).value, |row|)
    ensures Holds(MatchExpression(l).value, row) <==> Accepts(l, row)
  {
    if l.Plain? || l.Point? {
      EqualitiesMean(l.ix.exprs, l.key, row);
      AndAllMeans(Equalities(l.ix.exprs, l.key), row);
    } else {
      EvalExpressionSelects(l, row);
    }
  }

  // ----- set operations

  /** `canMergeIndexes`: both lookups support set operations. */
  predicate CanMerge(a: Lookup, b: Lookup) {
    !a.Plain? && !b.Plain?
  }

  /** The parts of a union, with redundant layers of unions collapsed. */
  function UnionParts(ls: seq<Lookup>): seq<Lookup> {
    if ls == [] then []
    else
      var l := ls[0];
      (if l.Unions? && |l.parts| > 0 then l.parts else [l]) + UnionParts(ls[1..])
  }

  function IntersectionParts(ls: seq<Lookup>): seq<Lookup> {
    if ls == [] then []
    else
      var l := ls[0];
      (if l.Intersections? && |l.parts| > 0 then l.parts else [l]) + IntersectionParts(ls[1..])
  }

  function Union(a: Lookup, b: Lookup): Lookup {
    Unions(a.ix, UnionParts([a, b]))
  }

  function Intersection(a: Lookup, b: Lookup): Lookup {
    Intersections(a.ix, IntersectionParts([a, b]))
  }

  /** The loop of `union`. */
  method CollectUnion(ix: Index, left: Lookup, lookups: seq<Lookup>) returns (r: Lookup)
    ensures r == Unions(ix, UnionParts([left] + lookups))
  {
    var merged: seq<Lookup> := [];
    var all := [left] + lookups;
    for i := 0 to |all|
      invariant merged + UnionParts(all[i..]) == UnionParts(all)
    {
      var l := all[i];
      assert all[i..][1..] == all[i + 1..];
      if l.Unions? && |l.parts| > 0 {
        merged := merged + l.parts;
      } else {
        merged := merged + [l];
      }
    }
    r := Unions(ix, merged);
  }

  /** The loop of `intersection`. */
  method CollectIntersection(ix: Index, left: Lookup, lookups: seq<Lookup>) returns (r: Lookup)
    ensures r == Intersections(ix, IntersectionParts([left] + lookups))
  {
    var merged: seq<Lookup> := [];
    var all := [left] + lookups;
    for i := 0 to |all|
      invariant merged + IntersectionParts(all[i..]) == IntersectionParts(all)
    {
      var l := all[i];
      assert all[i..][1..] == all[i + 1..];
      if l.Intersections? && |l.parts| > 0 {
        merged := merged + l.parts;
      } else {
        merged := merged + [l];
      }
    }
    r := Intersections(ix, merged);
  }

  lemma {:induction false} UnionPartsMean(ls: seq<Lookup>, row: Row)
    ensures (exists p | p in UnionParts(ls) :: Accepts(p, row)) <==>
      exists l | l in ls ::
        if l.Unions? && |l.parts| > 0 then exists p | p in l.parts :: Accepts(p, row) else Accepts(l, row)
  {
    if ls != [] {
      UnionPartsMean(ls[1..], row);
      var l := ls[0];
      var ps := if l.Unions? && |l.parts| > 0 then l.parts else [l];
      assert forall p :: p in UnionParts(ls) <==> p in ps || p in UnionParts(ls[1..]);
      assert forall x :: x in ls <==> x == l || x in ls[1..];
      assert (exists p | p in ps :: Accepts(p, row)) <==>
        if l.Unions? && |l.parts| > 0 then exists p | p in l.parts :: Accepts(p, row) else Accepts(l, row);
    }
  }

  lemma {:induction false} IntersectionPartsMean(ls: seq<Lookup>, row: Row)
    ensures (forall p | p in IntersectionParts(ls) :: Accepts(p, row)) <==>
      forall l | l in ls ::
        if l.Intersections? && |l.parts| > 0 then forall p | p in l.parts :: Accepts(p, row) else Accepts(l, row)
  {
    if ls != [] {
      IntersectionPartsMean(ls[1..], row);
      var l := ls[0];
      var ps := if l.Intersections? && |l.parts| > 0 then l.parts else [l];
      assert forall p :: p in IntersectionParts(ls) <==> p in ps || p in IntersectionParts(ls[1..]);
      assert forall x :: x in ls <==> x == l || x in ls[1..];
      assert (forall p | p in ps :: Accepts(p, row)) <==>
        if l.Intersections? && |l.parts| > 0 then forall p | p in l.parts :: Accepts(p, row) else Accepts(l, row);
    }
  }

  /** Flattening does not change what a union selects. */
  lemma {:induction false} UnionAccepts(a: Lookup, b: Lookup, row: Row)
    ensures Accepts(Union(a, b), row) <==> Accepts(a, row) || Accepts(b, row)
  {
    UnionPartsMean([a, b], row);
    assert forall l :: l in [a, b] <==> l == a || l == b;
  }

  lemma {:induction false} IntersectionAccepts(a: Lookup, b: Lookup, row: Row)
    ensures Accepts(Intersection(a, b), row) <==> Accepts(a, row) && Accepts(b, row)
  {
    IntersectionPartsMean([a, b], row);
    assert forall l :: l in [a, b] <==> l == a || l == b;
  }

  lemma {:induction false} PartsFit(ls: seq<Lookup>, n: nat)
    requires forall l | l in ls :: Fits(l, n)
    ensures forall p | p in UnionParts(ls) :: Fits(p, n)
    ensures forall p | p in IntersectionParts(ls) :: Fits(p, n)
  {
    if ls != [] {
      PartsFit(ls[1..], n);
      assert Fits(ls[0], n);
    }
  }

  lemma {:induction false} MergeFits(a: Lookup, b: Lookup, n: nat)
    requires Fits(a, n) && Fits(b, n)
    ensures Fits(Union(a, b), n) && Fits(Intersection(a, b), n)
  {
    PartsFit([a, b], n);
  }
}
