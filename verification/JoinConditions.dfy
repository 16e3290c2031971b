/** `moveJoinConditionsToFilter`: the conjuncts of an inner join's condition that need one side only become
    filters of that side, the others stay; without any of those the join becomes a cross join. */
module JoinConditions {
  import opened Values
  import opened Expressions
  import opened NestedLoop
  import MemoryTable
  import Pushdown

  /** Plans of inner joins. */
  datatype Plan =
    | Source(schema: Schema, rows: seq<Row>)
    | Filter(cond: Expr, child: Plan)
    | InnerJoin(left: Plan, right: Plan, cond: Expr)
    | CrossJoin(left: Plan, right: Plan)

  function SchemaOf(p: Plan): Schema {
    match p
    case Source(s, _) => s
    case Filter(_, c) => SchemaOf(c)
    case InnerJoin(l, r, _) => SchemaOf(l) + SchemaOf(r)
    case CrossJoin(l, r) => SchemaOf(l) + SchemaOf(r)
  }

  function JoinOf(l: Plan, r: Plan, cond: Expr): Join {
    Join(Inner, |SchemaOf(l)| + |SchemaOf(r)|, cond)
  }

  /** The pairs that pass a test, left row by left row. */
  function Pairs(test: Row -> bool, ls: seq<Row>, rs: seq<Row>): seq<Row> {
    if ls == [] then [] else PairsOf(test, ls[0], rs) + Pairs(test, ls[1..], rs)
  }

  function PairsOf(test: Row -> bool, l: Row, rs: seq<Row>): seq<Row> {
    if rs == [] then [] else (if test(l + rs[0]) then [l + rs[0]] else []) + PairsOf(test, l, rs[1..])
  }

  /** The rows that pass a test. */
  function Kept(test: Row -> bool, rows: seq<Row>): seq<Row> {
    if rows == [] then [] else (if test(rows[0]) then [rows[0]] else []) + Kept(test, rows[1..])
  }

  function RowsOfPlan(p: Plan): seq<Row> {
    match p
    case Source(_, rows) => rows
    case Filter(e, c) => MemoryTable.Filtered(e, RowsOfPlan(c))
    case InnerJoin(l, r, cond) => NestedLoopJoin(JoinOf(l, r, cond), RowsOfPlan(l), RowsOfPlan(r))
    case CrossJoin(l, r) => Pairs(_ => true, RowsOfPlan(l), RowsOfPlan(r))
  }

  // ----- which conjuncts move

  function Sources(s: Schema): set<string> {
    set c | c in s :: c.source
  }

  predicate Movable(s: Schema, e: Expr) {
    Pushdown.Tables(e) <= Sources(s)
  }

  function SideConjuncts(cond: Expr, ls: Schema): seq<Expr> {
    Pushdown.Select(SplitConjunction(cond), e => Movable(ls, e))
  }

  function Residual(cond: Expr, ls: Schema, rs: Schema): seq<Expr> {
    Pushdown.Select(SplitConjunction(cond), e => !Movable(ls, e) && !Movable(rs, e))
  }

  /** What a condition is split into: the filters of the two sides and the rest. */
  datatype Parts = Parts(left: Option<Expr>, right: Option<Expr>, rest: Option<Expr>)

  /** The conjunction of the given conjuncts, if there are any, with its fields moved to the schema of a side. */
  function SideFilter(es: seq<Expr>, s: Schema): Result<Option<Expr>> {
    if es == [] then Ok(None) else
    var e :- FixFieldIndexes(s, JoinAnd(es));
    Ok(Some(e))
  }

  function SplitCondition(cond: Expr, ls: Schema, rs: Schema): Result<Parts> {
    var left :- SideFilter(SideConjuncts(cond, ls), ls);
    var right :- SideFilter(SideConjuncts(cond, rs), rs);
    var rest := Residual(cond, ls, rs);
    Ok(Parts(left, right, if rest == [] then None else Some(JoinAnd(rest))))
  }

  function WithFilter(f: Option<Expr>, p: Plan): Plan {
    if f.None? then p else Filter(f.value, p)
  }

  /** The join rebuilt from the parts of its condition. */
  function Rebuild(l: Plan, r: Plan, ps: Parts): Plan {
    var (left, right) := (WithFilter(ps.left, l), WithFilter(ps.right, r));
    if ps.rest.None? then CrossJoin(left, right) else InnerJoin(left, right, ps.rest.value)
  }

  function MoveAt(l: Plan, r: Plan, cond: Expr): Result<Plan> {
    var ps :- SplitCondition(cond, SchemaOf(l), SchemaOf(r));
    Ok(Rebuild(l, r, ps))
  }

  /** The rewrite, bottom-up over the plan. */
  function Move(p: Plan): Result<Plan> {
    match p
    case Source(_, _) => Ok(p)
    case Filter(e, c) =>
      var c' :- Move(c);
      Ok(Filter(e, c'))
    case CrossJoin(l, r) =>
      var l' :- Move(l);
      var r' :- Move(r);
      Ok(CrossJoin(l', r'))
    case InnerJoin(l, r, cond) =>
      var l' :- Move(l);
      var r' :- Move(r);
      MoveAt(l', r', cond)
  }

  // ----- the loops that do it

  /** `containsSources`. */
  method ContainsSources(haystack: seq<string>, needle: seq<string>) returns (r: bool)
    ensures r <==> forall s | s in needle :: s in haystack
  {
    for i := 0 to |needle|
      invariant forall k | 0 <= k < i :: needle[k] in haystack
    {
      var found := false;
      for j := 0 to |haystack|
        invariant !found && forall k | 0 <= k < j :: haystack[k] != needle[i]
      {
        if haystack[j] == needle[i] {
          found := true;
          break;
        }
      }
      if !found {
        assert needle[i] in needle && needle[i] !in haystack;
        return false;
      }
    }
    return true;
  }

  /** `nodeSources`: the sources of a schema, each once. */
  method NodeSources(s: Schema) returns (r: seq<string>)
    ensures forall x :: x in r <==> x in Sources(s)
    ensures forall i, j | 0 <= i < j < |r| :: r[i] != r[j]
  {
    var sources: set<string> := {};
    r := [];
    for i := 0 to |s|
      invariant forall x :: x in r <==> x in sources
      invariant sources == Sources(s[..i])
      invariant forall j, k | 0 <= j < k < |r| :: r[j] != r[k]
    {
      SourcesGrow(s, i);
      if s[i].source !in sources {
        sources := sources + {s[i].source};
        r := r + [s[i].source];
      }
    }
    assert s[..|s|] == s;
  }

  lemma {:induction false} SourcesGrow(s: Schema, i: nat)
    requires i < |s|
    ensures Sources(s[..i + 1]) == Sources(s[..i]) + {s[i].source}
  {
    assert s[..i + 1] == s[..i] + [s[i]];
    assert forall c :: c in s[..i + 1] <==> c in s[..i] || c == s[i];
    assert s[i] in s[..i + 1];
  }

  predicate NoRepeats(r: seq<string>) {
    forall i, j | 0 <= i < j < |r| :: r[i] != r[j]
  }

  /** `expressionSources`: the tables of the fields of an expression, each once, in the order of a traversal. */
  function SourceList(e: Expr): (r: seq<string>)
    ensures NoRepeats(r) && forall x :: x in r <==> x in Pushdown.Tables(e)
  {
    SourcesFrom(e, [])
  }

  /** The traversal, after it has collected some sources. */
  function SourcesFrom(e: Expr, seen: seq<string>): (r: seq<string>)
    ensures NoRepeats(seen) ==> NoRepeats(r)
    ensures forall x :: x in r <==> x in seen || x in Pushdown.Tables(e)
    decreases e, 1
  {
    match e
    case Lit(_) => seen
    case Subquery(_) => seen
    case Field(_, t, n) => assert Column(t, n) in Columns(e); if t in seen then seen else seen + [t]
    case Cmp(_, l, r) => SourcesFrom(r, SourcesFrom(l, seen))
    case InList(_, x, list) => SourcesFromAll(list, SourcesFrom(x, seen))
    case Between(x, lo, hi) => SourcesFrom(hi, SourcesFrom(lo, SourcesFrom(x, seen)))
    case Not(x) => SourcesFrom(x, seen)
    case And(l, r) => SourcesFrom(r, SourcesFrom(l, seen))
    case Or(l, r) => SourcesFrom(r, SourcesFrom(l, seen))
    case IsNull(x) => SourcesFrom(x, seen)
  }

  function SourcesFromAll(es: seq<Expr>, seen: seq<string>): (r: seq<string>)
    ensures NoRepeats(seen) ==> NoRepeats(r)
    ensures forall x :: x in r <==> x in seen || exists e | e in es :: x in Pushdown.Tables(e)
    decreases es, 0
  {
    if es == [] then seen
    else
      assert forall e :: e in es <==> e == es[0] || e in es[1..];
      SourcesFromAll(es[1..], SourcesFrom(es[0], seen))
  }

  /** The loop that sorts the conjuncts into the three lists. */
  method SortConjuncts(conjuncts: seq<Expr>, ls: Schema, rs: Schema)
      returns (left: seq<Expr>, right: seq<Expr>, rest: seq<Expr>)
    ensures left == Pushdown.Select(conjuncts, e => Movable(ls, e))
    ensures right == Pushdown.Select(conjuncts, e => Movable(rs, e))
    ensures rest == Pushdown.Select(conjuncts, e => !Movable(ls, e) && !Movable(rs, e))
  {
    left, right, rest := [], [], [];
    var leftSources := NodeSources(ls);
    var rightSources := NodeSources(rs);
    for i := 0 to |conjuncts|
      invariant left == Pushdown.Select(conjuncts[..i], e => Movable(ls, e))
      invariant right == Pushdown.Select(conjuncts[..i], e => Movable(rs, e))
      invariant rest == Pushdown.Select(conjuncts[..i], e => !Movable(ls, e) && !Movable(rs, e))
    {
      var e := conjuncts[i];
      assert conjuncts[..i + 1][..i] == conjuncts[..i];
      var canMoveLeft := ContainsSources(leftSources, SourceList(e));
      var canMoveRight := ContainsSources(rightSources, SourceList(e));
      assert canMoveLeft == Movable(ls, e) && canMoveRight == Movable(rs, e);
      if canMoveLeft {
        left := left + [e];
      }
      if canMoveRight {
        right := right + [e];
      }
      if !canMoveLeft && !canMoveRight {
        rest := rest + [e];
      }
    }
    assert conjuncts[..|conjuncts|] == conjuncts;
  }

  // ----- the rows stay

  /** The condition gives a boolean or NULL: the join tests for `true`, a filter for truth. */
  predicate BoolOrNull(e: Expr, row: Row) {
    Eval(e, row).Ok? && !Eval(e, row).value.Int?
  }

  /** The condition gives a number other than 0: a filter accepts it, the join does not. */
  predicate IsNumber(e: Expr, row: Row) {
    Eval(e, row).Ok? && Eval(e, row).value.Int? && Truthy(Eval(e, row).value)
  }

  lemma {:induction false} TrueUnlessNumber(e: Expr, row: Row)
    ensures Holds(e, row) <==> IsTrue(e, row) || IsNumber(e, row)
    ensures !(IsTrue(e, row) && IsNumber(e, row))
  {
  }

  /** A column, a literal or a subquery: the expressions without an operator. */
  predicate Bare(e: Expr) {
    e.Lit? || e.Field? || e.Subquery?
  }

  /** Every operator gives a boolean or NULL. */
  lemma {:induction false} OperatorsJudge(e: Expr, row: Row)
    requires !Bare(e) && Eval(e, row).Ok?
    ensures BoolOrNull(e, row)
  {
    match e
    case Cmp(_, _, _) =>
    case InList(_, _, _) =>
    case Between(_, _, _) =>
    case Not(_) =>
    case And(_, _) =>
    case Or(_, _) =>
    case IsNull(_) =>
  }

  lemma {:induction false} JoinAndMeans(es: seq<Expr>, row: Row)
    requires es != [] && forall c | c in es :: BoolOrNull(c, row)
    ensures IsTrue(JoinAnd(es), row) <==> forall c | c in es :: Holds(c, row)
  {
    assert Holds(JoinAnd(es), row) <==> forall c | c in es :: Holds(c, row);
    if |es| == 1 {
      assert es[0] in es;
    }
  }

  /** A side of a join: its schema, the other side's sources do not occur in it, and it shows part of the row. */
  predicate Side(all: Schema, side: Schema, row: Row, part: Row) {
    && SameColumns(all, row, side, part)
    && forall c | c in all && c.source in Sources(side) :: c in side
  }

  lemma {:induction false} JoinAndColumns(es: seq<Expr>, s: Schema, side: Schema)
    requires es != [] && forall e | e in es :: Resolved(e, s) && Movable(side, e)
    ensures Resolved(JoinAnd(es), s) && Movable(side, JoinAnd(es))
    decreases |es|
  {
    if |es| > 1 {
      var last := |es| - 1;
      assert es[last] in es && forall e | e in es[..last] :: e in es;
      JoinAndColumns(es[..last], s, side);
      assert Pushdown.Tables(JoinAnd(es)) == Pushdown.Tables(JoinAnd(es[..last])) + Pushdown.Tables(es[last]);
    } else {
      assert es[0] in es;
    }
  }

  /** The filter made of movable conjuncts exists, and says of its side what they say of the joined row. */
  lemma {:induction false} MovedFilterMeans(es: seq<Expr>, all: Schema, side: Schema, row: Row, part: Row)
    requires es != [] && forall e | e in es :: Resolved(e, all) && Movable(side, e)
    requires Side(all, side, row, part)
    ensures FixFieldIndexes(side, JoinAnd(es)).Ok?
    ensures Holds(FixFieldIndexes(side, JoinAnd(es)).value, part) <==> forall e | e in es :: Holds(e, row)
  {
    var e := JoinAnd(es);
    JoinAndColumns(es, all, side);
    FilterExists(e, all, side);
    var f := FixFieldIndexes(side, e).value;
    SameValue(e, all, row, f, side, part);
    assert Holds(f, part) <==> Holds(e, row);
  }

  lemma {:induction false} FilterExists(e: Expr, all: Schema, side: Schema)
    requires Resolved(e, all) && Movable(side, e)
    requires forall c | c in all && c.source in Sources(side) :: c in side
    ensures FixFieldIndexes(side, e).Ok?
  {
    ResolvedColumns(e, all);
    forall c | c in Columns(e) ensures c in side {
      assert c.source in Pushdown.Tables(e);
    }
  }

  // ----- joins and filters

  predicate TestSplits(test: Row -> bool, lt: Row -> bool, rt: Row -> bool, rest: Row -> bool, l: Row, r: Row) {
    test(l + r) == (lt(l) && rt(r) && rest(l + r))
  }

  /** Testing pairs by a conjunction of a test of the left row, one of the right row and one of the pair. */
  lemma {:induction false} PairsOfKept(test: Row -> bool, lt: Row -> bool, rt: Row -> bool, rest: Row -> bool, l: Row,
                                       rs: seq<Row>)
    requires forall r | r in rs :: TestSplits(test, lt, rt, rest, l, r)
    ensures PairsOf(test, l, rs) == if lt(l) then PairsOf(rest, l, Kept(rt, rs)) else []
  {
    if rs != [] {
      PairsOfKept(test, lt, rt, rest, l, rs[1..]);
      assert rs[0] in rs && TestSplits(test, lt, rt, rest, l, rs[0]);
      if rt(rs[0]) {
        assert Kept(rt, rs)[1..] == Kept(rt, rs[1..]);
      } else {
        assert Kept(rt, rs) == Kept(rt, rs[1..]);
      }
    }
  }

  lemma {:induction false} PairsKept(test: Row -> bool, lt: Row -> bool, rt: Row -> bool, rest: Row -> bool,
                                     ls: seq<Row>, rs: seq<Row>)
    requires forall l, r | l in ls && r in rs :: TestSplits(test, lt, rt, rest, l, r)
    ensures Pairs(test, ls, rs) == Pairs(rest, Kept(lt, ls), Kept(rt, rs))
  {
    if ls != [] {
      PairsKept(test, lt, rt, rest, ls[1..], rs);
      assert ls[0] in ls;
      PairsOfKept(test, lt, rt, rest, ls[0], rs);
      if lt(ls[0]) {
        assert Kept(lt, ls)[1..] == Kept(lt, ls[1..]);
      } else {
        assert Kept(lt, ls) == Kept(lt, ls[1..]);
      }
    }
  }

  lemma {:induction false} FilteredIsKept(e: Expr, test: Row -> bool, rows: seq<Row>)
    requires forall r | r in rows :: test(r) == Holds(e, r)
    ensures MemoryTable.Filtered(e, rows) == Kept(test, rows)
  {
    if rows != [] {
      FilteredIsKept(e, test, rows[1..]);
      assert rows[0] in rows;
    }
  }

  lemma {:induction false} KeptAll(test: Row -> bool, rows: seq<Row>)
    requires forall r | r in rows :: test(r)
    ensures Kept(test, rows) == rows
  {
    if rows != [] {
      KeptAll(test, rows[1..]);
      assert rows[0] in rows;
    }
  }

  /** The test is the condition of the join on this pair. */
  predicate Tests(j: Join, test: Row -> bool, l: Row, r: Row) {
    |l| + |r| == j.rowSize && test(l + r) == IsTrue(j.cond, l + r)
  }

  lemma {:induction false} MatchesArePairs(j: Join, test: Row -> bool, l: Row, rs: seq<Row>)
    requires j.typ == Inner && forall r | r in rs :: Tests(j, test, l, r)
    ensures Matches(j, l, rs) == PairsOf(test, l, rs)
  {
    if rs != [] {
      MatchesArePairs(j, test, l, rs[1..]);
      assert rs[0] in rs;
      assert BuildRow(j, l, rs[0]) == l + rs[0];
    }
  }

  lemma {:induction false} JoinIsPairs(j: Join, test: Row -> bool, ls: seq<Row>, rs: seq<Row>)
    requires j.typ == Inner && forall l, r | l in ls && r in rs :: Tests(j, test, l, r)
    ensures NestedLoopJoin(j, ls, rs) == Pairs(test, ls, rs)
  {
    if ls != [] {
      JoinIsPairs(j, test, ls[1..], rs);
      var l := ls[0];
      assert l in ls;
      forall r | r in rs ensures Tests(j, test, l, r) {}
      MatchesArePairs(j, test, l, rs);
      assert RowsOf(j, l, rs, false) == PairsOf(test, l, rs);
    }
  }

  predicate Passes(f: Option<Expr>, row: Row) {
    f.None? || Holds(f.value, row)
  }

  predicate PassesJoin(cond: Option<Expr>, row: Row) {
    cond.None? || IsTrue(cond.value, row)
  }

  /** The pair passes the left filter, the right filter and the rest of the condition. */
  predicate PassesParts(ps: Parts, l: Row, r: Row) {
    Passes(ps.left, l) && Passes(ps.right, r) && PassesJoin(ps.rest, l + r)
  }

  /** The join accepts the pair iff its parts do. */
  predicate Splits(cond: Expr, ps: Parts, l: Row, r: Row) {
    IsTrue(cond, l + r) <==> PassesParts(ps, l, r)
  }

  lemma {:induction false} FilteredSide(f: Option<Expr>, p: Plan, test: Row -> bool)
    requires forall r :: test(r) == Passes(f, r)
    ensures RowsOfPlan(WithFilter(f, p)) == Kept(test, RowsOfPlan(p)) && SchemaOf(WithFilter(f, p)) == SchemaOf(p)
  {
    if f.None? {
      KeptAll(test, RowsOfPlan(p));
    } else {
      FilteredIsKept(f.value, test, RowsOfPlan(p));
    }
  }

  lemma {:induction false} RebuildByTests(l: Plan, r: Plan, ps: Parts, test: Row -> bool, lt: Row -> bool,
                                          rt: Row -> bool)
    requires AllWide(RowsOfPlan(l), SchemaOf(l)) && AllWide(RowsOfPlan(r), SchemaOf(r))
    requires forall x, y | x in RowsOfPlan(l) && y in RowsOfPlan(r) :: TestSplits(test, lt, rt, JoinTest(ps.rest), x, y)
    requires forall x :: lt(x) == Passes(ps.left, x)
    requires forall x :: rt(x) == Passes(ps.right, x)
    ensures RowsOfPlan(Rebuild(l, r, ps)) == Pairs(test, RowsOfPlan(l), RowsOfPlan(r))
  {
    var lrows, rrows, rest := RowsOfPlan(l), RowsOfPlan(r), JoinTest(ps.rest);
    FilteredSide(ps.left, l, lt);
    FilteredSide(ps.right, r, rt);
    PairsKept(test, lt, rt, rest, lrows, rrows);
    KeptRows(lt, lrows);
    KeptRows(rt, rrows);
    RebuiltRows(l, r, ps, Kept(lt, lrows), Kept(rt, rrows));
  }

  /** The rebuilt join has the pairs that pass the parts, in the order of the join. */
  lemma {:induction false} RebuiltPairs(l: Plan, r: Plan, ps: Parts, test: Row -> bool)
    requires AllWide(RowsOfPlan(l), SchemaOf(l)) && AllWide(RowsOfPlan(r), SchemaOf(r))
    requires forall x, y | x in RowsOfPlan(l) && y in RowsOfPlan(r) :: test(x + y) <==> PassesParts(ps, x, y)
    ensures RowsOfPlan(Rebuild(l, r, ps)) == Pairs(test, RowsOfPlan(l), RowsOfPlan(r))
  {
    var lt, rt := SideTest(ps.left), SideTest(ps.right);
    forall x, y | x in RowsOfPlan(l) && y in RowsOfPlan(r) ensures TestSplits(test, lt, rt, JoinTest(ps.rest), x, y) {
      assert test(x + y) <==> PassesParts(ps, x, y);
    }
    RebuildByTests(l, r, ps, test, lt, rt);
  }

  lemma {:induction false} RebuildSchema(l: Plan, r: Plan, ps: Parts)
    ensures SchemaOf(Rebuild(l, r, ps)) == SchemaOf(l) + SchemaOf(r)
  {
  }

  ghost function SideTest(f: Option<Expr>): (t: Row -> bool)
    ensures forall x :: t(x) == Passes(f, x)
  {
    x => Passes(f, x)
  }

  ghost function JoinTest(f: Option<Expr>): (t: Row -> bool)
    ensures forall x :: t(x) == PassesJoin(f, x)
  {
    x => PassesJoin(f, x)
  }

  /** A pair that is tested for nothing. */
  lemma {:induction false} CrossRows(l: Plan, r: Plan, test: Row -> bool)
    requires forall x :: test(x)
    ensures RowsOfPlan(CrossJoin(l, r)) == Pairs(test, RowsOfPlan(l), RowsOfPlan(r))
  {
    SamePairs(_ => true, test, RowsOfPlan(l), RowsOfPlan(r));
  }

  lemma {:induction false} JoinedRows(l: Plan, r: Plan, cond: Expr)
    requires AllWide(RowsOfPlan(l), SchemaOf(l)) && AllWide(RowsOfPlan(r), SchemaOf(r))
    ensures RowsOfPlan(InnerJoin(l, r, cond)) == Pairs(JoinTest(Some(cond)), RowsOfPlan(l), RowsOfPlan(r))
  {
    RebuiltJoin(JoinOf(l, r, cond), JoinTest(Some(cond)), SchemaOf(l), SchemaOf(r), RowsOfPlan(l), RowsOfPlan(r));
  }

  lemma {:induction false} RebuiltRows(l: Plan, r: Plan, ps: Parts, ls: seq<Row>, rs: seq<Row>)
    requires ls == RowsOfPlan(WithFilter(ps.left, l)) && rs == RowsOfPlan(WithFilter(ps.right, r))
    requires AllWide(ls, SchemaOf(WithFilter(ps.left, l))) && AllWide(rs, SchemaOf(WithFilter(ps.right, r)))
    ensures RowsOfPlan(Rebuild(l, r, ps)) == Pairs(JoinTest(ps.rest), ls, rs)
  {
    if ps.rest.None? {
      CrossRows(WithFilter(ps.left, l), WithFilter(ps.right, r), JoinTest(ps.rest));
    } else {
      JoinedRows(WithFilter(ps.left, l), WithFilter(ps.right, r), ps.rest.value);
    }
  }

  lemma {:induction false} RebuiltJoin(j: Join, rest: Row -> bool, lschema: Schema, rschema: Schema, ls: seq<Row>,
                                       rs: seq<Row>)
    requires j.typ == Inner && j.rowSize == |lschema| + |rschema| && AllWide(ls, lschema) && AllWide(rs, rschema)
    requires forall x :: rest(x) == IsTrue(j.cond, x)
    ensures NestedLoopJoin(j, ls, rs) == Pairs(rest, ls, rs)
  {
    forall x, y | x in ls && y in rs ensures Tests(j, rest, x, y) {}
    JoinIsPairs(j, rest, ls, rs);
  }

  lemma {:induction false} SamePairs(a: Row -> bool, b: Row -> bool, ls: seq<Row>, rs: seq<Row>)
    requires forall x, y | x in ls && y in rs :: a(x + y) == b(x + y)
    ensures Pairs(a, ls, rs) == Pairs(b, ls, rs)
  {
    if ls != [] {
      SamePairs(a, b, ls[1..], rs);
      assert ls[0] in ls;
      SamePairsOf(a, b, ls[0], rs);
    }
  }

  lemma {:induction false} SamePairsOf(a: Row -> bool, b: Row -> bool, l: Row, rs: seq<Row>)
    requires forall y | y in rs :: a(l + y) == b(l + y)
    ensures PairsOf(a, l, rs) == PairsOf(b, l, rs)
  {
    if rs != [] {
      SamePairsOf(a, b, l, rs[1..]);
      assert rs[0] in rs;
    }
  }

  lemma {:induction false} FewerPairsOf(a: Row -> bool, b: Row -> bool, l: Row, rs: seq<Row>)
    requires forall y | y in rs :: a(l + y) ==> b(l + y)
    ensures |PairsOf(a, l, rs)| <= |PairsOf(b, l, rs)|
    ensures |PairsOf(a, l, rs)| == |PairsOf(b, l, rs)| ==> forall y | y in rs :: b(l + y) ==> a(l + y)
  {
    if rs != [] {
      FewerPairsOf(a, b, l, rs[1..]);
      assert rs[0] in rs;
      assert forall y :: y in rs <==> y == rs[0] || y in rs[1..];
    }
  }

  /** The stricter of two tests has fewer pairs, unless they agree on all. */
  lemma {:induction false} FewerPairs(a: Row -> bool, b: Row -> bool, ls: seq<Row>, rs: seq<Row>)
    requires forall x, y | x in ls && y in rs :: a(x + y) ==> b(x + y)
    ensures |Pairs(a, ls, rs)| <= |Pairs(b, ls, rs)|
    ensures |Pairs(a, ls, rs)| == |Pairs(b, ls, rs)| ==> forall x, y | x in ls && y in rs :: b(x + y) ==> a(x + y)
  {
    if ls != [] {
      FewerPairs(a, b, ls[1..], rs);
      assert ls[0] in ls;
      FewerPairsOf(a, b, ls[0], rs);
      assert forall x :: x in ls <==> x == ls[0] || x in ls[1..];
    }
  }

  lemma {:induction false} KeptRows(test: Row -> bool, rows: seq<Row>)
    ensures forall r | r in Kept(test, rows) :: r in rows
  {
    if rows != [] { KeptRows(test, rows[1..]); }
  }

  // ----- the theorem

  /** The sides of a join have different sources. */
  predicate Disjoint(ls: Schema, rs: Schema) {
    Distinct(ls + rs) && Sources(ls) !! Sources(rs)
  }

  predicate AllWide(rows: seq<Row>, s: Schema) {
    forall r | r in rows :: |r| == |s|
  }

  /** No pair of rows makes the condition a number other than 0. */
  predicate NumberFree(cond: Expr, ls: seq<Row>, rs: seq<Row>) {
    forall l, r | l in ls && r in rs :: !IsNumber(cond, l + r)
  }

  /** Rows fit their schemas, conditions are resolved, and the two sides of a join have different sources. */
  predicate WellFormed(p: Plan) {
    match p
    case Source(s, rows) => AllWide(rows, s)
    case Filter(_, c) => WellFormed(c)
    case CrossJoin(l, r) => WellFormed(l) && WellFormed(r)
    case InnerJoin(l, r, cond) =>
      && WellFormed(l) && WellFormed(r)
      && Disjoint(SchemaOf(l), SchemaOf(r))
      && Resolved(cond, SchemaOf(l) + SchemaOf(r))
  }

  lemma {:induction false} SidesOfRow(ls: Schema, rs: Schema, l: Row, r: Row)
    requires Disjoint(ls, rs) && |l| == |ls| && |r| == |rs|
    ensures Side(ls + rs, ls, l + r, l) && Side(ls + rs, rs, l + r, r)
  {
    JoinedRowShowsBoth(ls, l, rs, r);
    forall c | c in ls + rs && c.source in Sources(ls) ensures c in ls {
      assert c in rs ==> c.source in Sources(rs);
    }
    forall c | c in ls + rs && c.source in Sources(rs) ensures c in rs {
      assert c in ls ==> c.source in Sources(ls);
    }
  }

  /** A filter made of movable conjuncts exists, and says of its side what they say of the joined row. */
  lemma {:induction false} SideFilterMeans(es: seq<Expr>, all: Schema, side: Schema, row: Row, part: Row)
    requires forall e | e in es :: Resolved(e, all) && Movable(side, e)
    requires Side(all, side, row, part)
    ensures SideFilter(es, side).Ok?
    ensures Passes(SideFilter(es, side).value, part) <==> forall e | e in es :: Holds(e, row)
  {
    if es != [] {
      MovedFilterMeans(es, all, side, row, part);
    }
  }

  lemma {:induction false} FilterParts(cond: Expr, ls: Schema, rs: Schema)
    ensures forall c :: c in SplitConjunction(cond) <==>
      c in SideConjuncts(cond, ls) || c in SideConjuncts(cond, rs) || c in Residual(cond, ls, rs)
    ensures forall c | c in SideConjuncts(cond, ls) :: Movable(ls, c)
    ensures forall c | c in SideConjuncts(cond, rs) :: Movable(rs, c)
  {
  }

  /** A conjunct that stays has columns of both sides, so it has an operator. */
  lemma {:induction false} ResidualJudges(c: Expr, ls: Schema, rs: Schema, row: Row)
    requires Resolved(c, ls + rs) && |row| == |ls + rs|
    requires !Movable(ls, c) && !Movable(rs, c)
    ensures BoolOrNull(c, row)
  {
    ResolvedInRange(c, ls + rs);
    InRangeEvaluates(c, row);
    OperatorsJudge(c, row);
  }

  /** A pair passes the parts of the condition iff the condition holds on it, as a filter reads it. */
  lemma {:induction false} PartsMeanCondition(cond: Expr, ls: Schema, rs: Schema, l: Row, r: Row)
    requires Disjoint(ls, rs) && Resolved(cond, ls + rs) && |l| == |ls| && |r| == |rs|
    ensures SplitCondition(cond, ls, rs).Ok?
    ensures PassesParts(SplitCondition(cond, ls, rs).value, l, r) <==> Holds(cond, l + r)
  {
    var row := l + r;
    var les, res, es := SideConjuncts(cond, ls), SideConjuncts(cond, rs), Residual(cond, ls, rs);
    ConjunctsResolved(cond, ls + rs);
    SidesOfRow(ls, rs, l, r);
    FilterParts(cond, ls, rs);
    SideFilterMeans(les, ls + rs, ls, row, l);
    SideFilterMeans(res, ls + rs, rs, row, r);
    forall c | c in es ensures BoolOrNull(c, row) { ResidualJudges(c, ls, rs, row); }
    RestMeans(es, row);
  }

  /** The join accepts a pair iff its sides pass their filters and the pair passes the rest, except when the
      condition gives a number other than 0; then it has no operator. */
  lemma {:induction false} PairSplits(cond: Expr, ls: Schema, rs: Schema, l: Row, r: Row)
    requires Disjoint(ls, rs) && Resolved(cond, ls + rs) && |l| == |ls| && |r| == |rs|
    ensures SplitCondition(cond, ls, rs).Ok?
    ensures Splits(cond, SplitCondition(cond, ls, rs).value, l, r) <==> !IsNumber(cond, l + r)
    ensures IsNumber(cond, l + r) ==> Bare(cond)
  {
    PartsMeanCondition(cond, ls, rs, l, r);
    TrueUnlessNumber(cond, l + r);
    if !Bare(cond) && Eval(cond, l + r).Ok? { OperatorsJudge(cond, l + r); }
  }

  lemma {:induction false} RestMeans(es: seq<Expr>, row: Row)
    requires forall c | c in es :: BoolOrNull(c, row)
    ensures PassesJoin(if es == [] then None else Some(JoinAnd(es)), row) <==> forall c | c in es :: Holds(c, row)
  {
    if es != [] { JoinAndMeans(es, row); }
  }

  /** One join: the rewrite succeeds, keeps the schema, and has the pairs on which the condition holds. */
  lemma {:induction false} MovedRows(l: Plan, r: Plan, cond: Expr)
    requires AllWide(RowsOfPlan(l), SchemaOf(l)) && AllWide(RowsOfPlan(r), SchemaOf(r))
    requires Disjoint(SchemaOf(l), SchemaOf(r)) && Resolved(cond, SchemaOf(l) + SchemaOf(r))
    ensures MoveAt(l, r, cond).Ok?
    ensures SchemaOf(MoveAt(l, r, cond).value) == SchemaOf(InnerJoin(l, r, cond))
    ensures RowsOfPlan(MoveAt(l, r, cond).value) == Pairs(SideTest(Some(cond)), RowsOfPlan(l), RowsOfPlan(r))
  {
    var ls, rs, test := SchemaOf(l), SchemaOf(r), SideTest(Some(cond));
    PartsMeanCondition(cond, ls, rs, Nulls(|ls|), Nulls(|rs|));
    var ps := SplitCondition(cond, ls, rs).value;
    forall x, y | x in RowsOfPlan(l) && y in RowsOfPlan(r) ensures test(x + y) <==> PassesParts(ps, x, y) {
      PartsMeanCondition(cond, ls, rs, x, y);
    }
    RebuiltPairs(l, r, ps, test);
    RebuildSchema(l, r, ps);
  }

  /** A condition read as a filter accepts more pairs than the join does, unless it never gives a number. */
  lemma {:induction false} SamePairsIff(cond: Expr, ls: seq<Row>, rs: seq<Row>)
    ensures Pairs(SideTest(Some(cond)), ls, rs) == Pairs(JoinTest(Some(cond)), ls, rs) <==> NumberFree(cond, ls, rs)
  {
    var holds, isTrue := SideTest(Some(cond)), JoinTest(Some(cond));
    forall x, y | x in ls && y in rs ensures holds(x + y) <==> isTrue(x + y) || IsNumber(cond, x + y) {
      TrueUnlessNumber(cond, x + y);
    }
    if NumberFree(cond, ls, rs) {
      SamePairs(holds, isTrue, ls, rs);
    } else {
      FewerPairs(isTrue, holds, ls, rs);
      var x, y :| x in ls && y in rs && IsNumber(cond, x + y);
      TrueUnlessNumber(cond, x + y);
      assert holds(x + y) && !isTrue(x + y);
    }
  }

  /** One join: the rewrite keeps the rows, in their order, iff no pair makes the condition a number other than 0. */
  lemma {:induction false} MoveAtKeepsRowsIff(l: Plan, r: Plan, cond: Expr)
    requires AllWide(RowsOfPlan(l), SchemaOf(l)) && AllWide(RowsOfPlan(r), SchemaOf(r))
    requires Disjoint(SchemaOf(l), SchemaOf(r)) && Resolved(cond, SchemaOf(l) + SchemaOf(r))
    ensures MoveAt(l, r, cond).Ok?
    ensures SchemaOf(MoveAt(l, r, cond).value) == SchemaOf(InnerJoin(l, r, cond))
    ensures RowsOfPlan(MoveAt(l, r, cond).value) == RowsOfPlan(InnerJoin(l, r, cond)) <==>
      NumberFree(cond, RowsOfPlan(l), RowsOfPlan(r))
  {
    MovedRows(l, r, cond);
    JoinedRows(l, r, cond);
    SamePairsIff(cond, RowsOfPlan(l), RowsOfPlan(r));
  }

  lemma {:induction false} RowsAreWide(p: Plan)
    requires WellFormed(p)
    ensures AllWide(RowsOfPlan(p), SchemaOf(p))
  {
    match p
    case Source(_, _) =>
    case Filter(e, c) =>
      RowsAreWide(c);
      MemoryTable.FilteredAreRows(e, RowsOfPlan(c));
    case CrossJoin(l, r) =>
      RowsAreWide(l);
      RowsAreWide(r);
      PairsAreWide(_ => true, RowsOfPlan(l), RowsOfPlan(r), |SchemaOf(l)|, |SchemaOf(r)|);
    case InnerJoin(l, r, cond) =>
      JoinIsWide(JoinOf(l, r, cond), RowsOfPlan(l), RowsOfPlan(r));
  }

  lemma {:induction false} PairsAreWide(test: Row -> bool, ls: seq<Row>, rs: seq<Row>, m: nat, n: nat)
    requires (forall l | l in ls :: |l| == m) && forall r | r in rs :: |r| == n
    ensures forall x | x in Pairs(test, ls, rs) :: |x| == m + n
  {
    if ls != [] {
      PairsAreWide(test, ls[1..], rs, m, n);
      assert ls[0] in ls;
      PairsOfAreWide(test, ls[0], rs, n);
    }
  }

  lemma {:induction false} PairsOfAreWide(test: Row -> bool, l: Row, rs: seq<Row>, n: nat)
    requires forall r | r in rs :: |r| == n
    ensures forall x | x in PairsOf(test, l, rs) :: |x| == |l| + n
  {
    if rs != [] {
      PairsOfAreWide(test, l, rs[1..], n);
      assert rs[0] in rs;
    }
  }

  lemma {:induction false} JoinIsWide(j: Join, ls: seq<Row>, rs: seq<Row>)
    requires j.typ == Inner
    ensures forall x | x in NestedLoopJoin(j, ls, rs) :: |x| == j.rowSize
  {
    if ls != [] {
      JoinIsWide(j, ls[1..], rs);
      MatchesAreWide(j, ls[0], rs);
    }
  }

  lemma {:induction false} MatchesAreWide(j: Join, l: Row, rs: seq<Row>)
    ensures forall x | x in Matches(j, l, rs) :: |x| == j.rowSize
  {
    if rs != [] {
      MatchesAreWide(j, l, rs[1..]);
    }
  }

  /** The rows of a plan whose join conditions are read like filters. */
  ghost function TruthRows(p: Plan): seq<Row> {
    match p
    case Source(_, rows) => rows
    case Filter(e, c) => MemoryTable.Filtered(e, TruthRows(c))
    case InnerJoin(l, r, cond) => Pairs(SideTest(Some(cond)), TruthRows(l), TruthRows(r))
    case CrossJoin(l, r) => Pairs(_ => true, TruthRows(l), TruthRows(r))
  }

  lemma {:induction false} TruthRowsAreWide(p: Plan)
    requires WellFormed(p)
    ensures AllWide(TruthRows(p), SchemaOf(p))
  {
    match p
    case Source(_, _) =>
    case Filter(e, c) =>
      TruthRowsAreWide(c);
      MemoryTable.FilteredAreRows(e, TruthRows(c));
    case CrossJoin(l, r) =>
      TruthRowsAreWide(l);
      TruthRowsAreWide(r);
      PairsAreWide(_ => true, TruthRows(l), TruthRows(r), |SchemaOf(l)|, |SchemaOf(r)|);
    case InnerJoin(l, r, cond) =>
      TruthRowsAreWide(l);
      TruthRowsAreWide(r);
      PairsAreWide(SideTest(Some(cond)), TruthRows(l), TruthRows(r), |SchemaOf(l)|, |SchemaOf(r)|);
  }

  /** Moving join conditions succeeds on every plan and keeps its schema; the new plan has the rows of the old
      one with every join condition read like a filter. */
  lemma {:induction false} MoveReadsTruth(p: Plan)
    requires WellFormed(p)
    ensures Move(p).Ok?
    ensures SchemaOf(Move(p).value) == SchemaOf(p)
    ensures RowsOfPlan(Move(p).value) == TruthRows(p)
  {
    match p
    case Source(_, _) =>
    case Filter(_, c) => MoveReadsTruth(c);
    case CrossJoin(l, r) => MoveReadsTruth(l); MoveReadsTruth(r);
    case InnerJoin(l, r, cond) =>
      MoveReadsTruth(l);
      MoveReadsTruth(r);
      TruthRowsAreWide(l);
      TruthRowsAreWide(r);
      MovedRows(Move(l).value, Move(r).value, cond);
  }

  /** No join of the plan has a pair of rows that makes its condition a number other than 0. */
  predicate NoNumbers(p: Plan) {
    match p
    case Source(_, _) => true
    case Filter(_, c) => NoNumbers(c)
    case CrossJoin(l, r) => NoNumbers(l) && NoNumbers(r)
    case InnerJoin(l, r, cond) => NoNumbers(l) && NoNumbers(r) && NumberFree(cond, RowsOfPlan(l), RowsOfPlan(r))
  }

  lemma {:induction false} TruthRowsAreRows(p: Plan)
    requires WellFormed(p) && NoNumbers(p)
    ensures TruthRows(p) == RowsOfPlan(p)
  {
    match p
    case Source(_, _) =>
    case Filter(_, c) => TruthRowsAreRows(c);
    case CrossJoin(l, r) => TruthRowsAreRows(l); TruthRowsAreRows(r);
    case InnerJoin(l, r, cond) =>
      TruthRowsAreRows(l);
      TruthRowsAreRows(r);
      RowsAreWide(l);
      RowsAreWide(r);
      JoinedRows(l, r, cond);
      SamePairsIff(cond, RowsOfPlan(l), RowsOfPlan(r));
  }

  /** Moving join conditions keeps the schema and the exact rows of every plan without such a pair. */
  lemma {:induction false} MovePreservesRows(p: Plan)
    requires WellFormed(p) && NoNumbers(p)
    ensures Move(p).Ok?
    ensures SchemaOf(Move(p).value) == SchemaOf(p)
    ensures RowsOfPlan(Move(p).value) == RowsOfPlan(p)
  {
    MoveReadsTruth(p);
    TruthRowsAreRows(p);
  }

  /** At the first such join from the bottom the rows change, and they do so exactly because of it. */
  lemma {:induction false} MoveKeepsRowsIff(l: Plan, r: Plan, cond: Expr)
    requires WellFormed(InnerJoin(l, r, cond)) && NoNumbers(l) && NoNumbers(r)
    ensures Move(InnerJoin(l, r, cond)).Ok?
    ensures RowsOfPlan(Move(InnerJoin(l, r, cond)).value) == RowsOfPlan(InnerJoin(l, r, cond)) <==>
      NoNumbers(InnerJoin(l, r, cond))
  {
    MoveReadsTruth(InnerJoin(l, r, cond));
    TruthRowsAreRows(l);
    TruthRowsAreRows(r);
    RowsAreWide(l);
    RowsAreWide(r);
    JoinedRows(l, r, cond);
    SamePairsIff(cond, RowsOfPlan(l), RowsOfPlan(r));
  }

  /** Every conjunct of every join needs both sides. */
  predicate Settled(p: Plan) {
    match p
    case Source(_, _) => true
    case Filter(_, c) => Settled(c)
    case CrossJoin(l, r) => Settled(l) && Settled(r)
    case InnerJoin(l, r, cond) =>
      && Settled(l) && Settled(r)
      && forall c | c in SplitConjunction(cond) :: !Movable(SchemaOf(l), c) && !Movable(SchemaOf(r), c)
  }

  lemma {:induction false} FilterSettles(f: Option<Expr>, p: Plan)
    requires Settled(p)
    ensures Settled(WithFilter(f, p)) && SchemaOf(WithFilter(f, p)) == SchemaOf(p)
  {
  }

  lemma {:induction false} MoveAtSettles(l: Plan, r: Plan, cond: Expr)
    requires Settled(l) && Settled(r) && MoveAt(l, r, cond).Ok?
    ensures Settled(MoveAt(l, r, cond).value)
  {
    var ps := SplitCondition(cond, SchemaOf(l), SchemaOf(r)).value;
    FilterSettles(ps.left, l);
    FilterSettles(ps.right, r);
    ConjunctsAreSplit(cond);
    var rest := Residual(cond, SchemaOf(l), SchemaOf(r));
    if rest != [] { SplitJoinAnd(rest); }
  }

  /** The rewrite moves all there is to move. */
  lemma {:induction false} MoveSettles(p: Plan)
    requires Move(p).Ok?
    ensures Settled(Move(p).value)
  {
    match p
    case Source(_, _) =>
    case Filter(_, c) => MoveSettles(c);
    case CrossJoin(l, r) => MoveSettles(l); MoveSettles(r);
    case InnerJoin(l, r, cond) =>
      MoveSettles(l);
      MoveSettles(r);
      MoveAtSettles(Move(l).value, Move(r).value, cond);
  }

  /** Conditions with an operator give no number, whatever the rows. */
  predicate Judged(p: Plan) {
    match p
    case Source(_, _) => true
    case Filter(_, c) => Judged(c)
    case CrossJoin(l, r) => Judged(l) && Judged(r)
    case InnerJoin(l, r, cond) => Judged(l) && Judged(r) && !Bare(cond)
  }

  lemma {:induction false} JudgedHasNoNumbers(p: Plan)
    requires Judged(p)
    ensures NoNumbers(p)
  {
    match p
    case Source(_, _) =>
    case Filter(_, c) => JudgedHasNoNumbers(c);
    case CrossJoin(l, r) => JudgedHasNoNumbers(l); JudgedHasNoNumbers(r);
    case InnerJoin(l, r, cond) =>
      JudgedHasNoNumbers(l);
      JudgedHasNoNumbers(r);
      forall x, y | x in RowsOfPlan(l) && y in RowsOfPlan(r) ensures !IsNumber(cond, x + y) {
        if Eval(cond, x + y).Ok? { OperatorsJudge(cond, x + y); }
      }
  }
}
