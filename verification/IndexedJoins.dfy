/** `indexedJoinIter`: for every primary row, look its key up in an index of the secondary table and
    join with the rows found. */
module IndexedJoins {
  import opened Values
  import opened Expressions
  import opened Lookups
  import IndexPlanning
  import opened MemoryTable
  import opened NestedLoop

  /** The indexed join puts the primary columns first for every join type, so both outer joins build
      their rows like a left join. */
  function PrimaryFirst(j: Join): Join {
    if j.typ == Inner then j else j.(typ := LeftOuter)
  }

  /** The rows of the secondary table found for a primary row. */
  function Found(keyExprs: seq<Expr>, ix: Index, p: Row, secondary: seq<Row>): Result<seq<Row>> {
    var key :- EvalAll(keyExprs, p);
    var m :- MatchExpression(IndexPlanning.Get(ix, key));
    Ok(Filtered(m, secondary))
  }

  function FoundOr(keyExprs: seq<Expr>, ix: Index, p: Row, secondary: seq<Row>): seq<Row> {
    var f := Found(keyExprs, ix, p, secondary);
    if f.Ok? then f.value else []
  }

  /** What the indexed join emits. */
  function IndexedJoin(j: Join, keyExprs: seq<Expr>, ix: Index, primary: seq<Row>, secondary: seq<Row>): seq<Row> {
    if primary == [] then [] else
    var found := FoundOr(keyExprs, ix, primary[0], secondary);
    RowsOf(PrimaryFirst(j), primary[0], found, false) + IndexedJoin(j, keyExprs, ix, primary[1..], secondary)
  }

  // ----- when a lookup can replace the scan of the secondary side

  /** The matches that survive a filter on the secondary side. */
  lemma {:induction false} FilteredMatches(j: Join, p: Row, m: Expr, secondary: seq<Row>)
    requires forall s | s in secondary :: IsTrue(j.cond, BuildRow(j, p, s)) ==> Holds(m, s)
    ensures Matches(j, p, Filtered(m, secondary)) == Matches(j, p, secondary)
  {
    if secondary != [] {
      FilteredMatches(j, p, m, secondary[1..]);
      assert secondary[0] in secondary;
      if Holds(m, secondary[0]) {
        assert Filtered(m, secondary)[1..] == Filtered(m, secondary[1..]);
      } else {
        assert Filtered(m, secondary) == Filtered(m, secondary[1..]);
      }
    }
  }

  lemma {:induction false} NoMatches(j: Join, p: Row, secondary: seq<Row>)
    requires forall s | s in secondary :: !IsTrue(j.cond, BuildRow(j, p, s))
    ensures Matches(j, p, secondary) == []
  {
    if secondary != [] {
      assert secondary[0] in secondary;
      NoMatches(j, p, secondary[1..]);
    }
  }

  // ----- the keys of the join condition

  /** The columns of the expression, of which there are some, come from this table. */
  predicate OnlyFrom(e: Expr, t: string) {
    Columns(e) != {} && forall c | c in Columns(e) :: c.source == t
  }

  /** All columns of the expression, of which there are some, come from one table (`extractGetField`). */
  predicate SomeTable(e: Expr) {
    Columns(e) != {} && forall c, d | c in Columns(e) && d in Columns(e) :: c.source == d.source
  }

  /** In terms of the set of its tables. */
  lemma {:induction false} TablesDecide(e: Expr, t: string)
    ensures OnlyFrom(e, t) <==> (set c | c in Columns(e) :: c.source) == {t}
    ensures SomeTable(e) <==> exists u :: OnlyFrom(e, u)
  {
    var tables := set c | c in Columns(e) :: c.source;
    if tables == {t} {
      assert t in tables;
      forall c | c in Columns(e) ensures c.source == t { assert c.source in tables; }
    }
    if SomeTable(e) {
      var c :| c in Columns(e);
      assert OnlyFrom(e, c.source);
    }
  }

  /** `joinExprsByTable`: the sides of the equalities of a condition that belong to a table, in the
      order of the condition. */
  function JoinSides(cs: seq<Expr>, t: string): seq<Expr> {
    if cs == [] then []
    else
      var c := cs[0];
      var sides :=
        if c.Cmp? && c.op == Eq && !IsEvaluable(c.l) && !IsEvaluable(c.r) && SomeTable(c.l) && SomeTable(c.r) then
          (if OnlyFrom(c.l, t) then [c.l] else []) + (if OnlyFrom(c.r, t) then [c.r] else [])
        else [];
      sides + JoinSides(cs[1..], t)
  }

  /** The i-th key expression and the i-th indexed expression are the two sides of an equality of the
      condition.  The planner does not check this: it takes the key expressions in the order of the
      condition, and the index for having the right set of expressions. */
  predicate LinesUp(cs: seq<Expr>, keyExprs: seq<Expr>, ix: Index) {
    && |ix.exprs| <= |keyExprs|
    && forall i | 0 <= i < |ix.exprs| :: EquatedBy(cs, keyExprs[i], ix.exprs[i])
  }

  predicate EquatedBy(cs: seq<Expr>, a: Expr, b: Expr) {
    exists c | c in cs :: Equates(c, a, b)
  }

  predicate Equates(c: Expr, a: Expr, b: Expr) {
    && c.Cmp? && c.op == Eq
    && ((Erase(c.l) == Erase(a) && Erase(c.r) == Erase(b)) || (Erase(c.l) == Erase(b) && Erase(c.r) == Erase(a)))
  }

  /** A true equality has two operands that evaluate to equal numbers. */
  lemma {:induction false} EqualityIsSymmetric(l: Expr, r: Expr, row: Row)
    requires Holds(Cmp(Eq, l, r), row)
    ensures Eval(l, row).Ok? && KeyRelates(Eq, r, Eval(l, row).value, row)
    ensures Eval(r, row).Ok? && KeyRelates(Eq, l, Eval(r, row).value, row)
  {
  }

  /** An equality of the condition relates the indexed expression to the value of the key expression. */
  lemma {:induction false} EqualityRelates(c: Expr, k: Expr, x: Expr, s: Schema, ps: Schema, p: Row, ss: Schema,
                                           srow: Row, row: Row)
    requires JoinsRows(s, ps, p, ss, srow, row)
    requires Resolved(c, s) && Resolved(k, ps) && Resolved(x, ss) && Equates(c, k, x)
    requires Holds(c, row)
    ensures Eval(k, p).Ok? && KeyRelates(Eq, x, Eval(k, p).value, srow)
  {
    EqualityIsSymmetric(c.l, c.r, row);
    var straight := Erase(c.l) == Erase(k) && Erase(c.r) == Erase(x);
    var (ck, cx) := if straight then (c.l, c.r) else (c.r, c.l);
    SameValue(ck, s, row, k, ps, p);
    SameValue(cx, s, row, x, ss, srow);
  }

  /** A secondary row that joins with the primary row is found for its key. */
  lemma {:induction false} MatchIsFound(cond: Expr, keyExprs: seq<Expr>, ix: Index, s: Schema, ps: Schema, p: Row,
                                        ss: Schema, srow: Row, row: Row)
    requires JoinsRows(s, ps, p, ss, srow, row) && Resolved(cond, s)
    requires forall e | e in keyExprs :: Resolved(e, ps)
    requires forall e | e in ix.exprs :: Resolved(e, ss)
    requires LinesUp(SplitConjunction(cond), keyExprs, ix) && |ix.exprs| > 0
    requires IsTrue(cond, row)
    requires EvalAll(keyExprs, p).Ok?
    ensures KeyMatches(ix, EvalAll(keyExprs, p).value, srow)
  {
    var key := EvalAll(keyExprs, p).value;
    ConjunctsResolved(cond, s);
    assert Holds(cond, row);
    forall i | 0 <= i < |ix.exprs| ensures KeyRelates(Eq, ix.exprs[i], key[i], srow) {
      assert EquatedBy(SplitConjunction(cond), keyExprs[i], ix.exprs[i]);
      var c :| c in SplitConjunction(cond) && Equates(c, keyExprs[i], ix.exprs[i]);
      EqualityRelates(c, keyExprs[i], ix.exprs[i], s, ps, p, ss, srow, row);
    }
    forall e | e in ix.exprs ensures InRange(e, |srow|) { ResolvedInRange(e, ss); }
    MatchExpressionSelects(IndexPlanning.Get(ix, key), srow);
  }

  /** The lookup for a key is readable and finds the row. */
  predicate KeyMatches(ix: Index, key: seq<Value>, row: Row) {
    var m := MatchExpression(IndexPlanning.Get(ix, key));
    m.Ok? && Holds(m.value, row)
  }

  lemma {:induction false} KeysEvaluate(keyExprs: seq<Expr>, ps: Schema, p: Row)
    requires |p| == |ps| && forall e | e in keyExprs :: Resolved(e, ps)
    ensures EvalAll(keyExprs, p).Ok?
  {
    forall e | e in keyExprs ensures Eval(e, p).Ok? { ResolvedInRange(e, ps); InRangeEvaluates(e, p); }
  }

  /** The setting of a planned indexed join: the condition is resolved against the joined schema, the
      keys against the primary one, the index against the secondary one. */
  predicate Planned(j: Join, keyExprs: seq<Expr>, ix: Index, ps: Schema, ss: Schema) {
    && j.rowSize == |ps| + |ss| && |ix.exprs| > 0
    && Resolved(j.cond, ps + ss)
    && (forall e | e in keyExprs :: Resolved(e, ps))
    && (forall e | e in ix.exprs :: Resolved(e, ss))
    && Distinct(ps + ss)
  }

  predicate Sized(rows: seq<Row>, n: nat) {
    forall r | r in rows :: |r| == n
  }

  /** The indexed join emits the rows of the nested-loop join of the same inputs, in the same order. */
  predicate Agrees(j: Join, keyExprs: seq<Expr>, ix: Index, primary: seq<Row>, secondary: seq<Row>) {
    IndexedJoin(j, keyExprs, ix, primary, secondary) == NestedLoopJoin(PrimaryFirst(j), primary, secondary)
  }

  /** It does so for all inputs of these widths. */
  ghost predicate AlwaysAgrees(j: Join, keyExprs: seq<Expr>, ix: Index, n: nat, m: nat) {
    forall primary, secondary :: Sized(primary, n) && Sized(secondary, m) ==>
      Agrees(j, keyExprs, ix, primary, secondary)
  }

  /** If the two rows join, the key of the first finds the second. */
  predicate IsFound(j: Join, keyExprs: seq<Expr>, ix: Index, p: Row, s: Row) {
    IsTrue(j.cond, p + s) ==> EvalAll(keyExprs, p).Ok? && KeyMatches(ix, EvalAll(keyExprs, p).value, s)
  }

  ghost predicate AlwaysFound(j: Join, keyExprs: seq<Expr>, ix: Index, n: nat, m: nat) {
    forall p: Row, s: Row :: |p| == n && |s| == m ==> IsFound(j, keyExprs, ix, p, s)
  }

  lemma {:induction false} JoinedRow(j: Join, p: Row, s: Row)
    requires |p| + |s| == j.rowSize
    ensures BuildRow(PrimaryFirst(j), p, s) == p + s
  {
  }

  lemma {:induction false} LookupReplacesScan(j: Join, keyExprs: seq<Expr>, ix: Index, n: nat, m: nat, p: Row,
                                              secondary: seq<Row>)
    requires j.rowSize == n + m && |p| == n && Sized(secondary, m)
    requires forall s | s in secondary :: IsFound(j, keyExprs, ix, p, s)
    ensures Matches(PrimaryFirst(j), p, FoundOr(keyExprs, ix, p, secondary)) == Matches(PrimaryFirst(j), p, secondary)
  {
    forall s | s in secondary ensures BuildRow(PrimaryFirst(j), p, s) == p + s { JoinedRow(j, p, s); }
    var found := Found(keyExprs, ix, p, secondary);
    if found.Ok? {
      var e := MatchExpression(IndexPlanning.Get(ix, EvalAll(keyExprs, p).value)).value;
      FilteredMatches(PrimaryFirst(j), p, e, secondary);
    } else {
      NoMatches(PrimaryFirst(j), p, secondary);
    }
  }

  lemma {:induction false} FoundAgrees(j: Join, keyExprs: seq<Expr>, ix: Index, n: nat, m: nat, primary: seq<Row>,
                                       secondary: seq<Row>)
    requires j.rowSize == n + m && Sized(primary, n) && Sized(secondary, m)
    requires forall p, s | p in primary && s in secondary :: IsFound(j, keyExprs, ix, p, s)
    ensures Agrees(j, keyExprs, ix, primary, secondary)
    decreases primary
  {
    if primary != [] {
      FoundAgrees(j, keyExprs, ix, n, m, primary[1..], secondary);
      var p := primary[0];
      assert p in primary;
      LookupReplacesScan(j, keyExprs, ix, n, m, p, secondary);
    }
  }

  lemma {:induction false} MissedPairFindsNothing(keyExprs: seq<Expr>, ix: Index, p: Row, s: Row)
    requires !(EvalAll(keyExprs, p).Ok? && KeyMatches(ix, EvalAll(keyExprs, p).value, s))
    ensures FoundOr(keyExprs, ix, p, [s, s]) == []
  {
    var found := Found(keyExprs, ix, p, [s, s]);
    if found.Ok? {
      var e := MatchExpression(IndexPlanning.Get(ix, EvalAll(keyExprs, p).value)).value;
      assert [s, s][1..] == [s] && [s][1..] == [];
      assert Filtered(e, [s]) == Filtered(e, []);
      assert Filtered(e, [s, s]) == Filtered(e, [s]);
    }
  }

  lemma {:induction false} TwoMatches(j: Join, p: Row, s: Row)
    requires IsTrue(j.cond, BuildRow(j, p, s))
    ensures |Matches(j, p, [s, s])| == 2
  {
    assert [s, s][1..] == [s] && [s][1..] == [];
    assert |Matches(j, p, [s])| == 1 + |Matches(j, p, [])|;
  }

  /** A joining pair that the key does not find costs rows: the padding of an outer join makes up for
      one of them at most, so two copies of the secondary row show the difference. */
  lemma {:induction false} MissedPairCosts(j: Join, keyExprs: seq<Expr>, ix: Index, p: Row, s: Row)
    requires |p| + |s| == j.rowSize && !IsFound(j, keyExprs, ix, p, s)
    ensures |IndexedJoin(j, keyExprs, ix, [p], [s, s])| <= 1
    ensures |NestedLoopJoin(PrimaryFirst(j), [p], [s, s])| == 2
  {
    MissedPairFindsNothing(keyExprs, ix, p, s);
    JoinedRow(j, p, s);
    TwoMatches(PrimaryFirst(j), p, s);
    assert [p][1..] == [];
    assert |RowsOf(PrimaryFirst(j), p, [], false)| <= 1;
  }

  lemma {:induction false} MissedPairShows(j: Join, keyExprs: seq<Expr>, ix: Index, n: nat, m: nat, p: Row, s: Row)
    requires j.rowSize == n + m && |p| == n && |s| == m && !IsFound(j, keyExprs, ix, p, s)
    ensures !AlwaysAgrees(j, keyExprs, ix, n, m)
  {
    var primary, secondary := [p], [s, s];
    assert Sized(primary, n) && Sized(secondary, m);
    MissedPairCosts(j, keyExprs, ix, p, s);
    assert !Agrees(j, keyExprs, ix, primary, secondary);
  }

  lemma {:induction false} FoundAlwaysAgrees(j: Join, keyExprs: seq<Expr>, ix: Index, n: nat, m: nat)
    requires j.rowSize == n + m && AlwaysFound(j, keyExprs, ix, n, m)
    ensures AlwaysAgrees(j, keyExprs, ix, n, m)
  {
    forall primary, secondary | Sized(primary, n) && Sized(secondary, m)
      ensures Agrees(j, keyExprs, ix, primary, secondary)
    {
      FoundAgrees(j, keyExprs, ix, n, m, primary, secondary);
    }
  }

  /** The indexed join is the nested-loop join of all inputs iff the key of a primary row finds every
      secondary row that joins with it. */
  lemma {:induction false} AgreesIffFound(j: Join, keyExprs: seq<Expr>, ix: Index, n: nat, m: nat)
    requires j.rowSize == n + m
    ensures AlwaysAgrees(j, keyExprs, ix, n, m) <==> AlwaysFound(j, keyExprs, ix, n, m)
  {
    if AlwaysFound(j, keyExprs, ix, n, m) {
      FoundAlwaysAgrees(j, keyExprs, ix, n, m);
    } else {
      var p: Row, s: Row :| |p| == n && |s| == m && !IsFound(j, keyExprs, ix, p, s);
      MissedPairShows(j, keyExprs, ix, n, m, p, s);
    }
  }

  lemma {:induction false} LinedUpPairIsFound(j: Join, keyExprs: seq<Expr>, ix: Index, ps: Schema, ss: Schema, p: Row,
                                              s: Row)
    requires Planned(j, keyExprs, ix, ps, ss) && LinesUp(SplitConjunction(j.cond), keyExprs, ix)
    requires |p| == |ps| && |s| == |ss|
    ensures IsFound(j, keyExprs, ix, p, s)
  {
    if IsTrue(j.cond, p + s) {
      KeysEvaluate(keyExprs, ps, p);
      JoinedRowShowsBoth(ps, p, ss, s);
      MatchIsFound(j.cond, keyExprs, ix, ps + ss, ps, p, ss, s, p + s);
    }
  }

  /** If the keys line up with the index, the indexed join is the nested-loop join of all inputs. */
  lemma {:induction false} IndexedJoinIsNestedLoop(j: Join, keyExprs: seq<Expr>, ix: Index, ps: Schema, ss: Schema)
    requires Planned(j, keyExprs, ix, ps, ss)
    requires LinesUp(SplitConjunction(j.cond), keyExprs, ix)
    ensures AlwaysAgrees(j, keyExprs, ix, |ps|, |ss|)
  {
    forall p: Row, s: Row | |p| == |ps| && |s| == |ss| ensures IsFound(j, keyExprs, ix, p, s) {
      LinedUpPairIsFound(j, keyExprs, ix, ps, ss, p, s);
    }
    AgreesIffFound(j, keyExprs, ix, |ps|, |ss|);
  }

  /** The same rows with their first `n` columns moved to the end. */
  predicate Rotated(n: nat, a: seq<Row>, b: seq<Row>) {
    && |a| == |b|
    && forall i | 0 <= i < |a| :: |b[i]| >= n && a[i] == b[i][n..] + b[i][..n]
  }

  lemma {:induction false} RotatedRow(p: Row, s: Row)
    ensures Rotated(|p|, [s + p], [p + s])
  {
  }

  lemma {:induction false} RotatedAppend(n: nat, a: seq<Row>, b: seq<Row>, a': seq<Row>, b': seq<Row>)
    requires Rotated(n, a, b) && Rotated(n, a', b')
    ensures Rotated(n, a + a', b + b')
  {
  }

  /** A right join has the matches of the primary-first join, with the column blocks swapped. */
  lemma {:induction false} MatchesRotated(j: Join, swapped: Join, n: nat, p: Row, secondary: seq<Row>)
    requires j.typ == RightOuter && swapped.typ == LeftOuter && swapped.rowSize == j.rowSize == n + |p|
    requires forall s | s in secondary :: |s| == n && (IsTrue(j.cond, s + p) <==> IsTrue(swapped.cond, p + s))
    ensures Rotated(|p|, Matches(j, p, secondary), Matches(swapped, p, secondary))
  {
    if secondary != [] {
      var s, rest := secondary[0], secondary[1..];
      MatchesRotated(j, swapped, n, p, rest);
      assert s in secondary;
      assert BuildRow(j, p, s) == s + p && BuildRow(swapped, p, s) == p + s;
      if IsTrue(j.cond, s + p) {
        RotatedRow(p, s);
        RotatedAppend(|p|, [s + p], [p + s], Matches(j, p, rest), Matches(swapped, p, rest));
      } else {
        RotatedAppend(|p|, [], [], Matches(j, p, rest), Matches(swapped, p, rest));
      }
    }
  }

  lemma {:induction false} PaddingRotated(j: Join, swapped: Join, n: nat, p: Row)
    requires j.typ == RightOuter && swapped.typ == LeftOuter && swapped.rowSize == j.rowSize == n + |p|
    ensures Rotated(|p|, [BuildRow(j, p, [])], [BuildRow(swapped, p, [])])
  {
    assert BuildRow(j, p, []) == Nulls(n) + p && BuildRow(swapped, p, []) == p + Nulls(n);
  }

  lemma {:induction false} RowsOfRotated(j: Join, swapped: Join, n: nat, p: Row, secondary: seq<Row>)
    requires j.typ == RightOuter && swapped.typ == LeftOuter && swapped.rowSize == j.rowSize == n + |p|
    requires forall s | s in secondary :: |s| == n && (IsTrue(j.cond, s + p) <==> IsTrue(swapped.cond, p + s))
    ensures Rotated(|p|, RowsOf(j, p, secondary, false), RowsOf(swapped, p, secondary, false))
  {
    MatchesRotated(j, swapped, n, p, secondary);
    PaddingRotated(j, swapped, n, p);
  }

  /** Two rows side by side show the same columns in either order. */
  lemma {:induction false} SwappedRowsAgree(ps: Schema, p: Row, ss: Schema, s: Row)
    requires |p| == |ps| && |s| == |ss| && Distinct(ps + ss)
    ensures SameColumns(ss + ps, s + p, ps + ss, p + s)
  {
    var a, b := ss + ps, ps + ss;
    forall i, k | 0 <= i < |a| && 0 <= k < |b| && a[i] == b[k] ensures (s + p)[i] == (p + s)[k] {
      var i' := if i < |ss| then |ps| + i else i - |ss|;
      assert b[i'] == a[i];
      assert i' == k;
    }
  }

  /** What the planner makes of the condition of a right join, whose primary columns come last: it moves the fields
      to a row with the primary columns first. */
  function Swapped(j: Join, ps: Schema, ss: Schema): Result<Join> {
    var cond :- FixFieldIndexes(ps + ss, j.cond);
    Ok(j.(cond := cond))
  }

  /** A right join of two tables, with its condition resolved against the secondary columns and then the primary. */
  predicate RightJoin(j: Join, ps: Schema, ss: Schema) {
    j.typ == RightOuter && j.rowSize == |ps| + |ss| && Distinct(ps + ss) && Resolved(j.cond, ss + ps)
  }

  lemma {:induction false} SwappedExists(j: Join, ps: Schema, ss: Schema)
    requires RightJoin(j, ps, ss)
    ensures Swapped(j, ps, ss).Ok?
  {
    ResolvedColumns(j.cond, ss + ps);
    assert forall c | c in ss + ps :: c in ps + ss;
  }

  lemma {:induction false} SwappedConditionAgrees(j: Join, ps: Schema, ss: Schema, p: Row, s: Row)
    requires RightJoin(j, ps, ss) && |p| == |ps| && |s| == |ss| && Swapped(j, ps, ss).Ok?
    ensures IsTrue(j.cond, s + p) <==> IsTrue(Swapped(j, ps, ss).value.cond, p + s)
  {
    SwappedRowsAgree(ps, p, ss, s);
    SameValue(j.cond, ss + ps, s + p, Swapped(j, ps, ss).value.cond, ps + ss, p + s);
  }

  /** The right join of any two inputs has the rows of the primary-first join with the rewritten condition, in their
      order, with the column blocks swapped. */
  lemma {:induction false} RightJoinSwapsColumns(j: Join, ps: Schema, ss: Schema, primary: seq<Row>,
                                                 secondary: seq<Row>)
    requires RightJoin(j, ps, ss) && Sized(primary, |ps|) && Sized(secondary, |ss|)
    ensures Swapped(j, ps, ss).Ok?
    ensures var swapped := PrimaryFirst(Swapped(j, ps, ss).value);
      Rotated(|ps|, NestedLoopJoin(j, primary, secondary), NestedLoopJoin(swapped, primary, secondary))
    decreases primary
  {
    SwappedExists(j, ps, ss);
    if primary != [] {
      var p, rest := primary[0], primary[1..];
      assert p in primary;
      RightJoinSwapsColumns(j, ps, ss, rest, secondary);
      var swapped := PrimaryFirst(Swapped(j, ps, ss).value);
      forall s | s in secondary ensures IsTrue(j.cond, s + p) <==> IsTrue(swapped.cond, p + s) {
        SwappedConditionAgrees(j, ps, ss, p, s);
      }
      RowsOfRotated(j, swapped, |ss|, p, secondary);
      RotatedAppend(|ps|, RowsOf(j, p, secondary, false), RowsOf(swapped, p, secondary, false),
                    NestedLoopJoin(j, rest, secondary), NestedLoopJoin(swapped, rest, secondary));
    }
  }

  /** The indexed join has the rows of the right join for these inputs, with the column blocks swapped. */
  predicate IsRightJoin(j: Join, keyExprs: seq<Expr>, ix: Index, ps: Schema, ss: Schema, primary: seq<Row>,
                        secondary: seq<Row>)
    requires Swapped(j, ps, ss).Ok?
  {
    Rotated(|ps|, NestedLoopJoin(j, primary, secondary),
      IndexedJoin(Swapped(j, ps, ss).value, keyExprs, ix, primary, secondary))
  }

  ghost predicate AlwaysRightJoin(j: Join, keyExprs: seq<Expr>, ix: Index, ps: Schema, ss: Schema)
    requires Swapped(j, ps, ss).Ok?
  {
    forall primary, secondary | Sized(primary, |ps|) && Sized(secondary, |ss|) ::
      IsRightJoin(j, keyExprs, ix, ps, ss, primary, secondary)
  }

  lemma {:induction false} RotatedOnce(n: nat, a: seq<Row>, b: seq<Row>, c: seq<Row>)
    requires Rotated(n, a, b) && Rotated(n, a, c)
    ensures b == c
  {
    forall i | 0 <= i < |a| ensures b[i] == c[i] {
      assert |b[i]| == |a[i]| == |c[i]|;
      var k := |a[i]| - n;
      assert b[i] == a[i][k..] + a[i][..k] && c[i] == a[i][k..] + a[i][..k];
    }
  }

  /** Row by row of the inputs: the indexed join is the right join iff it is the primary-first join. */
  lemma {:induction false} RightJoinIffAgrees(j: Join, keyExprs: seq<Expr>, ix: Index, ps: Schema, ss: Schema,
                                              primary: seq<Row>, secondary: seq<Row>)
    requires RightJoin(j, ps, ss) && Sized(primary, |ps|) && Sized(secondary, |ss|) && Swapped(j, ps, ss).Ok?
    ensures IsRightJoin(j, keyExprs, ix, ps, ss, primary, secondary)
       <==> Agrees(Swapped(j, ps, ss).value, keyExprs, ix, primary, secondary)
  {
    RightJoinSwapsColumns(j, ps, ss, primary, secondary);
    var swapped := Swapped(j, ps, ss).value;
    if IsRightJoin(j, keyExprs, ix, ps, ss, primary, secondary) {
      RotatedOnce(|ps|, NestedLoopJoin(j, primary, secondary), IndexedJoin(swapped, keyExprs, ix, primary, secondary),
                  NestedLoopJoin(PrimaryFirst(swapped), primary, secondary));
    }
  }

  /** The indexed join of a right join has its rows for all inputs, with the column blocks swapped, iff the key of a
      primary row finds every secondary row that joins with it. */
  lemma {:induction false} RightJoinIffFound(j: Join, keyExprs: seq<Expr>, ix: Index, ps: Schema, ss: Schema)
    requires RightJoin(j, ps, ss)
    ensures Swapped(j, ps, ss).Ok?
    ensures AlwaysRightJoin(j, keyExprs, ix, ps, ss) <==>
      AlwaysFound(Swapped(j, ps, ss).value, keyExprs, ix, |ps|, |ss|)
  {
    SwappedExists(j, ps, ss);
    var swapped := Swapped(j, ps, ss).value;
    forall primary, secondary | Sized(primary, |ps|) && Sized(secondary, |ss|)
      ensures IsRightJoin(j, keyExprs, ix, ps, ss, primary, secondary) <==>
        Agrees(swapped, keyExprs, ix, primary, secondary)
    {
      RightJoinIffAgrees(j, keyExprs, ix, ps, ss, primary, secondary);
    }
    AgreesIffFound(swapped, keyExprs, ix, |ps|, |ss|);
  }

  // ----- the iterator

  /** Whether some evaluation for this primary row fails. */
  predicate Fails(j: Join, keyExprs: seq<Expr>, ix: Index, p: Row, secondary: seq<Row>) {
    Found(keyExprs, ix, p, secondary).Err? || exists s | s in secondary ::
      Eval(j.cond, BuildRow(PrimaryFirst(j), p, s)).Err?
  }

  class IndexedJoinIter {
    const join: Join
    const keyExprs: seq<Expr>
    const ix: Index
    const rows: seq<Row>
    var primary: seq<Row>
    var primaryRow: Option<Row>
    var secondary: Option<seq<Row>>
    var foundMatch: bool

    constructor (join: Join, keyExprs: seq<Expr>, ix: Index, primary: seq<Row>, rows: seq<Row>)
      ensures Valid() && this.join == join && this.keyExprs == keyExprs && this.ix == ix && this.rows == rows
      ensures Candidates() == primary
      ensures Pending() == IndexedJoin(join, keyExprs, ix, primary, rows)
    {
      this.join, this.keyExprs, this.ix, this.rows := join, keyExprs, ix, rows;
      this.primary, primaryRow, secondary, foundMatch := primary, None, None, false;
    }

    predicate Valid()
      reads this
    {
      && (secondary.Some? ==> primaryRow.Some? && forall s | s in secondary.value :: s in rows)
      && (secondary.None? && primaryRow.Some? ==> !foundMatch)
    }

    /** The primary rows that are not finished. */
    function Candidates(): seq<Row>
      reads this
    {
      (if primaryRow.Some? then [primaryRow.value] else []) + primary
    }

    /** The rows still to come. */
    ghost function Pending(): seq<Row>
      reads this
    {
      if primaryRow.None? then IndexedJoin(join, keyExprs, ix, primary, rows) else
      var rest := if secondary.Some? then secondary.value else FoundOr(keyExprs, ix, primaryRow.value, rows);
      RowsOf(PrimaryFirst(join), primaryRow.value, rest, foundMatch) + IndexedJoin(join, keyExprs, ix, primary, rows)
    }

    ghost function Left(): nat
      reads this
    {
      if secondary.Some? then |secondary.value| else |rows| + 1
    }

    method LoadPrimary() returns (more: bool)
      requires Valid()
      modifies this
      ensures Valid() && secondary == old(secondary)
      ensures Pending() == old(Pending()) && Candidates() == old(Candidates())
      ensures more == primaryRow.Some? == (old(Candidates()) != [])
      ensures old(primaryRow.Some?) ==>
        primary == old(primary) && primaryRow == old(primaryRow) && foundMatch == old(foundMatch)
      ensures |primary| <= old(|primary|)
    {
      if primaryRow.None? {
        if primary == [] {
          return false;
        }
        primaryRow, primary := Some(primary[0]), primary[1..];
        foundMatch := false;
      }
      return true;
    }

    /** What the current primary row owes with these rows to be read, and what the later ones owe. */
    ghost function Owed(p: Row, unread: seq<Row>): seq<Row>
      reads this
    {
      RowsOf(PrimaryFirst(join), p, unread, foundMatch) + IndexedJoin(join, keyExprs, ix, primary, rows)
    }

    /** Looks the key of the current primary row up, once for every primary row. */
    method LookUp() returns (ok: bool)
      requires Valid() && primaryRow.Some?
      modifies this`secondary
      ensures !ok ==> Fails(join, keyExprs, ix, primaryRow.value, rows)
      ensures ok ==> Valid() && secondary.Some? && Left() <= old(Left())
      ensures ok ==> old(Pending()) == Owed(primaryRow.value, secondary.value)
    {
      if secondary.Some? {
        return true;
      }
      var key := EvalAll(keyExprs, primaryRow.value);
      if key.Err? {
        return false;
      }
      var m := MatchExpression(IndexPlanning.Get(ix, key.value));
      if m.Err? {
        return false;
      }
      FilteredAreRows(m.value, rows);
      secondary := Some(Filtered(m.value, rows));
      return true;
    }

    /** The next row found for the current primary row; at the end of them the primary row is dropped. */
    method LoadSecondary() returns (out: Next<Row>, ghost unread: seq<Row>)
      requires Valid() && primaryRow.Some?
      modifies this
      ensures primary == old(primary) && foundMatch == old(foundMatch)
      ensures out.Failed? ==> Fails(join, keyExprs, ix, old(primaryRow.value), rows)
      ensures !out.Failed? ==> Valid() && old(Pending()) == Owed(old(primaryRow.value), unread)
      ensures out.Eof? ==> primaryRow.None? && unread == []
      ensures out.Item? ==>
        primaryRow == old(primaryRow) && out.value in rows && Reads(unread, out.value) && Left() < old(Left())
    {
      unread := [];
      var ok := LookUp();
      if !ok {
        out := Failed;
        return;
      }
      unread := secondary.value;
      if secondary.value == [] {
        secondary, primaryRow := None, None;
        out := Eof;
        return;
      }
      out := Item(secondary.value[0]);
      secondary := Some(secondary.value[1..]);
    }

    /** The row is the first of these rows, and the others are still to be read. */
    ghost predicate Reads(unread: seq<Row>, s: Row)
      reads this
    {
      unread != [] && s == unread[0] && secondary == Some(unread[1..])
    }

    /** Joins the current primary row with a row found for it: a row, an error, or `None` to go on. */
    method JoinWith(s: Row, ghost unread: seq<Row>) returns (out: Option<Next<Row>>)
      requires Valid() && primaryRow.Some? && s in rows && Reads(unread, s)
      modifies this`foundMatch
      ensures out == None || out == Some(Failed) || (out.Some? && out.value.Item?)
      ensures out != Some(Failed) ==> Valid()
      ensures out == Some(Failed) ==> Fails(join, keyExprs, ix, primaryRow.value, rows)
      ensures out.Some? && out.value.Item? ==> old(Owed(primaryRow.value, unread)) == [out.value.value] + Pending()
      ensures out.None? ==> old(Owed(primaryRow.value, unread)) == Pending()
    {
      var row := BuildRow(PrimaryFirst(join), primaryRow.value, s);
      ReadPays(PrimaryFirst(join), primaryRow.value, unread, foundMatch,
        IndexedJoin(join, keyExprs, ix, primary, rows));
      if Eval(join.cond, row).Err? {
        return Some(Failed);
      }
      if !IsTrue(join.cond, row) {
        return None;
      }
      foundMatch := true;
      return Some(Item(row));
    }

    /** Pads a primary row that is finished without a match. */
    method Finish(p: Row) returns (out: Option<Next<Row>>)
      requires Valid() && primaryRow.None?
      ensures out.None? || (out.Some? && out.value.Item?)
      ensures out.Some? ==> Owed(p, []) == [out.value.value] + Pending()
      ensures out.None? ==> Owed(p, []) == Pending()
    {
      if !foundMatch && join.typ != Inner {
        return Some(Item(BuildRow(PrimaryFirst(join), p, [])));
      }
      return None;
    }

    method Next() returns (out: Next<Row>)
      requires Valid()
      modifies this
      ensures out.Item? ==> Valid() && old(Pending()) == [out.value] + Pending()
      ensures out.Eof? ==> Valid() && old(Pending()) == [] == Pending()
      ensures out.Failed? ==> exists p | p in old(Candidates()) :: Fails(join, keyExprs, ix, p, rows)
    {
      while true
        invariant Valid()
        invariant Pending() == old(Pending())
        invariant forall p | p in Candidates() :: p in old(Candidates())
        decreases |Candidates()|, Left()
      {
        var more := LoadPrimary();
        if !more {
          return Eof;
        }
        var p := primaryRow.value;
        assert p in Candidates();
        var loaded, unread := LoadSecondary();
        if loaded.Failed? {
          return Failed;
        }
        var turn;
        if loaded.Eof? {
          turn := Finish(p);
        } else {
          turn := JoinWith(loaded.value, unread);
        }
        if turn.Some? {
          return turn.value;
        }
      }
    }
  }
}
