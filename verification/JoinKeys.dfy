/** The keys of a planned indexed join.  The planner takes them in the order of the join condition, and the
    index for the set of its expressions; this module says exactly when the two fit together. */
module JoinKeys {
  import opened Values
  import opened Expressions
  import opened Lookups
  import IndexPlanning
  import opened NestedLoop
  import opened IndexedJoins

  // ----- the keys the planner takes

  /** An equality between a column expression of `t` and one of `u`. */
  predicate Crosses(c: Expr, t: string, u: string) {
    && c.Cmp? && c.op == Eq && t != u
    && ((OnlyFrom(c.l, t) && OnlyFrom(c.r, u)) || (OnlyFrom(c.l, u) && OnlyFrom(c.r, t)))
  }

  /** The conjuncts that provide keys: equalities whose two sides each have columns, of one table. */
  predicate JoinEquality(c: Expr) {
    c.Cmp? && c.op == Eq && SomeTable(c.l) && SomeTable(c.r)
  }

  /** The sides of an equality over a table. */
  function OwnSides(c: Expr, t: string): seq<Expr>
    requires JoinEquality(c)
  {
    (if OnlyFrom(c.l, t) then [c.l] else []) + (if OnlyFrom(c.r, t) then [c.r] else [])
  }

  function Equalities(cs: seq<Expr>): (r: seq<Expr>)
    ensures forall c :: c in r <==> c in cs && JoinEquality(c)
  {
    if cs == [] then [] else (if JoinEquality(cs[0]) then [cs[0]] else []) + Equalities(cs[1..])
  }

  /** Conjunct by conjunct, in order: an equality adds its sides over the table, any other conjunct adds nothing. */
  lemma {:induction false} JoinSidesStep(c: Expr, rest: seq<Expr>, t: string)
    ensures JoinSides([], t) == []
    ensures JoinSides([c] + rest, t) == (if JoinEquality(c) then OwnSides(c, t) else []) + JoinSides(rest, t)
  {
    assert ([c] + rest)[1..] == rest;
    if c.Cmp? {
      if IsEvaluable(c.l) { EvaluableHasNoColumns(c.l); }
      if IsEvaluable(c.r) { EvaluableHasNoColumns(c.r); }
    }
  }

  /** The expression is a side of the equality, over the table. */
  predicate IsSide(c: Expr, t: string, x: Expr) {
    JoinEquality(c) && OnlyFrom(x, t) && (x == c.l || x == c.r)
  }

  /** The keys are the sides of the equalities of the condition, and nothing else. */
  lemma {:induction false} JoinSidesAre(cs: seq<Expr>, t: string)
    ensures forall x :: x in JoinSides(cs, t) <==> exists c | c in cs :: IsSide(c, t, x)
  {
    if cs != [] {
      var c, rest := cs[0], cs[1..];
      JoinSidesAre(rest, t);
      JoinSidesStep(c, rest, t);
      assert cs == [c] + rest;
      forall x ensures x in JoinSides(cs, t) <==> IsSide(c, t, x) || exists d | d in rest :: IsSide(d, t, x) {}
    }
  }

  /** The other conjuncts of a condition have no influence on the keys. */
  lemma {:induction false} SidesOfEqualities(cs: seq<Expr>, t: string)
    ensures JoinSides(cs, t) == JoinSides(Equalities(cs), t)
  {
    if cs != [] {
      var c, rest := cs[0], cs[1..];
      SidesOfEqualities(rest, t);
      JoinSidesStep(c, rest, t);
      JoinSidesStep(c, Equalities(rest), t);
      assert cs == [c] + rest;
      assert Equalities(cs) == if JoinEquality(c) then [c] + Equalities(rest) else Equalities(rest);
    }
  }

  /** The side of an equality between two tables that belongs to the first one, and the other side. */
  function SidesBetween(c: Expr, t: string): (Expr, Expr)
    requires c.Cmp?
  {
    if OnlyFrom(c.l, t) then (c.l, c.r) else (c.r, c.l)
  }

  lemma {:induction false} FromOneTable(e: Expr, t: string, u: string)
    requires t != u && OnlyFrom(e, t)
    ensures !OnlyFrom(e, u)
  {
    var a :| a in Columns(e);
  }

  lemma {:induction false} OwnSideOfOne(c: Expr, t: string, u: string)
    requires Crosses(c, t, u)
    ensures JoinEquality(c)
    ensures OwnSides(c, t) == [SidesBetween(c, t).0] && OwnSides(c, u) == [SidesBetween(c, t).1]
  {
    if OnlyFrom(c.l, t) {
      FromOneTable(c.l, t, u);
      FromOneTable(c.r, u, t);
    } else {
      FromOneTable(c.l, u, t);
      FromOneTable(c.r, t, u);
    }
  }

  lemma {:induction false} SidesOfOne(c: Expr, rest: seq<Expr>, t: string, u: string)
    requires Crosses(c, t, u)
    ensures JoinSides([c] + rest, t) == [SidesBetween(c, t).0] + JoinSides(rest, t)
    ensures JoinSides([c] + rest, u) == [SidesBetween(c, t).1] + JoinSides(rest, u)
  {
    OwnSideOfOne(c, t, u);
    JoinSidesStep(c, rest, t);
    JoinSidesStep(c, rest, u);
  }

  /** The conjunct equates a side of `t` with a side of `u`. */
  predicate SidePair(c: Expr, k: Expr, x: Expr, t: string, u: string) {
    Equates(c, k, x) && OnlyFrom(k, t) && OnlyFrom(x, u)
  }

  predicate SidePairs(cs: seq<Expr>, ts: seq<Expr>, us: seq<Expr>, t: string, u: string) {
    |ts| == |us| == |cs| && forall i | 0 <= i < |cs| :: SidePair(cs[i], ts[i], us[i], t, u)
  }

  lemma {:induction false} OneMorePair(c: Expr, rest: seq<Expr>, k: Expr, ts: seq<Expr>, x: Expr, us: seq<Expr>,
                                       t: string, u: string)
    requires SidePair(c, k, x, t, u) && SidePairs(rest, ts, us, t, u)
    ensures SidePairs([c] + rest, [k] + ts, [x] + us, t, u)
  {
  }

  lemma {:induction false} SidesPairUp(cs: seq<Expr>, t: string, u: string)
    requires forall c | c in cs :: Crosses(c, t, u)
    ensures SidePairs(cs, JoinSides(cs, t), JoinSides(cs, u), t, u)
  {
    if cs != [] {
      var c, rest := cs[0], cs[1..];
      SidesPairUp(rest, t, u);
      SidesOfOne(c, rest, t, u);
      assert cs == [c] + rest;
      var (k, x) := SidesBetween(c, t);
      OneMorePair(c, rest, k, JoinSides(rest, t), x, JoinSides(rest, u), t, u);
    }
  }

  // ----- when the planned keys line up with the index

  /** The sides of `t` are each equated with one side of `u`. */
  predicate OneToOne(ts: seq<Expr>, us: seq<Expr>) {
    && |ts| == |us|
    && forall i, j | 0 <= i < |ts| && 0 <= j < |ts| && Erase(ts[i]) == Erase(ts[j]) :: Erase(us[i]) == Erase(us[j])
  }

  /** The index lists its expressions in the order in which the condition names them. */
  predicate InOrder(ix: Index, us: seq<Expr>) {
    |ix.exprs| <= |us| && forall i | 0 <= i < |ix.exprs| :: Erase(ix.exprs[i]) == Erase(us[i])
  }

  /** An equality of `t` with `u` relates a side of `t` with one expression, its side of `u`. */
  lemma {:induction false} EquatesOneSide(c: Expr, t: string, u: string, k: Expr, x: Expr, k': Expr, x': Expr)
    requires t != u && OnlyFrom(k, t) && OnlyFrom(x, u) && OnlyFrom(k', t)
    requires Equates(c, k, x) && Equates(c, k', x')
    ensures Erase(k) == Erase(k') && Erase(x) == Erase(x')
  {
    var a :| a in Columns(k');
    if Erase(k') == Erase(x) { ErasedColumns(k', x); }
  }

  /** Two lists that pair up line up with an index iff the index follows the second one. */
  lemma {:induction false} PairedLineUpIff(es: seq<Expr>, ts: seq<Expr>, us: seq<Expr>, t: string, u: string, ix: Index)
    requires SidePairs(es, ts, us, t, u) && OneToOne(ts, us) && (es != [] ==> t != u)
    ensures LinesUp(es, ts, ix) <==> InOrder(ix, us)
  {
    if InOrder(ix, us) {
      forall i | 0 <= i < |ix.exprs| ensures EquatedBy(es, ts[i], ix.exprs[i]) {
        assert SidePair(es[i], ts[i], us[i], t, u);
        assert Equates(es[i], ts[i], ix.exprs[i]);
      }
    }
    if LinesUp(es, ts, ix) {
      forall i | 0 <= i < |ix.exprs| ensures Erase(ix.exprs[i]) == Erase(us[i]) {
        assert EquatedBy(es, ts[i], ix.exprs[i]);
        var c :| c in es && Equates(c, ts[i], ix.exprs[i]);
        var k :| 0 <= k < |es| && es[k] == c;
        assert SidePair(es[k], ts[k], us[k], t, u) && SidePair(es[i], ts[i], us[i], t, u);
        EquatesOneSide(c, t, u, ts[k], us[k], ts[i], ix.exprs[i]);
      }
    }
  }

  /** A condition whose equalities are between two tables has one key and one indexable side per equality.  If
      no key has two partners, the planned keys line up with an index iff the index lists the sides in
      the order of the condition. */
  lemma {:induction false} LinesUpIffInOrder(cs: seq<Expr>, t: string, u: string, ix: Index)
    requires forall c | c in Equalities(cs) :: Crosses(c, t, u)
    requires OneToOne(JoinSides(cs, t), JoinSides(cs, u))
    ensures LinesUp(Equalities(cs), JoinSides(cs, t), ix) <==> InOrder(ix, JoinSides(cs, u))
  {
    var es := Equalities(cs);
    SidesOfEqualities(cs, t);
    SidesOfEqualities(cs, u);
    SidesPairUp(es, t, u);
    assert es != [] ==> Crosses(es[0], t, u);
    PairedLineUpIff(es, JoinSides(cs, t), JoinSides(cs, u), t, u, ix);
  }

  // ----- conditions that equate columns

  predicate EquatesColumns(c: Expr) {
    c.Cmp? && c.op == Eq && c.l.Field? && c.r.Field?
  }

  /** Every expression is a plain column. */
  predicate AreFields(es: seq<Expr>) {
    forall e | e in es :: e.Field?
  }

  /** A conjunct equates the columns at these positions of the joined row. */
  predicate Linked(cs: seq<Expr>, x: int, y: int) {
    exists c | c in cs :: Links(c, x, y)
  }

  predicate Links(c: Expr, x: int, y: int) {
    EquatesColumns(c) && ((c.l.idx == x && c.r.idx == y) || (c.l.idx == y && c.r.idx == x))
  }

  predicate IsPath(cs: seq<Expr>, path: seq<int>) {
    |path| > 0 && forall i | 0 < i < |path| :: Linked(cs, path[i - 1], path[i])
  }

  /** A chain of equalities leads from one column to the other. */
  ghost predicate Connected(cs: seq<Expr>, x: int, y: int) {
    exists path :: IsPath(cs, path) && path[0] == x && path[|path| - 1] == y
  }

  lemma {:induction false} ConnectedToItself(cs: seq<Expr>, x: int)
    ensures Connected(cs, x, x)
  {
    assert IsPath(cs, [x]);
  }

  lemma {:induction false} ConnectedGrows(cs: seq<Expr>, x: int, y: int, z: int)
    requires Connected(cs, x, y) && Linked(cs, y, z)
    ensures Connected(cs, x, z)
  {
    var path :| IsPath(cs, path) && path[0] == x && path[|path| - 1] == y;
    assert IsPath(cs, path + [z]);
  }

  /** The row has equal values other than NULL at the two positions. */
  predicate EqualAt(row: Row, x: int, y: int) {
    && 0 <= x < |row| && 0 <= y < |row|
    && row[x] != Null && row[y] != Null && AsInt(row[x]) == AsInt(row[y])
  }

  lemma {:induction false} LinkedAreEqual(c: Expr, row: Row, x: int, y: int)
    requires Links(c, x, y)
    ensures Holds(c, row) <==> EqualAt(row, x, y)
  {
    if Eval(c.l, row).Ok? && Eval(c.r, row).Ok? {
      assert Eval(c, row) == Ok(CompareValues(Eq, row[c.l.idx], row[c.r.idx]));
    }
  }

  /** Where all equalities hold, values are equal along a path. */
  lemma {:induction false} PathIsEqual(cs: seq<Expr>, path: seq<int>, row: Row)
    requires IsPath(cs, path) && |path| > 1 && forall c | c in cs :: Holds(c, row)
    ensures EqualAt(row, path[0], path[|path| - 1])
    decreases |path|
  {
    var last := |path| - 1;
    assert Linked(cs, path[last - 1], path[last]);
    var c :| c in cs && Links(c, path[last - 1], path[last]);
    LinkedAreEqual(c, row, path[last - 1], path[last]);
    if last > 1 {
      assert path[..last][last - 1] == path[last - 1];
      PathIsEqual(cs, path[..last], row);
    }
  }

  /** 1 on the columns connected with a given one, 0 on the others. */
  ghost function Marked(cs: seq<Expr>, x: int, from: nat, n: nat): (row: Row)
    ensures |row| == n && forall i | 0 <= i < n :: row[i] == Int(if Connected(cs, x, from + i) then 1 else 0)
  {
    seq(n, i => Int(if Connected(cs, x, from + i) then 1 else 0))
  }

  /** A conjunction of conjuncts that are the boolean true is so itself. */
  lemma {:induction false} TrueConjunctsAreTrue(cond: Expr, row: Row)
    requires forall c | c in SplitConjunction(cond) :: IsTrue(c, row)
    ensures IsTrue(cond, row)
  {
    assert forall c | c in SplitConjunction(cond) :: Holds(c, row);
    assert Holds(cond, row);
    if !cond.And? {
      assert cond in SplitConjunction(cond);
    }
  }

  /** The row has 1 on the columns connected with a given one, 0 on the others. */
  ghost predicate IsMarked(cs: seq<Expr>, x: int, row: Row) {
    forall i | 0 <= i < |row| :: row[i] == Int(if Connected(cs, x, i) then 1 else 0)
  }

  /** The conjuncts that equate no columns are true on the rows that show which columns are connected; so are,
      trivially, those of a condition without other conjuncts. */
  ghost predicate RestAllows(cs: seq<Expr>, n: nat) {
    forall x: int, row: Row, c | |row| == n && IsMarked(cs, x, row) && c in cs && !EquatesColumns(c) :: IsTrue(c, row)
  }

  /** A row that shows which columns are connected with a given one satisfies every conjunct. */
  lemma {:induction false} MarkedRowJoins(cond: Expr, s: Schema, x: int, row: Row)
    requires Resolved(cond, s) && |row| == |s| && RestAllows(SplitConjunction(cond), |s|)
    requires IsMarked(SplitConjunction(cond), x, row)
    ensures IsTrue(cond, row)
  {
    var cs := SplitConjunction(cond);
    ConjunctsResolved(cond, s);
    forall c | c in cs ensures IsTrue(c, row) {
      if EquatesColumns(c) {
        var l, r := c.l.idx, c.r.idx;
        assert Resolved(c, s) && Links(c, l, r) && Links(c, r, l);
        assert Linked(cs, l, r) && Linked(cs, r, l);
        if Connected(cs, x, l) { ConnectedGrows(cs, x, l, r); }
        if Connected(cs, x, r) { ConnectedGrows(cs, x, r, l); }
        LinkedAreEqual(c, row, l, r);
      }
    }
    TrueConjunctsAreTrue(cond, row);
  }

  /** The planned setting, for keys of columns. */
  predicate PlannedColumns(j: Join, keyExprs: seq<Expr>, ix: Index, ps: Schema, ss: Schema) {
    Planned(j, keyExprs, ix, ps, ss) && AreFields(keyExprs) && AreFields(ix.exprs)
  }

  /** The column of every indexed expression is connected with the column of the key at its place. */
  ghost predicate KeysConnected(cs: seq<Expr>, keyExprs: seq<Expr>, ix: Index, n: nat)
    requires AreFields(keyExprs) && AreFields(ix.exprs)
  {
    |ix.exprs| <= |keyExprs| && forall i | 0 <= i < |ix.exprs| :: Connected(cs, keyExprs[i].idx, n + ix.exprs[i].idx)
  }

  /** What a key finds, expression by expression. */
  lemma {:induction false} KeyFindsIff(keyExprs: seq<Expr>, ix: Index, ps: Schema, ss: Schema, p: Row, s: Row)
    requires |p| == |ps| && |s| == |ss| && |ix.exprs| > 0 && AreFields(keyExprs) && AreFields(ix.exprs)
    requires forall e | e in keyExprs :: Resolved(e, ps)
    requires forall e | e in ix.exprs :: Resolved(e, ss)
    ensures EvalAll(keyExprs, p).Ok?
    ensures KeyMatches(ix, EvalAll(keyExprs, p).value, s) <==>
      |ix.exprs| <= |keyExprs| && forall i | 0 <= i < |ix.exprs| ::
        EqualAt(p + s, keyExprs[i].idx, |p| + ix.exprs[i].idx)
  {
    KeysEvaluate(keyExprs, ps, p);
    var key := EvalAll(keyExprs, p).value;
    forall e | e in ix.exprs ensures InRange(e, |s|) { ResolvedInRange(e, ss); }
    if |ix.exprs| <= |keyExprs| {
      MatchExpressionSelects(IndexPlanning.Get(ix, key), s);
      forall i | 0 <= i < |ix.exprs|
        ensures KeyRelates(Eq, ix.exprs[i], key[i], s) <==> EqualAt(p + s, keyExprs[i].idx, |p| + ix.exprs[i].idx)
      {
        var k, x := keyExprs[i], ix.exprs[i];
        assert Resolved(k, ps) && Resolved(x, ss);
        assert Eval(k, p) == Ok(key[i]) && Eval(x, s) == Ok(s[x.idx]);
        assert (p + s)[k.idx] == p[k.idx] && (p + s)[|p| + x.idx] == s[x.idx];
      }
    }
  }

  lemma {:induction false} ConnectedPairIsFound(j: Join, keyExprs: seq<Expr>, ix: Index, ps: Schema, ss: Schema, p: Row,
                                                s: Row)
    requires PlannedColumns(j, keyExprs, ix, ps, ss) && KeysConnected(SplitConjunction(j.cond), keyExprs, ix, |ps|)
    requires |p| == |ps| && |s| == |ss|
    ensures IsFound(j, keyExprs, ix, p, s)
  {
    if IsTrue(j.cond, p + s) {
      var cs := SplitConjunction(j.cond);
      assert Holds(j.cond, p + s);
      forall i | 0 <= i < |ix.exprs| ensures EqualAt(p + s, keyExprs[i].idx, |p| + ix.exprs[i].idx) {
        var k, x := keyExprs[i], ix.exprs[i];
        assert Resolved(k, ps) && Resolved(x, ss);
        var path :| IsPath(cs, path) && path[0] == k.idx && path[|path| - 1] == |ps| + x.idx;
        PathIsEqual(cs, path, p + s);
      }
      KeyFindsIff(keyExprs, ix, ps, ss, p, s);
    }
  }

  lemma {:induction false} FoundKeyIsConnected(j: Join, keyExprs: seq<Expr>, ix: Index, ps: Schema, ss: Schema, i: nat)
    requires PlannedColumns(j, keyExprs, ix, ps, ss) && AlwaysFound(j, keyExprs, ix, |ps|, |ss|)
    requires RestAllows(SplitConjunction(j.cond), |ps + ss|)
    requires i < |ix.exprs| && i < |keyExprs|
    ensures Connected(SplitConjunction(j.cond), keyExprs[i].idx, |ps| + ix.exprs[i].idx)
  {
    var cs, n, a := SplitConjunction(j.cond), |ps|, keyExprs[i].idx;
    var p, s := Marked(cs, a, 0, n), Marked(cs, a, n, |ss|);
    assert IsMarked(cs, a, p + s);
    MarkedRowJoins(j.cond, ps + ss, a, p + s);
    assert IsFound(j, keyExprs, ix, p, s);
    KeyFindsIff(keyExprs, ix, ps, ss, p, s);
    assert EqualAt(p + s, a, n + ix.exprs[i].idx);
    ConnectedToItself(cs, a);
  }

  lemma {:induction false} FoundKeysAreMany(j: Join, keyExprs: seq<Expr>, ix: Index, ps: Schema, ss: Schema)
    requires PlannedColumns(j, keyExprs, ix, ps, ss) && AlwaysFound(j, keyExprs, ix, |ps|, |ss|)
    requires RestAllows(SplitConjunction(j.cond), |ps + ss|)
    ensures |ix.exprs| <= |keyExprs|
  {
    var cs := SplitConjunction(j.cond);
    var p, s := Marked(cs, 0, 0, |ps|), Marked(cs, 0, |ps|, |ss|);
    assert IsMarked(cs, 0, p + s);
    MarkedRowJoins(j.cond, ps + ss, 0, p + s);
    assert IsFound(j, keyExprs, ix, p, s);
    KeyFindsIff(keyExprs, ix, ps, ss, p, s);
  }

  /** For any condition: the indexed join is right on all inputs if a chain of equalities of the condition leads from
      the column of every key to the indexed column at its place. */
  lemma {:induction false} ConnectedAgrees(j: Join, keyExprs: seq<Expr>, ix: Index, ps: Schema, ss: Schema)
    requires PlannedColumns(j, keyExprs, ix, ps, ss)
    requires KeysConnected(SplitConjunction(j.cond), keyExprs, ix, |ps|)
    ensures AlwaysAgrees(j, keyExprs, ix, |ps|, |ss|)
  {
    forall p: Row, s: Row | |p| == |ps| && |s| == |ss| ensures IsFound(j, keyExprs, ix, p, s) {
      ConnectedPairIsFound(j, keyExprs, ix, ps, ss, p, s);
    }
    AgreesIffFound(j, keyExprs, ix, |ps|, |ss|);
  }

  /** It is right on all inputs only then, unless the other conjuncts of the condition exclude the pairs that would
      show it. */
  lemma {:induction false} AgreesIffConnected(j: Join, keyExprs: seq<Expr>, ix: Index, ps: Schema, ss: Schema)
    requires PlannedColumns(j, keyExprs, ix, ps, ss) && RestAllows(SplitConjunction(j.cond), |ps + ss|)
    ensures AlwaysAgrees(j, keyExprs, ix, |ps|, |ss|) <==> KeysConnected(SplitConjunction(j.cond), keyExprs, ix, |ps|)
  {
    AgreesIffFound(j, keyExprs, ix, |ps|, |ss|);
    if AlwaysFound(j, keyExprs, ix, |ps|, |ss|) {
      FoundKeysAreMany(j, keyExprs, ix, ps, ss);
      forall i | 0 <= i < |ix.exprs|
        ensures Connected(SplitConjunction(j.cond), keyExprs[i].idx, |ps| + ix.exprs[i].idx)
      {
        FoundKeyIsConnected(j, keyExprs, ix, ps, ss, i);
      }
    }
    if KeysConnected(SplitConjunction(j.cond), keyExprs, ix, |ps|) {
      ConnectedAgrees(j, keyExprs, ix, ps, ss);
    }
  }

  // ----- conditions that pair columns

  /** The conjunct equates one of the first `n` columns with one of the others. */
  predicate PairsColumns(c: Expr, n: nat) {
    EquatesColumns(c) && (c.l.idx < n <= c.r.idx || c.r.idx < n <= c.l.idx)
  }

  function PrimaryAt(c: Expr, n: nat): (i: int)
    requires PairsColumns(c, n)
    ensures i < n
  {
    if c.l.idx < n then c.l.idx else c.r.idx
  }

  function SecondaryAt(c: Expr, n: nat): (i: nat)
    requires PairsColumns(c, n)
  {
    if c.l.idx < n then c.r.idx - n else c.l.idx - n
  }

  /** All conjuncts pair columns, and no secondary column with two primary ones. */
  predicate OnePartner(cs: seq<Expr>, n: nat) {
    && (forall c | c in cs :: PairsColumns(c, n))
    && forall c, d | c in cs && d in cs && SecondaryAt(c, n) == SecondaryAt(d, n) :: PrimaryAt(c, n) == PrimaryAt(d, n)
  }

  /** Without a second partner a path goes back and forth between a column and its partners. */
  lemma {:induction false} PathStays(cs: seq<Expr>, n: nat, path: seq<int>)
    requires OnePartner(cs, n) && IsPath(cs, path) && path[0] < n
    ensures var last := path[|path| - 1]; if last < n then last == path[0] else Linked(cs, path[0], last)
    decreases |path|
  {
    var last := |path| - 1;
    if last > 0 {
      assert path[..last][last - 1] == path[last - 1];
      PathStays(cs, n, path[..last]);
      assert Linked(cs, path[last - 1], path[last]);
      if path[last - 1] >= n {
        var c :| c in cs && Links(c, path[0], path[last - 1]);
        var d :| d in cs && Links(d, path[last - 1], path[last]);
        assert SecondaryAt(c, n) == SecondaryAt(d, n);
      }
    }
  }

  lemma {:induction false} LinkEquates(c: Expr, ps: Schema, ss: Schema, k: Expr, x: Expr)
    requires k.Field? && Resolved(k, ps) && x.Field? && Resolved(x, ss)
    requires Resolved(c, ps + ss) && Links(c, k.idx, |ps| + x.idx)
    ensures Equates(c, k, x)
  {
    var all := ps + ss;
    assert all[k.idx] == ps[k.idx] && all[|ps| + x.idx] == ss[x.idx];
    assert Resolved(c.l, all) && Resolved(c.r, all);
  }

  lemma {:induction false} ConnectedEquates(cs: seq<Expr>, ps: Schema, ss: Schema, k: Expr, x: Expr)
    requires OnePartner(cs, |ps|) && forall c | c in cs :: Resolved(c, ps + ss)
    requires k.Field? && Resolved(k, ps) && x.Field? && Resolved(x, ss) && Connected(cs, k.idx, |ps| + x.idx)
    ensures EquatedBy(cs, k, x)
  {
    var path :| IsPath(cs, path) && path[0] == k.idx && path[|path| - 1] == |ps| + x.idx;
    PathStays(cs, |ps|, path);
    var c :| c in cs && Links(c, k.idx, |ps| + x.idx);
    LinkEquates(c, ps, ss, k, x);
  }

  /** A chain of equalities of columns consists of equalities that provide keys. */
  lemma {:induction false} ConnectedByEqualities(cs: seq<Expr>, x: int, y: int)
    requires Connected(cs, x, y)
    ensures Connected(Equalities(cs), x, y)
  {
    var path :| IsPath(cs, path) && path[0] == x && path[|path| - 1] == y;
    forall i | 0 < i < |path| ensures Linked(Equalities(cs), path[i - 1], path[i]) {
      assert Linked(cs, path[i - 1], path[i]);
      var c :| c in cs && Links(c, path[i - 1], path[i]);
      assert Column(c.l.table, c.l.name) in Columns(c.l) && Column(c.r.table, c.r.name) in Columns(c.r);
      assert c in Equalities(cs);
    }
    assert IsPath(Equalities(cs), path);
  }

  lemma {:induction false} ConnectedLinesUp(j: Join, keyExprs: seq<Expr>, ix: Index, ps: Schema, ss: Schema)
    requires PlannedColumns(j, keyExprs, ix, ps, ss) && OnePartner(Equalities(SplitConjunction(j.cond)), |ps|)
    requires KeysConnected(SplitConjunction(j.cond), keyExprs, ix, |ps|)
    ensures LinesUp(Equalities(SplitConjunction(j.cond)), keyExprs, ix)
  {
    var cs := SplitConjunction(j.cond);
    ConjunctsResolved(j.cond, ps + ss);
    forall i | 0 <= i < |ix.exprs| ensures EquatedBy(Equalities(cs), keyExprs[i], ix.exprs[i]) {
      assert keyExprs[i] in keyExprs && ix.exprs[i] in ix.exprs;
      ConnectedByEqualities(cs, keyExprs[i].idx, |ps| + ix.exprs[i].idx);
      ConnectedEquates(Equalities(cs), ps, ss, keyExprs[i], ix.exprs[i]);
    }
  }

  lemma {:induction false} LinesUpWithMore(es: seq<Expr>, cs: seq<Expr>, keyExprs: seq<Expr>, ix: Index)
    requires LinesUp(es, keyExprs, ix) && forall c | c in es :: c in cs
    ensures LinesUp(cs, keyExprs, ix)
  {
    forall i | 0 <= i < |ix.exprs| ensures EquatedBy(cs, keyExprs[i], ix.exprs[i]) {
      assert EquatedBy(es, keyExprs[i], ix.exprs[i]);
    }
  }

  /** For a condition whose equalities pair columns, no secondary column with two primary ones: the indexed join is
      right on all inputs if every key expression is the partner of the indexed expression at its place, and only
      then, unless the other conjuncts exclude the pairs that would show it. */
  lemma {:induction false} AgreesIffLinesUp(j: Join, keyExprs: seq<Expr>, ix: Index, ps: Schema, ss: Schema)
    requires PlannedColumns(j, keyExprs, ix, ps, ss) && OnePartner(Equalities(SplitConjunction(j.cond)), |ps|)
    ensures var lines := LinesUp(Equalities(SplitConjunction(j.cond)), keyExprs, ix);
      && (lines ==> AlwaysAgrees(j, keyExprs, ix, |ps|, |ss|))
      && (RestAllows(SplitConjunction(j.cond), |ps + ss|) ==> (AlwaysAgrees(j, keyExprs, ix, |ps|, |ss|) <==> lines))
  {
    var cs := SplitConjunction(j.cond);
    if LinesUp(Equalities(cs), keyExprs, ix) {
      LinesUpWithMore(Equalities(cs), cs, keyExprs, ix);
      IndexedJoinIsNestedLoop(j, keyExprs, ix, ps, ss);
    }
    if RestAllows(cs, |ps + ss|) && AlwaysAgrees(j, keyExprs, ix, |ps|, |ss|) {
      AgreesIffConnected(j, keyExprs, ix, ps, ss);
      ConnectedLinesUp(j, keyExprs, ix, ps, ss);
    }
  }

  // ----- the planned join of two tables on their columns

  predicate FromTable(s: Schema, t: string) {
    forall c | c in s :: c.source == t
  }

  /** Two tables joined on pairs of columns, no column in two of them, and on any other conjuncts, with an index on
      columns of the second table. */
  predicate JoinsColumns(j: Join, ix: Index, ps: Schema, t: string, ss: Schema, u: string) {
    var cs := Equalities(SplitConjunction(j.cond));
    && j.rowSize == |ps| + |ss| && Distinct(ps + ss)
    && t != u && FromTable(ps, t) && FromTable(ss, u)
    && Resolved(j.cond, ps + ss) && OnePartner(cs, |ps|)
    && (forall c, d | c in cs && d in cs && PrimaryAt(c, |ps|) == PrimaryAt(d, |ps|) ::
          SecondaryAt(c, |ps|) == SecondaryAt(d, |ps|))
    && |ix.exprs| > 0 && AreFields(ix.exprs) && forall e | e in ix.exprs :: Resolved(e, ss)
  }

  /** The two sides of a conjunct that pairs columns. */
  predicate SidesOf(c: Expr, ps: Schema, ss: Schema, k: Expr, x: Expr) {
    && PairsColumns(c, |ps|)
    && k.Field? && k.idx == PrimaryAt(c, |ps|) && Resolved(k, ps)
    && x.Field? && x.idx == |ps| + SecondaryAt(c, |ps|) && Resolved(x, ps + ss)
  }

  lemma {:induction false} ColumnIsFrom(e: Expr, s: Schema, t: string)
    requires e.Field? && Resolved(e, s) && FromTable(s, t)
    ensures OnlyFrom(e, t)
  {
    assert s[e.idx] in s;
    assert Columns(e) == {s[e.idx]};
    assert s[e.idx] in Columns(e);
  }

  lemma {:induction false} ColumnsCross(c: Expr, ps: Schema, t: string, ss: Schema, u: string)
    requires PairsColumns(c, |ps|) && Resolved(c, ps + ss)
    requires t != u && FromTable(ps, t) && FromTable(ss, u)
    ensures Crosses(c, t, u)
    ensures SidesOf(c, ps, ss, SidesBetween(c, t).0, SidesBetween(c, t).1)
  {
    var (k, x) := if c.l.idx < |ps| then (c.l, c.r) else (c.r, c.l);
    assert (ps + ss)[k.idx] == ps[k.idx];
    ColumnIsFrom(k, ps, t);
    var x' := x.(idx := x.idx - |ps|);
    assert (ps + ss)[x.idx] == ss[x'.idx];
    ColumnIsFrom(x', ss, u);
    assert Columns(x) == Columns(x');
    var a :| a in Columns(x);
    assert a.source == u;
  }

  lemma {:induction false} ColumnSides(cs: seq<Expr>, ps: Schema, t: string, ss: Schema, u: string)
    requires forall c | c in cs :: PairsColumns(c, |ps|) && Resolved(c, ps + ss)
    requires t != u && FromTable(ps, t) && FromTable(ss, u)
    ensures |JoinSides(cs, t)| == |JoinSides(cs, u)| == |cs|
    ensures forall i | 0 <= i < |cs| :: SidesOf(cs[i], ps, ss, JoinSides(cs, t)[i], JoinSides(cs, u)[i])
    ensures forall c | c in cs :: Crosses(c, t, u)
  {
    if cs != [] {
      ColumnSides(cs[1..], ps, t, ss, u);
      ColumnsCross(cs[0], ps, t, ss, u);
      SidesOfOne(cs[0], cs[1..], t, u);
      assert cs == [cs[0]] + cs[1..];
    }
  }

  lemma {:induction false} SamePosition(a: Expr, b: Expr, s: Schema)
    requires a.Field? && b.Field? && Resolved(a, s) && Resolved(b, s) && Distinct(s)
    ensures Erase(a) == Erase(b) <==> a.idx == b.idx
  {
  }

  lemma {:induction false} SidesAreOneToOne(cs: seq<Expr>, ps: Schema, ss: Schema, ts: seq<Expr>, us: seq<Expr>)
    requires |ts| == |us| == |cs| && Distinct(ps + ss) && OnePartner(cs, |ps|)
    requires forall i | 0 <= i < |cs| :: SidesOf(cs[i], ps, ss, ts[i], us[i])
    requires forall c, d | c in cs && d in cs && PrimaryAt(c, |ps|) == PrimaryAt(d, |ps|) ::
      SecondaryAt(c, |ps|) == SecondaryAt(d, |ps|)
    ensures OneToOne(ts, us)
  {
    forall i, j | 0 <= i < |ts| && 0 <= j < |ts| && Erase(ts[i]) == Erase(ts[j]) ensures Erase(us[i]) == Erase(us[j]) {
      assert SidesOf(cs[i], ps, ss, ts[i], us[i]) && SidesOf(cs[j], ps, ss, ts[j], us[j]);
      assert forall a | 0 <= a < |ps| :: (ps + ss)[a] == ps[a];
      SamePosition(ts[i], ts[j], ps + ss);
      assert cs[i] in cs && cs[j] in cs;
      SamePosition(us[i], us[j], ps + ss);
    }
  }

  /** The planned indexed join of two tables on pairs of columns is the nested-loop join of all inputs if the index
      lists its columns in the order in which the condition names them, and only then, unless the other conjuncts
      exclude the pairs that would show it. */
  lemma {:induction false} PlannedJoinAgreesIff(j: Join, ix: Index, ps: Schema, t: string, ss: Schema, u: string)
    requires JoinsColumns(j, ix, ps, t, ss, u)
    ensures var cs := SplitConjunction(j.cond);
      && (InOrder(ix, JoinSides(cs, u)) ==> AlwaysAgrees(j, JoinSides(cs, t), ix, |ps|, |ss|))
      && (RestAllows(cs, |ps + ss|) ==>
            (AlwaysAgrees(j, JoinSides(cs, t), ix, |ps|, |ss|) <==> InOrder(ix, JoinSides(cs, u))))
  {
    var cs := SplitConjunction(j.cond);
    var es := Equalities(cs);
    ConjunctsResolved(j.cond, ps + ss);
    SidesOfEqualities(cs, t);
    SidesOfEqualities(cs, u);
    ColumnSides(es, ps, t, ss, u);
    var ts, us := JoinSides(cs, t), JoinSides(cs, u);
    SidesAreOneToOne(es, ps, ss, ts, us);
    LinesUpIffInOrder(cs, t, u, ix);
    AgreesIffLinesUp(j, ts, ix, ps, ss);
  }

  lemma {:induction false} ResolvedJoinAnd(es: seq<Expr>, s: Schema)
    requires es != [] && forall e | e in es :: Resolved(e, s)
    ensures Resolved(JoinAnd(es), s)
    decreases |es|
  {
    if |es| > 1 {
      var last := |es| - 1;
      assert es[last] in es && forall e | e in es[..last] :: e in es;
      ResolvedJoinAnd(es[..last], s);
    } else {
      assert es[0] in es;
    }
  }

  lemma {:induction false} EqualitiesOnly(cs: seq<Expr>)
    requires forall c | c in cs :: JoinEquality(c)
    ensures Equalities(cs) == cs
  {
    if cs != [] { EqualitiesOnly(cs[1..]); }
  }

  /** On its equalities alone the planned join is right on all inputs iff the index lists its columns in the order in
      which the condition names them, whatever the other conjuncts were. */
  lemma {:induction false} PlannedEqualitiesAgreeIff(j: Join, ix: Index, ps: Schema, t: string, ss: Schema, u: string)
    requires JoinsColumns(j, ix, ps, t, ss, u) && Equalities(SplitConjunction(j.cond)) != []
    ensures var cs := SplitConjunction(j.cond);
      AlwaysAgrees(j.(cond := JoinAnd(Equalities(cs))), JoinSides(cs, t), ix, |ps|, |ss|) <==>
        InOrder(ix, JoinSides(cs, u))
  {
    var cs := SplitConjunction(j.cond);
    var es := Equalities(cs);
    ConjunctsResolved(j.cond, ps + ss);
    SplitJoinAnd(es);
    ResolvedJoinAnd(es, ps + ss);
    EqualitiesOnly(es);
    SidesOfEqualities(cs, t);
    SidesOfEqualities(cs, u);
    PlannedJoinAgreesIff(j.(cond := JoinAnd(es)), ix, ps, t, ss, u);
  }

  /** The index with its first two expressions exchanged. */
  function Exchanged(ix: Index): Index
    requires |ix.exprs| >= 2
  {
    ix.(exprs := [ix.exprs[1], ix.exprs[0]] + ix.exprs[2..])
  }

  lemma {:induction false} ExchangedPrefix(a: seq<Expr>, b: seq<Expr>, x: Expr, y: Expr, rest: seq<Expr>,
                                           more: seq<Expr>)
    requires a == [x] + ([y] + rest) && b == a + more
    ensures multiset([y] + ([x] + rest)) <= multiset(b)
  {
    assert multiset(a) == multiset([x]) + (multiset([y]) + multiset(rest));
    assert multiset([y] + ([x] + rest)) == multiset([y]) + (multiset([x]) + multiset(rest));
  }

  lemma {:induction false} ErasedExchanged(ix: Index, a: seq<Expr>)
    requires |ix.exprs| >= 2 && a == IndexPlanning.Erased(ix.exprs)
    ensures IndexPlanning.Erased(Exchanged(ix).exprs) == [a[1]] + ([a[0]] + a[2..])
  {
    var e := IndexPlanning.Erased(Exchanged(ix).exprs);
    var f := [a[1]] + ([a[0]] + a[2..]);
    forall i | 0 <= i < |e| ensures e[i] == f[i] {
      if i >= 2 { assert Exchanged(ix).exprs[i] == ix.exprs[i]; }
    }
  }

  lemma {:induction false} ErasedInOrder(ix: Index, us: seq<Expr>, a: seq<Expr>, b: seq<Expr>)
    requires InOrder(ix, us) && a == IndexPlanning.Erased(ix.exprs) && b == IndexPlanning.Erased(us)
    ensures b == a + b[|a|..]
  {
    forall i | 0 <= i < |a| ensures a[i] == b[i] {}
  }

  lemma {:induction false} ExchangedIsAccepted(ix: Index, us: seq<Expr>)
    requires |ix.exprs| >= 2 && InOrder(ix, us)
    ensures IndexPlanning.Matches(Exchanged(ix), us)
  {
    var a, b := IndexPlanning.Erased(ix.exprs), IndexPlanning.Erased(us);
    ErasedInOrder(ix, us, a, b);
    ErasedExchanged(ix, a);
    assert a == [a[0]] + ([a[1]] + a[2..]);
    ExchangedPrefix(a, b, a[0], a[1], a[2..], b[|a|..]);
  }

  /** The planner takes an index for the set of its expressions.  So for every such join that an index on
      two or more columns serves, the same index with two columns exchanged is taken as well, and
      loses rows. */
  lemma {:induction false} ExchangedIndexLosesRows(j: Join, ix: Index, ps: Schema, t: string, ss: Schema, u: string)
    requires JoinsColumns(j, ix, ps, t, ss, u)
    requires |ix.exprs| >= 2 && ix.exprs[0] != ix.exprs[1] && RestAllows(SplitConjunction(j.cond), |ps + ss|)
    requires InOrder(ix, JoinSides(SplitConjunction(j.cond), u))
    ensures var cs := SplitConjunction(j.cond);
      IndexPlanning.Matches(Exchanged(ix), JoinSides(cs, u)) &&
        !AlwaysAgrees(j, JoinSides(cs, t), Exchanged(ix), |ps|, |ss|)
  {
    var us := JoinSides(SplitConjunction(j.cond), u);
    ExchangedIsAccepted(ix, us);
    var a, b := ix.exprs[0], ix.exprs[1];
    assert Resolved(a, ss) && Resolved(b, ss);
    assert Distinct(ss) by { assert forall i | 0 <= i < |ss| :: (ps + ss)[|ps| + i] == ss[i]; }
    SamePosition(a, b, ss);
    assert Exchanged(ix).exprs[0] == b;
    PlannedJoinAgreesIff(j, Exchanged(ix), ps, t, ss, u);
  }
}
