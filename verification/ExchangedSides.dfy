/** The planner exchanges the sides of an inner join when only its left table has an index: the right table becomes the
    primary side.  Rows then come in another order, with their column blocks swapped, and nothing else changes. */
module ExchangedSides {
  import opened Values
  import opened Expressions
  import opened Lookups
  import opened NestedLoop
  import opened IndexedJoins

  /** The row with its first `n` columns moved to the end. */
  function Turn(n: nat, row: Row): Row {
    if n <= |row| then row[n..] + row[..n] else row
  }

  function TurnAll(n: nat, rows: seq<Row>): (r: seq<Row>)
    ensures |r| == |rows| && forall i | 0 <= i < |rows| :: r[i] == Turn(n, rows[i])
  {
    seq(|rows|, i requires 0 <= i < |rows| => Turn(n, rows[i]))
  }

  lemma {:induction false} TurnAppend(n: nat, a: seq<Row>, b: seq<Row>)
    ensures TurnAll(n, a + b) == TurnAll(n, a) + TurnAll(n, b)
  {
  }

  lemma {:induction false} TurnOne(l: Row, r: Row)
    ensures TurnAll(|r|, [r + l]) == [l + r]
  {
    assert (r + l)[|r|..] == l && (r + l)[..|r|] == r;
  }

  /** Two inner joins that judge a pair alike, each with its own side first. */
  predicate Mirrored(j: Join, k: Join, l: Row, r: Row) {
    && j.typ == k.typ == Inner && j.rowSize == k.rowSize == |l| + |r|
    && (IsTrue(j.cond, l + r) <==> IsTrue(k.cond, r + l))
  }

  /** The rows of a join, as a multiset and with the columns of the other side first. */
  ghost function Turned(k: Join, m: nat, rs: seq<Row>, ls: seq<Row>): multiset<Row> {
    multiset(TurnAll(m, NestedLoopJoin(k, rs, ls)))
  }

  lemma {:induction false} TurnedStep(k: Join, m: nat, r: Row, rs: seq<Row>, ls: seq<Row>)
    requires k.typ == Inner
    ensures Turned(k, m, [r] + rs, ls) == multiset(TurnAll(m, Matches(k, r, ls))) + Turned(k, m, rs, ls)
  {
    assert ([r] + rs)[1..] == rs;
    TurnAppend(m, Matches(k, r, ls), NestedLoopJoin(k, rs, ls));
  }

  /** One more secondary row adds one match to a primary row it joins with. */
  lemma {:induction false} OneMoreMatch(j: Join, k: Join, l: Row, r: Row, ls: seq<Row>)
    requires Mirrored(j, k, l, r)
    ensures multiset(TurnAll(|r|, Matches(k, r, [l] + ls)))
         == multiset(if IsTrue(j.cond, l + r) then [l + r] else []) + multiset(TurnAll(|r|, Matches(k, r, ls)))
  {
    assert ([l] + ls)[1..] == ls && BuildRow(k, r, l) == r + l;
    if IsTrue(j.cond, l + r) {
      TurnAppend(|r|, [r + l], Matches(k, r, ls));
      TurnOne(l, r);
    } else {
      assert Matches(k, r, [l] + ls) == Matches(k, r, ls);
    }
  }

  lemma {:induction false} MatchesStep(j: Join, k: Join, l: Row, r: Row, rs: seq<Row>)
    requires Mirrored(j, k, l, r)
    ensures multiset(Matches(j, l, [r] + rs))
         == multiset(if IsTrue(j.cond, l + r) then [l + r] else []) + multiset(Matches(j, l, rs))
  {
    assert ([r] + rs)[1..] == rs && BuildRow(j, l, r) == l + r;
  }

  lemma {:induction false} Shuffle(a: multiset<Row>, b: multiset<Row>, c: multiset<Row>, d: multiset<Row>)
    ensures (a + b) + (c + d) == (a + c) + (b + d)
  {
  }

  lemma {:induction false} OneMoreRow(j: Join, k: Join, m: nat, l: Row, ls: seq<Row>, rs: seq<Row>)
    requires forall r | r in rs :: |r| == m && Mirrored(j, k, l, r)
    requires k.typ == Inner
    ensures Turned(k, m, rs, [l] + ls) == multiset(Matches(j, l, rs)) + Turned(k, m, rs, ls)
    decreases rs
  {
    if rs != [] {
      var r, rest := rs[0], rs[1..];
      assert r in rs && rs == [r] + rest;
      OneMoreRow(j, k, m, l, ls, rest);
      TurnedStep(k, m, r, rest, [l] + ls);
      TurnedStep(k, m, r, rest, ls);
      OneMoreMatch(j, k, l, r, ls);
      MatchesStep(j, k, l, r, rest);
      Shuffle(multiset(if IsTrue(j.cond, l + r) then [l + r] else []), multiset(TurnAll(m, Matches(k, r, ls))),
              multiset(Matches(j, l, rest)), Turned(k, m, rest, ls));
    }
  }

  lemma {:induction false} NothingToJoin(k: Join, rs: seq<Row>)
    requires k.typ == Inner
    ensures NestedLoopJoin(k, rs, []) == []
  {
    if rs != [] { NothingToJoin(k, rs[1..]); }
  }

  lemma {:induction false} InnerStep(j: Join, l: Row, ls: seq<Row>, rs: seq<Row>)
    requires j.typ == Inner
    ensures multiset(NestedLoopJoin(j, [l] + ls, rs)) ==
      multiset(Matches(j, l, rs)) + multiset(NestedLoopJoin(j, ls, rs))
  {
    assert ([l] + ls)[1..] == ls;
  }

  lemma {:induction false} NothingMirrored(j: Join, k: Join, m: nat, ls: seq<Row>, rs: seq<Row>)
    requires k.typ == Inner && ls == []
    ensures multiset(NestedLoopJoin(j, ls, rs)) == Turned(k, m, rs, ls)
  {
    NothingToJoin(k, rs);
  }

  predicate MirroredWith(j: Join, k: Join, m: nat, l: Row, rs: seq<Row>) {
    forall r | r in rs :: |r| == m && Mirrored(j, k, l, r)
  }

  lemma {:induction false} MirroredStep(j: Join, k: Join, m: nat, l: Row, ls: seq<Row>, all: seq<Row>,
                                        rs: seq<Row>)
    requires j.typ == k.typ == Inner && MirroredWith(j, k, m, l, rs)
    requires all != [] && l == all[0] && ls == all[1..]
    requires multiset(NestedLoopJoin(j, ls, rs)) == Turned(k, m, rs, ls)
    ensures multiset(NestedLoopJoin(j, all, rs)) == Turned(k, m, rs, all)
  {
    assert all == [l] + ls;
    OneMoreRow(j, k, m, l, ls, rs);
    InnerStep(j, l, ls, rs);
  }

  /** Joining from the other side gives the same rows, in some order and with the column blocks swapped. */
  lemma {:induction false} MirroredJoins(j: Join, k: Join, m: nat, ls: seq<Row>, rs: seq<Row>)
    requires j.typ == k.typ == Inner
    requires forall l | l in ls :: MirroredWith(j, k, m, l, rs)
    ensures multiset(NestedLoopJoin(j, ls, rs)) == Turned(k, m, rs, ls)
    decreases ls
  {
    if ls == [] {
      NothingMirrored(j, k, m, ls, rs);
    } else {
      var l, rest := ls[0], ls[1..];
      assert l in ls && forall x | x in rest :: x in ls;
      MirroredJoins(j, k, m, rest, rs);
      MirroredStep(j, k, m, l, rest, ls, rs);
    }
  }

  // ----- the exchanged indexed join

  /** An inner join of two tables, with its condition resolved against the left columns and then the right. */
  predicate InnerJoin(j: Join, ls: Schema, rs: Schema) {
    j.typ == Inner && j.rowSize == |ls| + |rs| && Distinct(rs + ls) && Resolved(j.cond, ls + rs)
  }

  lemma {:induction false} ExchangeExists(j: Join, ls: Schema, rs: Schema)
    requires InnerJoin(j, ls, rs)
    ensures Swapped(j, rs, ls).Ok?
  {
    ResolvedColumns(j.cond, ls + rs);
    assert forall c | c in ls + rs :: c in rs + ls;
  }

  lemma {:induction false} PairsAreMirrored(j: Join, ls: Schema, rs: Schema, l: Row, r: Row)
    requires InnerJoin(j, ls, rs) && Swapped(j, rs, ls).Ok? && |l| == |ls| && |r| == |rs|
    ensures Mirrored(j, Swapped(j, rs, ls).value, l, r)
  {
    SwappedRowsAgree(rs, r, ls, l);
    SameValue(j.cond, ls + rs, l + r, Swapped(j, rs, ls).value.cond, rs + ls, r + l);
  }

  /** The nested-loop join of any inputs, from the left and from the right. */
  lemma {:induction false} ExchangedJoinIsPermuted(j: Join, ls: Schema, rs: Schema, left: seq<Row>, right: seq<Row>)
    requires InnerJoin(j, ls, rs) && Sized(left, |ls|) && Sized(right, |rs|)
    ensures Swapped(j, rs, ls).Ok?
    ensures multiset(NestedLoopJoin(j, left, right)) == Turned(Swapped(j, rs, ls).value, |rs|, right, left)
  {
    ExchangeExists(j, ls, rs);
    var k := Swapped(j, rs, ls).value;
    forall l, r | l in left && r in right ensures |r| == |rs| && Mirrored(j, k, l, r) {
      PairsAreMirrored(j, ls, rs, l, r);
    }
    MirroredJoins(j, k, |rs|, left, right);
  }

  /** The indexed join with its sides exchanged has the rows of the join, in some order. */
  predicate IsPermuted(j: Join, keyExprs: seq<Expr>, ix: Index, ls: Schema, rs: Schema, left: seq<Row>, right: seq<Row>)
    requires Swapped(j, rs, ls).Ok?
  {
    multiset(NestedLoopJoin(j, left, right))
    == multiset(TurnAll(|rs|, IndexedJoin(Swapped(j, rs, ls).value, keyExprs, ix, right, left)))
  }

  ghost predicate AlwaysPermuted(j: Join, keyExprs: seq<Expr>, ix: Index, ls: Schema, rs: Schema)
    requires Swapped(j, rs, ls).Ok?
  {
    forall left, right | Sized(left, |ls|) && Sized(right, |rs|) :: IsPermuted(j, keyExprs, ix, ls, rs, left, right)
  }

  /** A pair that the key misses shows in the number of rows. */
  lemma {:induction false} MissedPairShowsTurned(j: Join, keyExprs: seq<Expr>, ix: Index, ls: Schema, rs: Schema,
                                                 p: Row, s: Row)
    requires InnerJoin(j, ls, rs) && Swapped(j, rs, ls).Ok? && |p| == |rs| && |s| == |ls|
    requires !IsFound(Swapped(j, rs, ls).value, keyExprs, ix, p, s)
    ensures !IsPermuted(j, keyExprs, ix, ls, rs, [s, s], [p])
  {
    var k := Swapped(j, rs, ls).value;
    ExchangedJoinIsPermuted(j, ls, rs, [s, s], [p]);
    MissedPairCosts(k, keyExprs, ix, p, s);
    var joined, found := NestedLoopJoin(k, [p], [s, s]), IndexedJoin(k, keyExprs, ix, [p], [s, s]);
    assert |multiset(TurnAll(|rs|, joined))| == |joined|;
    assert |multiset(TurnAll(|rs|, found))| == |found|;
  }

  lemma {:induction false} AgreeingIsPermuted(j: Join, keyExprs: seq<Expr>, ix: Index, ls: Schema, rs: Schema,
                                              left: seq<Row>, right: seq<Row>)
    requires InnerJoin(j, ls, rs) && Sized(left, |ls|) && Sized(right, |rs|) && Swapped(j, rs, ls).Ok?
    requires Agrees(Swapped(j, rs, ls).value, keyExprs, ix, right, left)
    ensures IsPermuted(j, keyExprs, ix, ls, rs, left, right)
  {
    ExchangedJoinIsPermuted(j, ls, rs, left, right);
  }

  lemma {:induction false} FoundIsPermuted(j: Join, keyExprs: seq<Expr>, ix: Index, ls: Schema, rs: Schema)
    requires InnerJoin(j, ls, rs) && Swapped(j, rs, ls).Ok?
    requires AlwaysFound(Swapped(j, rs, ls).value, keyExprs, ix, |rs|, |ls|)
    ensures AlwaysPermuted(j, keyExprs, ix, ls, rs)
  {
    FoundAlwaysAgrees(Swapped(j, rs, ls).value, keyExprs, ix, |rs|, |ls|);
    forall left, right | Sized(left, |ls|) && Sized(right, |rs|)
      ensures IsPermuted(j, keyExprs, ix, ls, rs, left, right)
    {
      AgreeingIsPermuted(j, keyExprs, ix, ls, rs, left, right);
    }
  }

  lemma {:induction false} MissedIsNotPermuted(j: Join, keyExprs: seq<Expr>, ix: Index, ls: Schema, rs: Schema,
                                               p: Row, s: Row)
    requires InnerJoin(j, ls, rs) && Swapped(j, rs, ls).Ok? && |p| == |rs| && |s| == |ls|
    requires !IsFound(Swapped(j, rs, ls).value, keyExprs, ix, p, s)
    ensures !AlwaysPermuted(j, keyExprs, ix, ls, rs)
  {
    var left, right := [s, s], [p];
    assert Sized(left, |ls|) && Sized(right, |rs|);
    MissedPairShowsTurned(j, keyExprs, ix, ls, rs, p, s);
  }

  /** With its sides exchanged, the indexed join has the rows of the inner join for all inputs, in some order and with
      the column blocks swapped, iff the key of a row finds every row that joins with it. */
  lemma {:induction false} ExchangedIffFound(j: Join, keyExprs: seq<Expr>, ix: Index, ls: Schema, rs: Schema)
    requires InnerJoin(j, ls, rs)
    ensures Swapped(j, rs, ls).Ok?
    ensures AlwaysPermuted(j, keyExprs, ix, ls, rs) <==>
      AlwaysFound(Swapped(j, rs, ls).value, keyExprs, ix, |rs|, |ls|)
  {
    ExchangeExists(j, ls, rs);
    if AlwaysFound(Swapped(j, rs, ls).value, keyExprs, ix, |rs|, |ls|) {
      FoundIsPermuted(j, keyExprs, ix, ls, rs);
    } else {
      var p: Row, s: Row :| |p| == |rs| && |s| == |ls| && !IsFound(Swapped(j, rs, ls).value, keyExprs, ix, p, s);
      MissedIsNotPermuted(j, keyExprs, ix, ls, rs, p, s);
    }
  }
}
