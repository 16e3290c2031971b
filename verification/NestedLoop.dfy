/** The meaning of a two-table join: for every row of the primary side, its matches in the secondary
    side, in order; an outer join pads a row without a match. */
module NestedLoop {
  import opened Values
  import opened Expressions

  datatype JoinType = Inner | LeftOuter | RightOuter

  /** The parameters of a join. */
  datatype Join = Join(typ: JoinType, rowSize: nat, cond: Expr)

  function Nulls(n: nat): (r: Row)
    ensures |r| == n
  {
    seq(n, _ => Null)
  }

  /** The effect of copying a row into a slice of `n` NULLs. */
  function CopyInto(n: nat, r: Row): (c: Row)
    ensures |c| == n
    ensures forall i | 0 <= i < n :: c[i] == if i < |r| then r[i] else Null
  {
    if |r| >= n then r[..n] else r + Nulls(n - |r|)
  }

  /** `buildRow`: a right join puts the columns of its primary side last.  `rowSize` is the width of
      both sides together, so a primary row always fits into it. */
  function BuildRow(j: Join, primary: Row, secondary: Row): (r: Row)
    ensures |r| == j.rowSize
    ensures |primary| + |secondary| == j.rowSize ==>
      r == if j.typ == RightOuter then secondary + primary else primary + secondary
    ensures |primary| <= j.rowSize && secondary == [] ==>
      var pad := Nulls(j.rowSize - |primary|); r == if j.typ == RightOuter then pad + primary else primary + pad
  {
    var p := if |primary| <= j.rowSize then primary else primary[..j.rowSize];
    var side := CopyInto(j.rowSize - |p|, secondary);
    if j.typ == RightOuter then side + p else p + side
  }

  /** The joined rows of one primary row. */
  function Matches(j: Join, p: Row, secondary: seq<Row>): seq<Row>
  {
    if secondary == [] then []
    else
      var row := BuildRow(j, p, secondary[0]);
      (if IsTrue(j.cond, row) then [row] else []) + Matches(j, p, secondary[1..])
  }

  /** What one primary row still owes once `found` says whether it already had a match. */
  function RowsOf(j: Join, p: Row, secondary: seq<Row>, found: bool): seq<Row>
  {
    var ms := Matches(j, p, secondary);
    if ms == [] && !found && j.typ != Inner then [BuildRow(j, p, [])] else ms
  }

  /** The nested-loop join. */
  function NestedLoopJoin(j: Join, primary: seq<Row>, secondary: seq<Row>): seq<Row>
  {
    if primary == [] then [] else RowsOf(j, primary[0], secondary, false) + NestedLoopJoin(j, primary[1..], secondary)
  }

  /** Reading one row of the secondary side. */
  lemma {:induction false} RowsOfStep(j: Join, p: Row, rest: seq<Row>, found: bool)
    requires rest != []
    ensures var row := BuildRow(j, p, rest[0]);
      RowsOf(j, p, rest, found) ==
        if IsTrue(j.cond, row) then [row] + RowsOf(j, p, rest[1..], true) else RowsOf(j, p, rest[1..], found)
  {
    assert rest[1..] == [] ==> Matches(j, p, rest[1..]) == [];
  }

  lemma {:induction false} Associative(a: seq<Row>, b: seq<Row>, c: seq<Row>)
    ensures (a + b) + c == a + (b + c)
  {
  }

  /** Reading one row pays the joined row, if there is one, and leaves the rest owed. */
  lemma {:induction false} ReadPays(j: Join, p: Row, unread: seq<Row>, found: bool, later: seq<Row>)
    requires unread != []
    ensures var row := BuildRow(j, p, unread[0]);
      if IsTrue(j.cond, row)
        then RowsOf(j, p, unread, found) + later == [row] + (RowsOf(j, p, unread[1..], true) + later)
      else RowsOf(j, p, unread, found) + later == RowsOf(j, p, unread[1..], found) + later
  {
    var row := BuildRow(j, p, unread[0]);
    RowsOfStep(j, p, unread, found);
    if IsTrue(j.cond, row) { Associative([row], RowsOf(j, p, unread[1..], true), later); }
  }

  /** Without a false condition, a row has one match per secondary row. */
  lemma {:induction false} MatchesOfTrue(j: Join, p: Row, secondary: seq<Row>)
    requires j.cond == Lit(Bool(true))
    ensures |Matches(j, p, secondary)| == |secondary|
  {
    if secondary != [] {
      MatchesOfTrue(j, p, secondary[1..]);
    }
  }
}
