/** Reading a partition of an in-memory table: which rows an index lookup yields, which of them the
    pushed-down filters let through, and what the projection makes of them. */
module MemoryTable {
  import opened Values
  import opened Expressions
  import opened Lookups

  // ----- what a scan yields

  function Filtered(e: Expr, rows: seq<Row>): seq<Row> {
    if rows == [] then []
    else (if Holds(e, rows[0]) then [rows[0]] else []) + Filtered(e, rows[1..])
  }

  predicate Passes(filters: seq<Expr>, row: Row) {
    forall f | f in filters :: Holds(f, row)
  }

  predicate Within(columns: seq<nat>, row: Row) {
    forall c | c in columns :: c < |row|
  }

  /** `projectOnRow`: no columns means the whole row. */
  function Project(columns: seq<nat>, row: Row): Row
    requires Within(columns, row)
  {
    if |columns| < 1 then row
    else seq(|columns|, i requires 0 <= i < |columns| => assert columns[i] in columns; row[columns[i]])
  }

  /** The rows a table iterator yields from its candidate rows. */
  function Scan(rows: seq<Row>, filters: seq<Expr>, columns: seq<nat>): seq<Row>
    requires forall r | r in rows :: Within(columns, r)
  {
    if rows == [] then []
    else (if Passes(filters, rows[0]) then [Project(columns, rows[0])] else []) + Scan(rows[1..], filters, columns)
  }

  /** The positions of the rows that match, in order. */
  function Positions(e: Expr, rows: seq<Row>, from: nat): (r: seq<nat>)
    requires from <= |rows|
    ensures forall p | p in r :: from <= p < |rows|
    decreases |rows| - from
  {
    if from == |rows| then []
    else (if Holds(e, rows[from]) then [from] else []) + Positions(e, rows, from + 1)
  }

  function RowsAt(rows: seq<Row>, ps: seq<nat>): (r: seq<Row>)
    requires forall p | p in ps :: p < |rows|
    ensures |r| == |ps|
    ensures forall i | 0 <= i < |r| :: ps[i] in ps && r[i] == rows[ps[i]] && r[i] in rows
  {
    var r := seq(|ps|, i requires 0 <= i < |ps| => assert ps[i] in ps; rows[ps[i]]);
    assert forall i | 0 <= i < |ps| :: ps[i] in ps;
    r
  }

  lemma {:induction false} RowsAtStep(rows: seq<Row>, p: nat, ps: seq<nat>)
    requires p < |rows| && forall q | q in ps :: q < |rows|
    ensures forall q | q in [p] + ps :: q < |rows|
    ensures RowsAt(rows, [p] + ps) == [rows[p]] + RowsAt(rows, ps)
  {
    assert forall q :: q in [p] + ps <==> q == p || q in ps;
  }

  /** The rows found through their positions are the rows that satisfy the expression, in order. */
  lemma {:induction false} PositionsFindRows(e: Expr, rows: seq<Row>, from: nat)
    requires from <= |rows|
    ensures RowsAt(rows, Positions(e, rows, from)) == Filtered(e, rows[from..])
    decreases |rows| - from
  {
    if from < |rows| {
      PositionsFindRows(e, rows, from + 1);
      assert rows[from..][1..] == rows[from + 1..];
      var ps, rest := Positions(e, rows, from), Positions(e, rows, from + 1);
      if Holds(e, rows[from]) {
        assert ps == [from] + rest;
        RowsAtStep(rows, from, rest);
      } else {
        assert ps == rest;
      }
    }
  }

  lemma {:induction false} FilteredAreRows(e: Expr, rows: seq<Row>)
    ensures |Filtered(e, rows)| <= |rows| && forall r | r in Filtered(e, rows) :: r in rows
  {
    if rows != [] {
      FilteredAreRows(e, rows[1..]);
      assert forall r | r in rows[1..] :: r in rows;
    }
  }

  predicate Evaluates(e: Expr, rows: seq<Row>) {
    forall r | r in rows :: Eval(e, r).Ok?
  }

  lemma {:induction false} OneMorePosition(e: Expr, rows: seq<Row>, k: nat, before: seq<nat>, after: seq<nat>)
    requires k < |rows| && Eval(e, rows[k]).Ok?
    requires after == if Truthy(Eval(e, rows[k]).value) then before + [k] else before
    ensures after + Positions(e, rows, k + 1) == before + Positions(e, rows, k)
  {
    var own := if Truthy(Eval(e, rows[k]).value) then [k] else [];
    var rest := Positions(e, rows, k + 1);
    assert Positions(e, rows, k) == own + rest;
    assert after == before + own;
    Regroup(before, own, rest);
  }

  lemma {:induction false} Regroup(a: seq<nat>, b: seq<nat>, c: seq<nat>)
    ensures (a + b) + c == a + (b + c)
  {
  }

  lemma {:induction false} OneMoreEvaluates(e: Expr, rows: seq<Row>, k: nat)
    requires k < |rows| && Eval(e, rows[k]).Ok? && Evaluates(e, rows[..k])
    ensures Evaluates(e, rows[..k + 1])
  {
    assert rows[..k + 1] == rows[..k] + [rows[k]];
  }

  // ----- the iterators

  datatype Next<T> = Item(value: T) | Eof | Failed

  /** `indexValIter`: the positions of the rows of a partition that match an expression, computed on
      the first call and handed out one by one. */
  class IndexValIter {
    const rows: seq<Row>
    const matchExpression: Expr
    var values: seq<nat>
    var i: nat

    constructor (rows: seq<Row>, matchExpression: Expr)
      ensures this.rows == rows && this.matchExpression == matchExpression
      ensures values == [] && i == 0
    {
      this.rows, this.matchExpression := rows, matchExpression;
      values, i := [], 0;
    }

    /** No values yet, or all of them. */
    predicate Valid()
      reads this
    {
      && i <= |values|
      && (values == [] || values == Positions(matchExpression, rows, 0))
    }

    /** The positions still to be handed out. */
    function Remaining(): (r: seq<nat>)
      reads this
      requires Valid()
      ensures forall p | p in r :: p < |rows|
    {
      var ps := Positions(matchExpression, rows, 0);
      assert forall p | p in ps[i..] :: p in ps;
      ps[i..]
    }

    /** The expression is evaluated on every row of the partition; an evaluation error ends the scan. */
    method InitValues() returns (ok: bool)
      requires Valid()
      modifies this
      ensures i == old(i)
      ensures old(values) != [] ==> ok && values == old(values)
      ensures old(values) == [] ==> (ok <==> Evaluates(matchExpression, rows))
      ensures ok ==> Valid() && values == Positions(matchExpression, rows, 0)
    {
      if values == [] {
        for k := 0 to |rows|
          invariant i == old(i) == 0
          invariant Evaluates(matchExpression, rows[..k])
          invariant values + Positions(matchExpression, rows, k) == Positions(matchExpression, rows, 0)
        {
          var v := Eval(matchExpression, rows[k]);
          if v.Err? {
            assert rows[k] in rows;
            return false;
          }
          ghost var before := values;
          if Truthy(v.value) {
            values := values + [k];
          }
          OneMorePosition(matchExpression, rows, k, before, values);
          OneMoreEvaluates(matchExpression, rows, k);
        }
        assert rows[..|rows|] == rows;
      }
      return true;
    }

    method Next() returns (r: Next<nat>)
      requires Valid()
      modifies this
      ensures !r.Failed? ==> Valid()
      ensures r.Item? ==> old(Remaining()) == [r.value] + Remaining()
      ensures r.Eof? ==> old(Remaining()) == [] == Remaining()
      ensures r.Failed? ==> !Evaluates(matchExpression, rows)
    {
      var ok := InitValues();
      if !ok {
        return Failed;
      }
      if i < |values| {
        var p := values[i];
        assert values[i..] == [p] + values[i + 1..];
        i := i + 1;
        return Item(p);
      }
      return Eof;
    }
  }

  /** `tableIter`: the rows of a partition, all of them or those of an index, that pass the filters,
      projected. */
  class TableIter {
    const columns: seq<nat>
    const filters: seq<Expr>
    const rows: seq<Row>
    const indexValues: IndexValIter?
    var pos: nat

    constructor (rows: seq<Row>, columns: seq<nat>, filters: seq<Expr>, indexValues: IndexValIter?)
      requires forall r | r in rows :: Within(columns, r)
      requires indexValues != null ==> indexValues.Valid() && indexValues.rows == rows
      ensures Valid() && this.rows == rows && this.columns == columns && this.filters == filters
      ensures this.indexValues == indexValues && pos == 0
    {
      this.rows, this.columns, this.filters, this.indexValues := rows, columns, filters, indexValues;
      pos := 0;
    }

    predicate Valid()
      reads this, indexValues
    {
      && pos <= |rows|
      && (forall r | r in rows :: Within(columns, r))
      && (indexValues != null ==> indexValues.Valid() && indexValues.rows == rows)
    }

    /** The candidate rows still to be read. */
    function Candidates(): (r: seq<Row>)
      reads this, indexValues
      requires Valid()
      ensures forall x | x in r :: x in rows
    {
      if indexValues == null then rows[pos..] else RowsAt(rows, indexValues.Remaining())
    }

    /** The rows still to be yielded. */
    function Remaining(): seq<Row>
      reads this, indexValues
      requires Valid()
    {
      Scan(Candidates(), filters, columns)
    }

    /** Some expression fails to evaluate on some row. */
    ghost predicate SomethingFails()
      reads this, indexValues
    {
      || (indexValues != null && !Evaluates(indexValues.matchExpression, rows))
      || (exists f | f in filters :: !Evaluates(f, rows))
    }

    method GetFromIndex() returns (r: Next<Row>)
      requires Valid() && indexValues != null
      modifies indexValues
      ensures !r.Failed? ==> Valid()
      ensures r.Item? ==> old(Candidates()) == [r.value] + Candidates()
      ensures r.Eof? ==> old(Candidates()) == [] == Candidates()
      ensures r.Failed? ==> SomethingFails()
    {
      ghost var before := indexValues.Remaining();
      var p := indexValues.Next();
      if p.Failed? {
        return Failed;
      }
      if p.Eof? {
        return Eof;
      }
      assert before[0] == p.value && p.value in before;
      RowsAtStep(rows, p.value, indexValues.Remaining());
      return Item(rows[p.value]);
    }

    method GetRow() returns (r: Next<Row>)
      requires Valid()
      modifies this, indexValues
      ensures !r.Failed? ==> Valid()
      ensures r.Item? ==> old(Candidates()) == [r.value] + Candidates()
      ensures r.Eof? ==> old(Candidates()) == [] == Candidates()
      ensures r.Failed? ==> SomethingFails()
    {
      if indexValues != null {
        r := GetFromIndex();
        return r;
      }
      if pos >= |rows| {
        return Eof;
      }
      pos := pos + 1;
      return Item(rows[pos - 1]);
    }

    method CheckFilters(row: Row) returns (r: Next<bool>)
      requires row in rows
      ensures r.Item? ==> r.value == Passes(filters, row)
      ensures r.Failed? ==> exists f | f in filters :: !Evaluates(f, rows)
      ensures !r.Eof?
    {
      for k := 0 to |filters|
        invariant Passes(filters[..k], row)
      {
        assert filters[k] in filters;
        var v := Eval(filters[k], row);
        if v.Err? {
          return Failed;
        }
        if !Truthy(v.value) {
          return Item(false);
        }
        assert filters[..k + 1] == filters[..k] + [filters[k]];
      }
      assert filters[..|filters|] == filters;
      return Item(true);
    }

    method Next() returns (r: Next<Row>)
      requires Valid()
      modifies this, indexValues
      decreases |Candidates()|
      ensures !r.Failed? ==> Valid()
      ensures r.Item? ==> old(Remaining()) == [r.value] + Remaining()
      ensures r.Eof? ==> old(Remaining()) == [] == Remaining()
      ensures r.Failed? ==> SomethingFails()
    {
      ghost var before := Candidates();
      var c := GetRow();
      if c.Failed? {
        return Failed;
      }
      if c.Eof? {
        return Eof;
      }
      assert before[1..] == Candidates();
      assert c.value in before;
      var ok := CheckFilters(c.value);
      if ok.Failed? {
        return Failed;
      }
      if !ok.value {
        r := Next();
        return r;
      }
      return Item(Project(columns, c.value));
    }
  }
}
