/** Hash grouping: `groupByGroupingIter`, `groupByIter` and their aggregation buffers.  The key of a row is the
    sequence of its grouping values; the hash of it is taken to be injective. */
module GroupBy {
  import opened Values
  import opened Expressions
  import opened MemoryTable
  import Sums

  datatype Aggregation = Count | Max | Min

  /** A selected expression: an aggregation of an expression, or a plain one. */
  datatype Output = Aggregate(fn: Aggregation, arg: Expr) | Plain(e: Expr)

  /** The state of one selected expression within a group; `None` is the buffer of a plain expression before its
      first row. */
  type Buffer = Option<Value>

  function NewBuffer(o: Output): Buffer {
    match o
    case Aggregate(Count, _) => Some(Int(0))
    case Aggregate(_, _) => Some(Null)
    case Plain(_) => None
  }

  function NewBuffers(os: seq<Output>): (r: seq<Buffer>)
    ensures |r| == |os|
  {
    seq(|os|, i requires 0 <= i < |os| => NewBuffer(os[i]))
  }

  /** `Update` of the aggregations on the value of their argument. */
  function Absorb(fn: Aggregation, b: Value, v: Value): Value {
    match fn
    case Count => if v == Null then b else Int(AsInt(b) + 1)
    case Max => if v == Null then b else if b == Null || AsInt(v) > AsInt(b) then v else b
    case Min => if v == Null then b else if b == Null || AsInt(v) < AsInt(b) then v else b
  }

  /** `updateBuffer`: an aggregation absorbs the row, a plain expression is evaluated afresh. */
  function Update(o: Output, b: Buffer, row: Row): Result<Buffer> {
    match o
    case Aggregate(fn, e) =>
      var v :- Eval(e, row);
      Ok(Some(Absorb(fn, if b.Some? then b.value else Null, v)))
    case Plain(e) =>
      var v :- Eval(e, row);
      Ok(Some(v))
  }

  /** `evalBuffer`. */
  function Finish(b: Buffer): Value {
    if b.Some? then b.value else Null
  }

  function FinishAll(bs: seq<Buffer>): (r: Row)
    ensures |r| == |bs|
  {
    seq(|bs|, i requires 0 <= i < |bs| => Finish(bs[i]))
  }

  // ----- the specification

  /** The buffer of one selected expression after the given rows. */
  function Folded(o: Output, rows: seq<Row>): Result<Buffer> {
    if rows == [] then Ok(NewBuffer(o)) else
    var last := |rows| - 1;
    var b :- Folded(o, rows[..last]);
    Update(o, b, rows[last])
  }

  /** The key of a row, if the grouping expressions evaluate. */
  function KeyOf(grouping: seq<Expr>, row: Row): Result<seq<Value>> {
    EvalAll(grouping, row)
  }

  /** The rows of a group, in order. */
  function InGroup(grouping: seq<Expr>, key: seq<Value>, rows: seq<Row>): seq<Row> {
    if rows == [] then []
    else
      var last := |rows| - 1;
      InGroup(grouping, key, rows[..last]) + (if KeyOf(grouping, rows[last]) == Ok(key) then [rows[last]] else [])
  }

  /** The keys in the order of their first rows. */
  function FirstKeys(grouping: seq<Expr>, rows: seq<Row>): seq<seq<Value>> {
    if rows == [] then []
    else
      var last := |rows| - 1;
      var ks := FirstKeys(grouping, rows[..last]);
      var k := KeyOf(grouping, rows[last]);
      if k.Ok? && k.value !in ks then ks + [k.value] else ks
  }

  /** Some row has the key. */
  predicate HasKey(grouping: seq<Expr>, rows: seq<Row>, k: seq<Value>) {
    exists row | row in rows :: KeyOf(grouping, row) == Ok(k)
  }

  predicate EachOnce(ks: seq<seq<Value>>) {
    forall i, j | 0 <= i < j < |ks| :: ks[i] != ks[j]
  }

  lemma {:induction false} HasKeyAppend(grouping: seq<Expr>, rows: seq<Row>, row: Row, k: seq<Value>)
    ensures HasKey(grouping, rows + [row], k) <==> HasKey(grouping, rows, k) || KeyOf(grouping, row) == Ok(k)
  {
    assert row in rows + [row];
    assert forall r :: r in rows + [row] <==> r in rows || r == row;
  }

  /** The first keys are the keys of the rows, each once. */
  lemma {:induction false} FirstKeysAreTheKeys(grouping: seq<Expr>, rows: seq<Row>)
    ensures forall k :: k in FirstKeys(grouping, rows) <==> HasKey(grouping, rows, k)
    ensures EachOnce(FirstKeys(grouping, rows))
    decreases |rows|
  {
    if rows != [] {
      var init, row := rows[..|rows| - 1], rows[|rows| - 1];
      FirstKeysAreTheKeys(grouping, init);
      assert rows == init + [row];
      forall k ensures HasKey(grouping, rows, k) <==> HasKey(grouping, init, k) || KeyOf(grouping, row) == Ok(k) {
        HasKeyAppend(grouping, init, row, k);
      }
    }
  }

  /** Everything a group by evaluates on these rows evaluates. */
  predicate AllEvaluate(os: seq<Output>, grouping: seq<Expr>, rows: seq<Row>) {
    forall r | r in rows :: RowEvaluates(os, grouping, r)
  }

  predicate RowEvaluates(os: seq<Output>, grouping: seq<Expr>, row: Row) {
    KeyOf(grouping, row).Ok? && forall o | o in os :: Eval(if o.Plain? then o.e else o.arg, row).Ok?
  }

  /** The buffers are those of the given rows. */
  predicate BuffersOf(os: seq<Output>, bs: seq<Buffer>, rows: seq<Row>) {
    |bs| == |os| && forall i | 0 <= i < |os| :: Folded(os[i], rows) == Ok(bs[i])
  }

  /** The output row of a group. */
  predicate IsGroupRow(os: seq<Output>, rows: seq<Row>, out: Row) {
    |out| == |os| && forall i | 0 <= i < |os| :: Folded(os[i], rows).Ok? && out[i] == Finish(Folded(os[i], rows).value)
  }

  /** The output row of the group of the n-th key. */
  predicate IsNthGroup(os: seq<Output>, grouping: seq<Expr>, rows: seq<Row>, n: nat, out: Row) {
    var keys := FirstKeys(grouping, rows);
    n < |keys| && IsGroupRow(os, InGroup(grouping, keys[n], rows), out)
  }

  lemma {:induction false} FinishIsGroupRow(os: seq<Output>, bs: seq<Buffer>, rows: seq<Row>)
    requires BuffersOf(os, bs, rows)
    ensures IsGroupRow(os, rows, FinishAll(bs))
  {
  }

  lemma {:induction false} FoldedAppend(o: Output, rows: seq<Row>, row: Row)
    requires Folded(o, rows).Ok?
    ensures Folded(o, rows + [row]) == Update(o, Folded(o, rows).value, row)
  {
    assert (rows + [row])[..|rows|] == rows;
  }

  lemma {:induction false} InGroupAppend(grouping: seq<Expr>, key: seq<Value>, rows: seq<Row>, row: Row)
    ensures InGroup(grouping, key, rows + [row]) ==
      InGroup(grouping, key, rows) + (if KeyOf(grouping, row) == Ok(key) then [row] else [])
  {
    assert (rows + [row])[..|rows|] == rows;
  }

  lemma {:induction false} FirstKeysAppend(grouping: seq<Expr>, rows: seq<Row>, row: Row)
    requires KeyOf(grouping, row).Ok?
    ensures var k, ks := KeyOf(grouping, row).value, FirstKeys(grouping, rows);
      FirstKeys(grouping, rows + [row]) == if k in ks then ks else ks + [k]
  {
    assert (rows + [row])[..|rows|] == rows;
  }

  lemma {:induction false} EmptyGroup(grouping: seq<Expr>, key: seq<Value>, rows: seq<Row>)
    requires key !in FirstKeys(grouping, rows)
    ensures InGroup(grouping, key, rows) == []
    decreases |rows|
  {
    if rows != [] {
      EmptyGroup(grouping, key, rows[..|rows| - 1]);
    }
  }

  type Cache = map<seq<Value>, seq<Buffer>>

  /** The cache and the keys are those of the given rows. */
  ghost predicate Shown(os: seq<Output>, grouping: seq<Expr>, cache: Cache, keys: seq<seq<Value>>, rows: seq<Row>) {
    && keys == FirstKeys(grouping, rows)
    && (forall k :: k in cache <==> k in keys)
    && (forall k | k in cache :: GroupShown(os, grouping, cache, k, rows))
  }

  ghost predicate GroupShown(os: seq<Output>, grouping: seq<Expr>, cache: Cache, k: seq<Value>, rows: seq<Row>)
    requires k in cache
  {
    BuffersOf(os, cache[k], InGroup(grouping, k, rows))
  }

  lemma {:induction false} ShownRow(os: seq<Output>, grouping: seq<Expr>, cache: Cache, keys: seq<seq<Value>>,
                                    rows: seq<Row>, n: nat)
    requires Shown(os, grouping, cache, keys, rows) && n < |keys|
    ensures keys[n] in cache && IsNthGroup(os, grouping, rows, n, FinishAll(cache[keys[n]]))
  {
    var k := keys[n];
    assert k in keys;
    assert GroupShown(os, grouping, cache, k, rows);
    FinishIsGroupRow(os, cache[k], InGroup(grouping, k, rows));
  }

  /** The buffers a row goes to, those of its group or new ones, are the buffers of its group. */
  lemma {:induction false} GroupBuffers(os: seq<Output>, grouping: seq<Expr>, cache: Cache, keys: seq<seq<Value>>,
                                        rows: seq<Row>, k: seq<Value>)
    requires Shown(os, grouping, cache, keys, rows)
    ensures BuffersOf(os, if k in cache then cache[k] else NewBuffers(os), InGroup(grouping, k, rows))
  {
    if k in cache {
      assert GroupShown(os, grouping, cache, k, rows);
    } else {
      EmptyGroup(grouping, k, rows);
    }
  }

  lemma {:induction false} RowShown(os: seq<Output>, grouping: seq<Expr>, cache: Cache, keys: seq<seq<Value>>,
                                    rows: seq<Row>, row: Row, bs: seq<Buffer>)
    requires Shown(os, grouping, cache, keys, rows) && KeyOf(grouping, row).Ok?
    requires BuffersOf(os, bs, InGroup(grouping, KeyOf(grouping, row).value, rows) + [row])
    ensures var k := KeyOf(grouping, row).value;
      Shown(os, grouping, cache[k := bs], if k in cache then keys else keys + [k], rows + [row])
  {
    var k := KeyOf(grouping, row).value;
    var cache' := cache[k := bs];
    FirstKeysAppend(grouping, rows, row);
    forall x | x in cache' ensures GroupShown(os, grouping, cache', x, rows + [row]) {
      InGroupAppend(grouping, x, rows, row);
      if x != k {
        assert GroupShown(os, grouping, cache, x, rows);
        assert InGroup(grouping, x, rows + [row]) == InGroup(grouping, x, rows);
      }
    }
  }

  // ----- what the groups and the folds mean

  /** The rows of the groups of the given keys, as a multiset. */
  ghost function Together(grouping: seq<Expr>, ks: seq<seq<Value>>, rows: seq<Row>): multiset<Row> {
    if ks == [] then multiset{}
    else
      var last := |ks| - 1;
      Together(grouping, ks[..last], rows) + multiset(InGroup(grouping, ks[last], rows))
  }

  lemma {:induction false} TogetherAppend(grouping: seq<Expr>, ks: seq<seq<Value>>, rows: seq<Row>, row: Row)
    requires KeyOf(grouping, row).Ok? && forall i, j | 0 <= i < j < |ks| :: ks[i] != ks[j]
    ensures Together(grouping, ks, rows + [row])
         == Together(grouping, ks, rows) + (if KeyOf(grouping, row).value in ks then multiset{row} else multiset{})
    decreases |ks|
  {
    if ks != [] {
      var last := |ks| - 1;
      var init, k := ks[..last], KeyOf(grouping, row).value;
      TogetherAppend(grouping, init, rows, row);
      GroupAppend(grouping, ks[last], rows, row);
      assert k in ks <==> k in init || k == ks[last];
      var before, after := Together(grouping, init, rows), Together(grouping, init, rows + [row]);
      var own, own' := multiset(InGroup(grouping, ks[last], rows)), multiset(InGroup(grouping, ks[last], rows + [row]));
      assert Together(grouping, ks, rows) == before + own && Together(grouping, ks, rows + [row]) == after + own';
      Sums.AddToOne(before, after, own, own', row, k in init, k == ks[last]);
    }
  }

  lemma {:induction false} GroupAppend(grouping: seq<Expr>, key: seq<Value>, rows: seq<Row>, row: Row)
    ensures multiset(InGroup(grouping, key, rows + [row]))
         == multiset(InGroup(grouping, key, rows)) +
           (if KeyOf(grouping, row) == Ok(key) then multiset{row} else multiset{})
  {
    InGroupAppend(grouping, key, rows, row);
  }

  /** One more row is one more row in the groups. */
  lemma {:induction false} OneMoreRow(grouping: seq<Expr>, rows: seq<Row>, row: Row)
    requires KeyOf(grouping, row).Ok?
    ensures Together(grouping, FirstKeys(grouping, rows + [row]), rows + [row])
         == Together(grouping, FirstKeys(grouping, rows), rows) + multiset{row}
  {
    var ks, k := FirstKeys(grouping, rows), KeyOf(grouping, row).value;
    FirstKeysAreTheKeys(grouping, rows);
    FirstKeysAppend(grouping, rows, row);
    TogetherAppend(grouping, ks, rows, row);
    if k !in ks {
      var ks' := ks + [k];
      assert ks'[..|ks|] == ks;
      EmptyGroup(grouping, k, rows);
      InGroupAppend(grouping, k, rows, row);
      assert InGroup(grouping, k, rows + [row]) == [row];
    }
  }

  /** Every row is in exactly one group: the groups together are the rows. */
  lemma {:induction false} GroupsPartitionRows(grouping: seq<Expr>, rows: seq<Row>)
    requires forall r | r in rows :: KeyOf(grouping, r).Ok?
    ensures Together(grouping, FirstKeys(grouping, rows), rows) == multiset(rows)
    decreases |rows|
  {
    if rows != [] {
      var init, row := rows[..|rows| - 1], rows[|rows| - 1];
      assert rows == init + [row] && row in rows;
      GroupsPartitionRows(grouping, init);
      OneMoreRow(grouping, init, row);
    }
  }

  /** COUNT counts the rows on which its argument is not NULL. */
  function NonNull(e: Expr, rows: seq<Row>): nat {
    if rows == [] then 0 else NonNull(e, rows[..|rows| - 1]) + (if Eval(e, rows[|rows| - 1]) == Ok(Null) then 0 else 1)
  }

  lemma {:induction false} CountMeans(e: Expr, rows: seq<Row>)
    requires Folded(Aggregate(Count, e), rows).Ok?
    ensures Folded(Aggregate(Count, e), rows).value == Some(Int(NonNull(e, rows)))
    decreases |rows|
  {
    if rows != [] {
      CountMeans(e, rows[..|rows| - 1]);
    }
  }

  /** The value is the extreme one among the values of an expression, in the direction of the aggregation. */
  ghost predicate IsExtreme(fn: Aggregation, e: Expr, rows: seq<Row>, v: Value) {
    && (v == Null ==> forall r | r in rows :: Eval(e, r) == Ok(Null))
    && (v != Null ==> exists r | r in rows :: Eval(e, r) == Ok(v))
    && forall r | r in rows :: Eval(e, r).Ok? && NotBeyond(fn, Eval(e, r).value, v)
  }

  predicate NotBeyond(fn: Aggregation, x: Value, v: Value) {
    x == Null || (v != Null && if fn == Max then AsInt(x) <= AsInt(v) else AsInt(x) >= AsInt(v))
  }

  /** MAX and MIN give the greatest and the least value, or NULL if there is none. */
  lemma {:induction false} ExtremeMeans(fn: Aggregation, e: Expr, rows: seq<Row>)
    requires fn != Count && Folded(Aggregate(fn, e), rows).Ok?
    ensures Folded(Aggregate(fn, e), rows).value.Some? &&
      IsExtreme(fn, e, rows, Folded(Aggregate(fn, e), rows).value.value)
    decreases |rows|
  {
    if rows != [] {
      var last := |rows| - 1;
      var init, row := rows[..last], rows[last];
      ExtremeMeans(fn, e, init);
      assert row in rows && forall r :: r in rows <==> r in init || r == row;
      var b, v := Folded(Aggregate(fn, e), init).value.value, Eval(e, row).value;
      ExtremeStep(fn, e, init, row, rows, b, v);
    }
  }

  lemma {:induction false} ExtremeStep(fn: Aggregation, e: Expr, init: seq<Row>, row: Row, rows: seq<Row>, b: Value,
                                       v: Value)
    requires fn != Count && IsExtreme(fn, e, init, b) && Eval(e, row) == Ok(v)
    requires row in rows && forall r :: r in rows <==> r in init || r == row
    ensures IsExtreme(fn, e, rows, Absorb(fn, b, v))
  {
    var w := Absorb(fn, b, v);
    forall r | r in rows ensures Eval(e, r).Ok? && NotBeyond(fn, Eval(e, r).value, w) {
      if r != row { assert NotBeyond(fn, Eval(e, r).value, b); }
    }
    if w != Null && w != v {
      var r :| r in init && Eval(e, r) == Ok(b);
      assert r in rows;
    }
  }

  /** A plain expression has its value on the last row of the group. */
  lemma {:induction false} PlainMeans(e: Expr, rows: seq<Row>)
    requires Folded(Plain(e), rows).Ok?
    ensures Finish(Folded(Plain(e), rows).value) == if rows == [] then Null else Eval(e, rows[|rows| - 1]).value
  {
  }

  // ----- the iterators

  /** `updateBuffers`. */
  method UpdateBuffers(os: seq<Output>, bs: seq<Buffer>, row: Row, ghost rows: seq<Row>)
      returns (ok: bool, r: seq<Buffer>)
    requires BuffersOf(os, bs, rows)
    ensures ok ==> BuffersOf(os, r, rows + [row])
    ensures !ok ==> exists o | o in os :: Eval(if o.Plain? then o.e else o.arg, row).Err?
  {
    r := bs;
    for i := 0 to |os|
      invariant |r| == |os| && r[i..] == bs[i..]
      invariant forall j | 0 <= j < i :: Folded(os[j], rows + [row]) == Ok(r[j])
    {
      FoldedAppend(os[i], rows, row);
      assert r[i] == r[i..][0] == bs[i];
      var b := Update(os[i], r[i], row);
      if b.Err? {
        assert os[i] in os;
        return false, r;
      }
      r := r[i := b.value];
    }
    return true, r;
  }

  class GroupByIter {
    const outputs: seq<Output>
    const grouping: seq<Expr>
    const rows: seq<Row>
    var aggregation: Cache
    var keys: seq<seq<Value>>
    var pos: nat
    var computed: bool

    constructor (outputs: seq<Output>, grouping: seq<Expr>, rows: seq<Row>)
      ensures this.outputs == outputs && this.grouping == grouping && this.rows == rows
      ensures Valid() && pos == 0 && !computed
    {
      this.outputs, this.grouping, this.rows := outputs, grouping, rows;
      aggregation, keys, pos, computed := map[], [], 0, false;
    }

    /** The cache and the keys are those of the rows read. */
    ghost predicate Shows(done: seq<Row>)
      reads this`aggregation, this`keys
    {
      Shown(outputs, grouping, aggregation, keys, done)
    }

    ghost predicate Valid()
      reads this
    {
      pos <= |keys| && if computed then Shows(rows) else Shows([]) && pos == 0
    }

    /** Reads one row into its group. */
    method Absorb(row: Row, ghost done: seq<Row>) returns (ok: bool)
      requires Shows(done)
      modifies this`aggregation, this`keys
      ensures ok ==> Shows(done + [row])
      ensures !ok ==> !RowEvaluates(outputs, grouping, row)
    {
      var key := KeyOf(grouping, row);
      if key.Err? {
        return false;
      }
      var k := key.value;
      GroupBuffers(outputs, grouping, aggregation, keys, done, k);
      var buffers := if k in aggregation then aggregation[k] else NewBuffers(outputs);
      var updated, bs := UpdateBuffers(outputs, buffers, row, InGroup(grouping, k, done));
      if !updated {
        return false;
      }
      RowShown(outputs, grouping, aggregation, keys, done, row, bs);
      if k !in aggregation {
        keys := keys + [k];
      }
      aggregation := aggregation[k := bs];
      return true;
    }

    /** `compute`: reads all rows. */
    method Compute() returns (ok: bool)
      requires Shows([])
      modifies this`aggregation, this`keys
      ensures ok ==> Shows(rows)
      ensures !ok ==> !AllEvaluate(outputs, grouping, rows)
    {
      assert rows[..0] == [];
      for i := 0 to |rows|
        invariant Shows(rows[..i])
      {
        ok := Absorb(rows[i], rows[..i]);
        if !ok {
          assert rows[i] in rows;
          return false;
        }
        assert rows[..i + 1] == rows[..i] + [rows[i]];
      }
      assert rows[..|rows|] == rows;
      return true;
    }

    /** Computes the groups before the first of them is asked for. */
    method ComputeOnce() returns (ok: bool)
      requires Valid()
      modifies this
      ensures pos == old(pos)
      ensures if ok then Valid() && computed else !AllEvaluate(outputs, grouping, rows)
      ensures ok ==> |keys| == |FirstKeys(grouping, rows)|
    {
      ok := true;
      if !computed {
        ok := Compute();
        computed := ok;
      }
    }

    /** Takes the output row of the next group. */
    method Take() returns (r: Row)
      requires Valid() && computed && pos < |keys|
      modifies this`pos
      ensures Valid() && pos == old(pos) + 1 && IsNthGroup(outputs, grouping, rows, old(pos), r)
    {
      ShownRow(outputs, grouping, aggregation, keys, rows, pos);
      r := FinishAll(aggregation[keys[pos]]);
      pos := pos + 1;
    }

    /** The next group: one output row for every distinct key, in the order of the first rows of the keys, with the
        folds over exactly the rows of its group. */
    method Next() returns (r: MemoryTable.Next<Row>)
      requires Valid()
      modifies this
      ensures r.Failed? ==> !AllEvaluate(outputs, grouping, rows)
      ensures !r.Failed? ==> Valid() && computed
      ensures r.Item? ==> pos == old(pos) + 1 && IsNthGroup(outputs, grouping, rows, old(pos), r.value)
      ensures r.Eof? ==> pos == old(pos) == |FirstKeys(grouping, rows)|
    {
      var ok := ComputeOnce();
      if !ok {
        return Failed;
      }
      if pos >= |keys| {
        return Eof;
      }
      var row := Take();
      return Item(row);
    }
  }

  /** `groupByIter`, for a query without grouping: one output row for all rows, even for none. */
  method GroupAll(os: seq<Output>, rows: seq<Row>) returns (r: Result<Row>)
    ensures r.Ok? ==> IsGroupRow(os, rows, r.value)
    ensures r.Err? ==> !AllEvaluate(os, [], rows)
  {
    var bs := NewBuffers(os);
    assert rows[..0] == [];
    for i := 0 to |rows|
      invariant BuffersOf(os, bs, rows[..i])
    {
      var ok, bs' := UpdateBuffers(os, bs, rows[i], rows[..i]);
      if !ok {
        assert rows[i] in rows;
        return Err;
      }
      bs := bs';
      assert rows[..i + 1] == rows[..i] + [rows[i]];
    }
    assert rows[..|rows|] == rows;
    FinishIsGroupRow(os, bs, rows);
    return Ok(FinishAll(bs));
  }
}
