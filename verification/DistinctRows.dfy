/** DISTINCT: `distinctIter` remembers every row it has emitted, `orderedDistinctIter` the last one only.  The hash of
    a row is taken to be injective. */
module DistinctRows {
  import opened Values
  import opened MemoryTable

  /** The first occurrence of every row, in order. */
  function FirstOccurrences(rows: seq<Row>): seq<Row> {
    if rows == [] then []
    else
      var last := |rows| - 1;
      FirstOccurrences(rows[..last]) + (if rows[last] in rows[..last] then [] else [rows[last]])
  }

  /** The rows that differ from the row before them. */
  function WithoutRepeats(rows: seq<Row>): seq<Row> {
    if rows == [] then []
    else
      var last := |rows| - 1;
      WithoutRepeats(rows[..last]) + (if last > 0 && rows[last] == rows[last - 1] then [] else [rows[last]])
  }

  /** Equal rows stand together. */
  predicate Contiguous(rows: seq<Row>) {
    forall i, j, k | 0 <= i <= j <= k < |rows| && rows[i] == rows[k] :: rows[j] == rows[i]
  }

  lemma {:induction false} FirstOccurrencesAreTheRows(rows: seq<Row>)
    ensures forall r :: r in FirstOccurrences(rows) <==> r in rows
    ensures forall i, j | 0 <= i < j < |FirstOccurrences(rows)| ::
      FirstOccurrences(rows)[i] != FirstOccurrences(rows)[j]
    decreases |rows|
  {
    if rows != [] {
      var last := |rows| - 1;
      FirstOccurrencesAreTheRows(rows[..last]);
      assert forall r :: r in rows <==> r in rows[..last] || r == rows[last];
    }
  }

  lemma {:induction false} RepeatsAreFewer(rows: seq<Row>)
    ensures |FirstOccurrences(rows)| <= |WithoutRepeats(rows)|
    decreases |rows|
  {
    if rows != [] {
      var last := |rows| - 1;
      RepeatsAreFewer(rows[..last]);
      if last > 0 && rows[last] == rows[last - 1] { assert rows[..last][last - 1] in rows[..last]; }
    }
  }

  /** The two iterators emit the same rows iff equal rows stand together. */
  lemma {:induction false} OrderedIsDistinctIff(rows: seq<Row>)
    ensures WithoutRepeats(rows) == FirstOccurrences(rows) <==> Contiguous(rows)
    decreases |rows|
  {
    if rows != [] {
      var last := |rows| - 1;
      var init, row := rows[..last], rows[last];
      OrderedIsDistinctIff(init);
      RepeatsAreFewer(init);
      ContiguousAppend(rows);
      if last > 0 { assert init[last - 1] in init; }
      if row in init && (last == 0 || row != rows[last - 1]) {
        assert |WithoutRepeats(rows)| > |FirstOccurrences(rows)|;
      } else {
        var a, b := WithoutRepeats(init), FirstOccurrences(init);
        assert (a + [row])[..|a|] == a && (b + [row])[..|b|] == b;
        assert a + [] == a && b + [] == b;
      }
    }
  }

  lemma {:induction false} ContiguousAppend(rows: seq<Row>)
    requires rows != []
    ensures var last := |rows| - 1;
      Contiguous(rows) <==> Contiguous(rows[..last]) && (rows[last] in rows[..last] ==> rows[last] == rows[last - 1])
  {
    var last := |rows| - 1;
    var init := rows[..last];
    if Contiguous(rows) {
      forall i, j, k | 0 <= i <= j <= k < |init| && init[i] == init[k] ensures init[j] == init[i] {
        assert rows[i] == rows[k];
      }
      if rows[last] in init {
        var i :| 0 <= i < last && init[i] == rows[last];
        assert rows[i] == rows[last];
      }
    } else {
      var i, j, k :| 0 <= i <= j <= k < |rows| && rows[i] == rows[k] && rows[j] != rows[i];
      if k < last {
        assert init[i] == init[k] && init[j] != init[i];
      } else {
        assert init[i] == rows[last] && rows[last] in init;
        if rows[last] == rows[last - 1] { assert init[i] == init[last - 1] && init[j] != init[i]; }
      }
    }
  }

  // ----- the iterators

  /** `distinctIter`. */
  class DistinctIter {
    const rows: seq<Row>
    var pos: nat
    var seen: set<Row>

    constructor (rows: seq<Row>)
      ensures this.rows == rows && Valid() && Emitted() == []
    {
      this.rows := rows;
      pos, seen := 0, {};
    }

    ghost predicate Valid()
      reads this
    {
      pos <= |rows| && forall r :: r in seen <==> r in rows[..pos]
    }

    /** The rows emitted so far. */
    ghost function Emitted(): seq<Row>
      requires pos <= |rows|
      reads this
    {
      FirstOccurrences(rows[..pos])
    }

    method Next() returns (r: MemoryTable.Next<Row>)
      requires Valid()
      modifies this
      ensures Valid() && !r.Failed?
      ensures r.Item? ==> Emitted() == old(Emitted()) + [r.value]
      ensures r.Eof? ==> Emitted() == old(Emitted()) == FirstOccurrences(rows)
    {
      while pos < |rows|
        invariant Valid() && Emitted() == old(Emitted())
      {
        var row := rows[pos];
        assert rows[..pos + 1] == rows[..pos] + [row];
        assert rows[..pos + 1][..pos] == rows[..pos];
        pos := pos + 1;
        if row !in seen {
          seen := seen + {row};
          return Item(row);
        }
      }
      assert rows[..pos] == rows;
      return Eof;
    }
  }

  /** `orderedDistinctIter`. */
  class OrderedDistinctIter {
    const rows: seq<Row>
    var pos: nat
    var prevRow: Option<Row>

    constructor (rows: seq<Row>)
      ensures this.rows == rows && Valid() && Emitted() == []
    {
      this.rows := rows;
      pos, prevRow := 0, None;
    }

    /** The row remembered is the last one read: an equal one read later is not stored. */
    ghost predicate Valid()
      reads this
    {
      pos <= |rows| && prevRow == if pos == 0 then None else Some(rows[pos - 1])
    }

    ghost function Emitted(): seq<Row>
      requires pos <= |rows|
      reads this
    {
      WithoutRepeats(rows[..pos])
    }

    method Next() returns (r: MemoryTable.Next<Row>)
      requires Valid()
      modifies this
      ensures Valid() && !r.Failed?
      ensures r.Item? ==> Emitted() == old(Emitted()) + [r.value]
      ensures r.Eof? ==> Emitted() == old(Emitted()) == WithoutRepeats(rows)
    {
      while pos < |rows|
        invariant Valid() && Emitted() == old(Emitted())
      {
        var row := rows[pos];
        assert rows[..pos + 1][..pos] == rows[..pos];
        pos := pos + 1;
        if prevRow == Some(row) {
          continue;
        }
        prevRow := Some(row);
        return Item(row);
      }
      assert rows[..pos] == rows;
      return Eof;
    }
  }
}
