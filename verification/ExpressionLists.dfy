/** Comparing lists of expressions by their strings: `exprListsMatch` and `exprListsEqual`. */
module ExpressionLists {

  /** The elements whose flag has the given value; `T` is the string of an expression. */
  function Flagged<T(==)>(b: seq<T>, flags: seq<bool>, f: bool): multiset<T>
    requires |b| == |flags|
  {
    if b == [] then multiset{}
    else
      var last := |b| - 1;
      Flagged(b[..last], flags[..last], f) + (if flags[last] == f then multiset{b[last]} else multiset{})
  }

  lemma {:induction false} FlagsPartition<T>(b: seq<T>, flags: seq<bool>)
    requires |b| == |flags|
    ensures Flagged(b, flags, true) + Flagged(b, flags, false) == multiset(b)
    decreases |b|
  {
    if b != [] {
      var last := |b| - 1;
      FlagsPartition(b[..last], flags[..last]);
      assert b == b[..last] + [b[last]];
    }
  }

  lemma {:induction false} FlagMoves<T>(b: seq<T>, flags: seq<bool>, j: nat)
    requires |b| == |flags| && j < |b| && !flags[j]
    ensures Flagged(b, flags[j := true], true) == Flagged(b, flags, true) + multiset{b[j]}
    decreases |b|
  {
    var last := |b| - 1;
    var flags' := flags[j := true];
    var before := Flagged(b[..last], flags[..last], true);
    var after := Flagged(b[..last], flags'[..last], true);
    if j == last {
      assert flags'[..last] == flags[..last];
      assert Flagged(b, flags', true) == before + multiset{b[j]};
    } else {
      assert flags'[..last] == flags[..last][j := true];
      FlagMoves(b[..last], flags[..last], j);
      var own := if flags[last] then multiset{b[last]} else multiset{};
      assert Flagged(b, flags, true) == before + own && Flagged(b, flags', true) == after + own;
      OneElsewhere(before, own, b[j]);
    }
  }

  lemma {:induction false} OneElsewhere<T>(m: multiset<T>, own: multiset<T>, x: T)
    ensures m + multiset{x} + own == m + own + multiset{x}
  {
  }

  lemma {:induction false} FlaggedIsAt<T>(b: seq<T>, flags: seq<bool>, f: bool, x: T)
    requires |b| == |flags| && x in Flagged(b, flags, f)
    ensures exists j | 0 <= j < |b| :: b[j] == x && flags[j] == f
    decreases |b|
  {
    var last := |b| - 1;
    if !(b[last] == x && flags[last] == f) {
      FlaggedIsAt(b[..last], flags[..last], f, x);
    }
  }

  lemma {:induction false} NothingFlagged<T>(b: seq<T>, flags: seq<bool>)
    requires |b| == |flags| && forall j | 0 <= j < |b| :: !flags[j]
    ensures Flagged(b, flags, true) == multiset{}
    decreases |b|
  {
    if b != [] {
      NothingFlagged(b[..|b| - 1], flags[..|b| - 1]);
    }
  }

  /** An element without an unvisited partner makes the lists differ. */
  lemma {:induction false} NoPartner<T>(a: seq<T>, i: nat, b: seq<T>, flags: seq<bool>)
    requires |b| == |flags| && i < |a|
    requires Flagged(b, flags, true) == multiset(a[..i])
    requires forall j | 0 <= j < |b| && !flags[j] :: b[j] != a[i]
    ensures !(multiset(a) <= multiset(b))
  {
    FlagsPartition(b, flags);
    if a[i] in Flagged(b, flags, false) {
      FlaggedIsAt(b, flags, false, a[i]);
    }
    assert a == a[..i] + [a[i]] + a[i + 1..];
    assert multiset(a)[a[i]] >= multiset(a[..i])[a[i]] + 1;
  }

  /** The visited elements of `b` are the partners of the first `i` elements of `a`. */
  ghost predicate Paired<T>(a: seq<T>, i: nat, b: seq<T>, flags: seq<bool>) {
    i <= |a| && |flags| == |b| && Flagged(b, flags, true) == multiset(a[..i])
  }

  lemma {:induction false} PairOneMore<T>(a: seq<T>, i: nat, b: seq<T>, flags: seq<bool>, j: nat)
    requires Paired(a, i, b, flags) && i < |a| && j < |b| && !flags[j] && b[j] == a[i]
    ensures Paired(a, i + 1, b, flags[j := true])
  {
    FlagMoves(b, flags, j);
    assert a[..i + 1] == a[..i] + [a[i]];
  }

  lemma {:induction false} AllPaired<T>(a: seq<T>, b: seq<T>, flags: seq<bool>)
    requires Paired(a, |a|, b, flags)
    ensures multiset(a) <= multiset(b)
  {
    assert a[..|a|] == a;
    FlagsPartition(b, flags);
  }

  /** The inner loop: the first unvisited element equal to `x`, or the length of the list. */
  method FindPartner<T(==)>(x: T, b: seq<T>, visited: array<bool>) returns (j: nat)
    requires visited.Length == |b|
    ensures j <= |b|
    ensures j < |b| ==> !visited[j] && b[j] == x
    ensures forall k | 0 <= k < j && !visited[k] :: b[k] != x
  {
    j := 0;
    while j < |b| && (visited[j] || b[j] != x)
      invariant j <= |b|
      invariant forall k | 0 <= k < j && !visited[k] :: b[k] != x
    {
      j := j + 1;
    }
  }

  /** `exprListsMatch`: greedily pairs every element of `a` with an unvisited equal element of `b`.  It answers
      true iff `a` is contained in `b`, counting repetitions. */
  method Match<T(==)>(a: seq<T>, b: seq<T>) returns (r: bool)
    ensures r <==> multiset(a) <= multiset(b)
  {
    var visited := new bool[|b|](_ => false);
    NothingFlagged(b, visited[..]);
    for i := 0 to |a|
      invariant Paired(a, i, b, visited[..])
    {
      var j := FindPartner(a[i], b, visited);
      ghost var flags := visited[..];
      if j == |b| {
        NoPartner(a, i, b, flags);
        return false;
      }
      visited[j] := true;
      assert visited[..] == flags[j := true];
      PairOneMore(a, i, b, flags, j);
    }
    AllPaired(a, b, visited[..]);
    return true;
  }

  /** `exprListsEqual`: one list is a permutation of the other. */
  method Equal<T(==)>(a: seq<T>, b: seq<T>) returns (r: bool)
    ensures r <==> multiset(a) == multiset(b)
  {
    if |a| != |b| {
      assert |multiset(a)| == |a| && |multiset(b)| == |b|;
      return false;
    }
    r := Match(a, b);
    if r {
      SameSize(multiset(a), multiset(b));
    }
  }

  lemma {:induction false} SameSize<T>(a: multiset<T>, b: multiset<T>)
    requires a <= b && |a| == |b|
    ensures a == b
  {
    assert b == a + (b - a);
    assert |b - a| == 0;
  }
}
