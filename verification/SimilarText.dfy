/** Suggestions for misspelled names: the edit distance computed with two rows of its matrix, and the search for the
    closest names. */
module SimilarText {

  const DISTANCE_SKIPPED := 3

  function Min(a: int, b: int): int {
    if a < b then a else b
  }

  function Max(a: int, b: int): int {
    if a < b then b else a
  }

  // ----- the distance

  /** Deleting and inserting a character costs one, replacing it two. */
  function Cost(s: string, t: string, i: nat, j: nat): nat
    requires 0 < i <= |s| && 0 < j <= |t|
  {
    if s[i - 1] == t[j - 1] then 0 else 2
  }

  /** The distance of the first `i` characters of `s` from the first `j` of `t`. */
  function Distance(s: string, t: string, i: nat, j: nat): nat
    requires i <= |s| && j <= |t|
  {
    if i == 0 then j
    else if j == 0 then i
    else Min(Distance(s, t, i - 1, j) + 1,
      Min(Distance(s, t, i - 1, j - 1) + Cost(s, t, i, j), Distance(s, t, i, j - 1) + 1))
  }

  /** The row holds the distances of the first `i` characters, up to a column. */
  ghost predicate RowOf(row: array<int>, s: string, t: string, i: nat, upTo: nat)
    requires row.Length == |t| + 1 && i <= |s| && upTo <= |t| + 1
    reads row
  {
    forall j | 0 <= j < upTo :: row[j] == Distance(s, t, i, j)
  }

  /** The inner loop: one row from the row before it. */
  method FillRow(source: string, target: string, i: nat, prev: array<int>, cur: array<int>)
    requires 0 < i <= |source| && prev != cur && prev.Length == cur.Length == |target| + 1
    requires RowOf(prev, source, target, i - 1, |target| + 1)
    modifies cur
    ensures RowOf(cur, source, target, i, |target| + 1)
  {
    cur[0] := i;
    for j := 1 to |target| + 1
      invariant RowOf(cur, source, target, i, j)
    {
      var delCost := prev[j] + 1;
      var matchSubCost := prev[j - 1];
      if source[i - 1] != target[j - 1] {
        matchSubCost := matchSubCost + 2;
      }
      var insCost := cur[j - 1] + 1;
      cur[j] := Min(delCost, Min(matchSubCost, insCost));
    }
  }

  /** `distanceForStrings`: two rows are enough. */
  method DistanceForStrings(source: string, target: string) returns (d: int)
    ensures d == Distance(source, target, |source|, |target|)
  {
    var height, width := |source| + 1, |target| + 1;
    var even, odd := new int[width], new int[width];
    for j := 0 to width
      invariant RowOf(even, source, target, 0, j)
    {
      even[j] := j;
    }
    for i := 1 to height
      invariant RowOf(if i % 2 == 0 then odd else even, source, target, i - 1, width)
    {
      if i % 2 == 0 {
        FillRow(source, target, i, odd, even);
      } else {
        FillRow(source, target, i, even, odd);
      }
    }
    return if (height - 1) % 2 == 0 then even[width - 1] else odd[width - 1];
  }

  // ----- what the distance is

  lemma {:induction false} LengthsBound(s: string, t: string, i: nat, j: nat)
    requires i <= |s| && j <= |t|
    ensures i - j <= Distance(s, t, i, j) <= i + j && j - i <= Distance(s, t, i, j)
    decreases i + j
  {
    if i > 0 && j > 0 {
      LengthsBound(s, t, i - 1, j);
      LengthsBound(s, t, i - 1, j - 1);
      LengthsBound(s, t, i, j - 1);
    }
  }

  lemma {:induction false} Symmetric(s: string, t: string, i: nat, j: nat)
    requires i <= |s| && j <= |t|
    ensures Distance(s, t, i, j) == Distance(t, s, j, i)
    decreases i + j
  {
    if i > 0 && j > 0 {
      Symmetric(s, t, i - 1, j);
      Symmetric(s, t, i - 1, j - 1);
      Symmetric(s, t, i, j - 1);
    }
  }

  lemma {:induction false} PrefixesEqual(s: string, t: string, i: nat, j: nat)
    requires 0 < i <= |s| && 0 < j <= |t|
    ensures s[..i] == t[..j] <==> s[i - 1] == t[j - 1] && s[..i - 1] == t[..j - 1]
  {
    assert s[..i] == s[..i - 1] + [s[i - 1]] && t[..j] == t[..j - 1] + [t[j - 1]];
    if s[..i] == t[..j] {
      assert i == |s[..i]| == |t[..j]| == j;
      assert s[..i][i - 1] == t[..j][j - 1] && s[..i - 1] == s[..i][..i - 1] && t[..j - 1] == t[..j][..j - 1];
    }
  }

  /** Only equal strings have distance zero. */
  lemma {:induction false} ZeroIffEqual(s: string, t: string, i: nat, j: nat)
    requires i <= |s| && j <= |t|
    ensures Distance(s, t, i, j) == 0 <==> s[..i] == t[..j]
    decreases i + j
  {
    if i == 0 || j == 0 {
      assert s[..i] == t[..j] ==> |s[..i]| == |t[..j]|;
    } else {
      ZeroIffEqual(s, t, i - 1, j - 1);
      PrefixesEqual(s, t, i, j);
    }
  }

  /** What the triangle inequality needs to know about a distance: it grows by at most the cost of a step, one of the
      steps reaches it, and the lengths bound it. */
  predicate EditLike(d: (nat, nat) -> int, cost: (nat, nat) -> int, i: nat, j: nat) {
    && (i > 0 ==> d(i, j) <= d(i - 1, j) + 1)
    && (j > 0 ==> d(i, j) <= d(i, j - 1) + 1)
    && (i > 0 && j > 0 ==> d(i, j) <= d(i - 1, j - 1) + cost(i, j))
    && (i > 0 && j > 0 ==>
      d(i, j) == d(i - 1, j) + 1 || d(i, j) == d(i, j - 1) + 1 || d(i, j) == d(i - 1, j - 1) + cost(i, j))
    && i - j <= d(i, j) <= i + j && j - i <= d(i, j)
    && (i > 0 && j > 0 ==> cost(i, j) == 0 || cost(i, j) == 2)
  }

  predicate Detour(ab: (nat, nat) -> int, bc: (nat, nat) -> int, ac: (nat, nat) -> int, i: nat, j: nat, k: nat) {
    ac(i, k) <= ab(i, j) + bc(j, k)
  }

  lemma {:induction false} DetoursAreLonger(ab: (nat, nat) -> int, cab: (nat, nat) -> int, bc: (nat, nat) -> int,
                                            cbc: (nat, nat) -> int,
                                            ac: (nat, nat) -> int, cac: (nat, nat) -> int, i: nat, j: nat, k: nat)
    requires forall x: nat, y: nat | x <= i && y <= j :: EditLike(ab, cab, x, y)
    requires forall x: nat, y: nat | x <= j && y <= k :: EditLike(bc, cbc, x, y)
    requires forall x: nat, y: nat | x <= i && y <= k :: EditLike(ac, cac, x, y)
    requires forall x: nat, y: nat, z: nat | 0 < x <= i && 0 < y <= j && 0 < z <= k :: Detour(cab, cbc, cac, x, y, z)
    ensures Detour(ab, bc, ac, i, j, k)
    decreases i + j + k
  {
    assert EditLike(ab, cab, i, j) && EditLike(bc, cbc, j, k) && EditLike(ac, cac, i, k);
    if i > 0 && j > 0 && k > 0 {
      assert Detour(cab, cbc, cac, i, j, k);
      if ab(i, j) == ab(i - 1, j) + 1 {
        DetoursAreLonger(ab, cab, bc, cbc, ac, cac, i - 1, j, k);
      } else if bc(j, k) == bc(j, k - 1) + 1 {
        DetoursAreLonger(ab, cab, bc, cbc, ac, cac, i, j, k - 1);
      } else if ab(i, j) == ab(i, j - 1) + 1 && bc(j, k) == bc(j - 1, k) + 1 {
        DetoursAreLonger(ab, cab, bc, cbc, ac, cac, i, j - 1, k);
      } else if ab(i, j) == ab(i, j - 1) + 1 {
        DetoursAreLonger(ab, cab, bc, cbc, ac, cac, i, j - 1, k - 1);
      } else if bc(j, k) == bc(j - 1, k) + 1 {
        DetoursAreLonger(ab, cab, bc, cbc, ac, cac, i - 1, j - 1, k);
      } else {
        DetoursAreLonger(ab, cab, bc, cbc, ac, cac, i - 1, j - 1, k - 1);
      }
    }
  }

  ghost function DistanceMap(s: string, t: string): (f: (nat, nat) -> int)
    ensures forall i: nat, j: nat | i <= |s| && j <= |t| :: f(i, j) == Distance(s, t, i, j)
  {
    (i: nat, j: nat) => if i <= |s| && j <= |t| then Distance(s, t, i, j) else 0
  }

  ghost function CostMap(s: string, t: string): (f: (nat, nat) -> int)
    ensures forall i: nat, j: nat | 0 < i <= |s| && 0 < j <= |t| :: f(i, j) == Cost(s, t, i, j)
  {
    (i: nat, j: nat) => if 0 < i <= |s| && 0 < j <= |t| then Cost(s, t, i, j) else 0
  }

  lemma {:induction false} DistanceIsEditLike(s: string, t: string, i: nat, j: nat)
    requires i <= |s| && j <= |t|
    ensures EditLike(DistanceMap(s, t), CostMap(s, t), i, j)
  {
    LengthsBound(s, t, i, j);
  }

  /** The triangle inequality. */
  lemma {:induction false} Triangle(a: string, b: string, c: string)
    ensures Distance(a, c, |a|, |c|) <= Distance(a, b, |a|, |b|) + Distance(b, c, |b|, |c|)
  {
    forall i: nat, j: nat | i <= |a| && j <= |b|
      ensures EditLike(DistanceMap(a, b), CostMap(a, b), i, j) { DistanceIsEditLike(a, b, i, j); }
    forall i: nat, j: nat | i <= |b| && j <= |c|
      ensures EditLike(DistanceMap(b, c), CostMap(b, c), i, j) { DistanceIsEditLike(b, c, i, j); }
    forall i: nat, j: nat | i <= |a| && j <= |c|
      ensures EditLike(DistanceMap(a, c), CostMap(a, c), i, j) { DistanceIsEditLike(a, c, i, j); }
    DetoursAreLonger(DistanceMap(a, b), CostMap(a, b), DistanceMap(b, c), CostMap(b, c), DistanceMap(a, c),
      CostMap(a, c), |a|, |b|, |c|);
    assert Detour(DistanceMap(a, b), DistanceMap(b, c), DistanceMap(a, c), |a|, |b|, |c|);
  }

  // ----- longest common subsequences

  function Lcs(s: string, t: string, i: nat, j: nat): nat
    requires i <= |s| && j <= |t|
  {
    if i == 0 || j == 0 then 0
    else if s[i - 1] == t[j - 1] then Lcs(s, t, i - 1, j - 1) + 1
    else Max(Lcs(s, t, i - 1, j), Lcs(s, t, i, j - 1))
  }

  lemma {:induction false} LcsGrowsSlowly(s: string, t: string, i: nat, j: nat)
    requires i <= |s| && j <= |t|
    ensures i > 0 ==> Lcs(s, t, i - 1, j) <= Lcs(s, t, i, j) <= Lcs(s, t, i - 1, j) + 1
    ensures j > 0 ==> Lcs(s, t, i, j - 1) <= Lcs(s, t, i, j) <= Lcs(s, t, i, j - 1) + 1
    decreases i + j
  {
    if i > 0 { LcsGrowsSlowly(s, t, i - 1, j); }
    if j > 0 { LcsGrowsSlowly(s, t, i, j - 1); }
  }

  /** What there is to know about the lengths of longest common subsequences. */
  predicate LcsLike(l: (nat, nat) -> int, cost: (nat, nat) -> int, i: nat, j: nat) {
    && (i == 0 || j == 0 ==> l(i, j) == 0)
    && (i > 0 && j > 0 ==> l(i, j) == if cost(i, j) == 0 then l(i - 1, j - 1) + 1 else Max(l(i - 1, j), l(i, j - 1)))
    && (i > 0 && j > 0 ==>
      l(i - 1, j - 1) <= l(i - 1, j) <= l(i - 1, j - 1) + 1 && l(i - 1, j - 1) <= l(i, j - 1) <= l(i - 1, j - 1) + 1)
  }

  lemma {:induction false} DistanceCountsTheRest(d: (nat, nat) -> int, cost: (nat, nat) -> int, l: (nat, nat) -> int,
                                                 i: nat, j: nat)
    requires forall x: nat, y: nat | x <= i && y <= j :: EditLike(d, cost, x, y) && LcsLike(l, cost, x, y)
    ensures d(i, j) == i + j - 2 * l(i, j)
    decreases i + j
  {
    assert EditLike(d, cost, i, j) && LcsLike(l, cost, i, j);
    if i > 0 && j > 0 {
      DistanceCountsTheRest(d, cost, l, i - 1, j);
      DistanceCountsTheRest(d, cost, l, i - 1, j - 1);
      DistanceCountsTheRest(d, cost, l, i, j - 1);
    }
  }

  ghost function LcsMap(s: string, t: string): (f: (nat, nat) -> int)
    ensures forall i: nat, j: nat | i <= |s| && j <= |t| :: f(i, j) == Lcs(s, t, i, j)
  {
    (i: nat, j: nat) => if i <= |s| && j <= |t| then Lcs(s, t, i, j) else 0
  }

  lemma {:induction false} LcsIsLcsLike(s: string, t: string, i: nat, j: nat)
    requires i <= |s| && j <= |t|
    ensures LcsLike(LcsMap(s, t), CostMap(s, t), i, j)
  {
    if i > 0 && j > 0 { LcsNeighbours(s, t, i, j); }
  }

  /** The distance counts the characters that are not in a longest common subsequence. */
  lemma {:induction false} DistanceIsLcs(s: string, t: string)
    ensures Distance(s, t, |s|, |t|) == |s| + |t| - 2 * Lcs(s, t, |s|, |t|)
  {
    forall i: nat, j: nat | i <= |s| && j <= |t|
      ensures EditLike(DistanceMap(s, t), CostMap(s, t), i, j) && LcsLike(LcsMap(s, t), CostMap(s, t), i, j)
    {
      DistanceIsEditLike(s, t, i, j);
      LcsIsLcsLike(s, t, i, j);
    }
    DistanceCountsTheRest(DistanceMap(s, t), CostMap(s, t), LcsMap(s, t), |s|, |t|);
  }

  lemma {:induction false} LcsNeighbours(s: string, t: string, i: nat, j: nat)
    requires 0 < i <= |s| && 0 < j <= |t|
    ensures var y := Lcs(s, t, i - 1, j - 1); y <= Lcs(s, t, i - 1, j) <= y + 1 && y <= Lcs(s, t, i, j - 1) <= y + 1
  {
    LcsGrowsSlowly(s, t, i - 1, j);
    LcsGrowsSlowly(s, t, i, j - 1);
  }

  /** The characters of `u` occur in `s` in this order. */
  predicate Subsequence(u: string, s: string) {
    if u == "" then true
    else if s == "" then false
    else
      var (m, n) := (|u| - 1, |s| - 1);
      (u[m] == s[n] && Subsequence(u[..m], s[..n])) || Subsequence(u, s[..n])
  }

  predicate Common(u: string, s: string, t: string) {
    Subsequence(u, s) && Subsequence(u, t)
  }

  lemma {:induction false} Widen(u: string, s: string)
    requires s != "" && Subsequence(u, s[..|s| - 1])
    ensures Subsequence(u, s)
  {
  }

  /** No common subsequence is longer than `Lcs`. */
  lemma {:induction false} LcsIsBound(u: string, s: string, t: string, i: nat, j: nat)
    requires i <= |s| && j <= |t| && Common(u, s[..i], t[..j])
    ensures |u| <= Lcs(s, t, i, j)
    decreases i + j
  {
    if u != "" {
      assert i > 0 && j > 0;
      var m := |u| - 1;
      assert s[..i][..i - 1] == s[..i - 1] && t[..j][..j - 1] == t[..j - 1];
      LcsGrowsSlowly(s, t, i, j);
      LcsGrowsSlowly(s, t, i - 1, j);
      if Subsequence(u, s[..i - 1]) {
        LcsIsBound(u, s, t, i - 1, j);
      } else if Subsequence(u, t[..j - 1]) {
        LcsIsBound(u, s, t, i, j - 1);
      } else {
        LcsIsBound(u[..m], s, t, i - 1, j - 1);
      }
    }
  }

  /** Some common subsequence is as long as `Lcs`. */
  lemma {:induction false} LcsIsReached(s: string, t: string, i: nat, j: nat) returns (u: string)
    requires i <= |s| && j <= |t|
    ensures Common(u, s[..i], t[..j]) && |u| == Lcs(s, t, i, j)
    decreases i + j
  {
    if i == 0 || j == 0 {
      u := "";
    } else {
      assert s[..i][..i - 1] == s[..i - 1] && t[..j][..j - 1] == t[..j - 1];
      if s[i - 1] == t[j - 1] {
        var v := LcsIsReached(s, t, i - 1, j - 1);
        u := v + [s[i - 1]];
        assert u[..|v|] == v;
      } else if Lcs(s, t, i - 1, j) >= Lcs(s, t, i, j - 1) {
        u := LcsIsReached(s, t, i - 1, j);
        Widen(u, s[..i]);
      } else {
        u := LcsIsReached(s, t, i, j - 1);
        Widen(u, t[..j]);
      }
    }
  }

  // ----- the search

  function DistanceTo(src: string, name: string): nat {
    Distance(name, src, |name|, |src|)
  }

  /** The names at a distance, in order. */
  function NamesAt(names: seq<string>, src: string, d: int): seq<string> {
    if names == [] then []
    else
      var last := |names| - 1;
      NamesAt(names[..last], src, d) + (if DistanceTo(src, names[last]) == d then [names[last]] else [])
  }

  /** `d` is the least distance of a name, or -1 if all names are too far away. */
  predicate IsLeast(names: seq<string>, src: string, d: int) {
    if d == -1 then forall n | n in names :: DistanceTo(src, n) >= DISTANCE_SKIPPED
    else
      && 0 <= d < DISTANCE_SKIPPED
      && (exists n | n in names :: DistanceTo(src, n) == d)
      && forall n | n in names :: DistanceTo(src, n) >= d
  }

  /** The map from distances to names holds the names that are close enough. */
  ghost predicate Sorted(m: map<int, seq<string>>, names: seq<string>, src: string) {
    forall d :: (if d in m then m[d] else []) == if 0 <= d < DISTANCE_SKIPPED then NamesAt(names, src, d) else []
  }

  lemma {:induction false} NamesAppend(names: seq<string>, src: string, name: string, d: int)
    ensures NamesAt(names + [name], src, d) ==
      NamesAt(names, src, d) + (if DistanceTo(src, name) == d then [name] else [])
  {
    assert (names + [name])[..|names|] == names;
  }

  lemma {:induction false} LeastAfter(names: seq<string>, src: string, name: string, least: int)
    requires IsLeast(names, src, least)
    ensures var d := DistanceTo(src, name);
      IsLeast(names + [name], src, if d < DISTANCE_SKIPPED && (least == -1 || d < least) then d else least)
  {
    assert forall n :: n in names + [name] <==> n in names || n == name;
    assert name in names + [name];
  }

  lemma {:induction false} SortedAfter(names: seq<string>, src: string, name: string, m: map<int, seq<string>>)
    requires Sorted(m, names, src)
    ensures var d := DistanceTo(src, name);
      if d >= DISTANCE_SKIPPED then Sorted(m, names + [name], src)
      else Sorted(m[d := (if d in m then m[d] else []) + [name]], names + [name], src)
  {
    forall d
      ensures NamesAt(names + [name], src, d) ==
        NamesAt(names, src, d) + (if DistanceTo(src, name) == d then [name] else []) {
      NamesAppend(names, src, name, d);
    }
  }

  /** The search has gone through these names. */
  ghost predicate Searched(names: seq<string>, src: string, least: int, m: map<int, seq<string>>) {
    IsLeast(names, src, least) && Sorted(m, names, src)
  }

  lemma {:induction false} SearchFurther(names: seq<string>, src: string, i: nat, least: int, m: map<int, seq<string>>)
    requires i < |names| && Searched(names[..i], src, least, m)
    ensures var d := DistanceTo(src, names[i]);
      if d >= DISTANCE_SKIPPED then Searched(names[..i + 1], src, least, m)
      else Searched(names[..i + 1], src, if least == -1 || d < least then d else least,
                    m[d := (if d in m then m[d] else []) + [names[i]]])
  {
    assert names[..i + 1] == names[..i] + [names[i]];
    LeastAfter(names[..i], src, names[i], least);
    SortedAfter(names[..i], src, names[i], m);
  }

  /** The names under the least distance; an empty map means that there are none. */
  lemma {:induction false} SearchedAll(names: seq<string>, src: string, least: int, m: map<int, seq<string>>)
    requires Searched(names[..|names|], src, least, m)
    ensures IsLeast(names, src, least)
    ensures (if least in m then m[least] else []) == if least == -1 then [] else NamesAt(names, src, least)
  {
    assert names[..|names|] == names;
  }

  /** `Find`: the names at the least distance from the given one, in their order; nothing if the name is empty or no
      name is closer than three. */
  method Find(names: seq<string>, src: string) returns (suggestions: seq<string>, ghost least: int)
    ensures src == "" ==> suggestions == []
    ensures src != "" ==>
      IsLeast(names, src, least) && suggestions == (if least == -1 then [] else NamesAt(names, src, least))
  {
    if |src| == 0 {
      return [], -1;
    }
    var minDistance := -1;
    var matchMap: map<int, seq<string>> := map[];
    for i := 0 to |names|
      invariant Searched(names[..i], src, minDistance, matchMap)
    {
      var dist := DistanceForStrings(names[i], src);
      SearchFurther(names, src, i, minDistance, matchMap);
      if dist >= DISTANCE_SKIPPED {
        continue;
      }
      if minDistance == -1 || dist < minDistance {
        minDistance := dist;
      }
      matchMap := matchMap[dist := (if dist in matchMap then matchMap[dist] else []) + [names[i]]];
    }
    SearchedAll(names, src, minDistance, matchMap);
    least := minDistance;
    if |matchMap| == 0 {
      return [], least;
    }
    return if minDistance in matchMap then matchMap[minDistance] else [], least;
  }
}
