/** Indexes on several columns: when equalities on all columns of such an index are answered by one lookup for the key
    of their constants. */
module WideIndexes {
  import opened Values
  import opened Expressions
  import opened Lookups
  import opened IndexPlanning
  import opened IndexSoundness

  /** An index on several expressions that are all among the columns. */
  predicate Candidate(ix: Index, cols: seq<Expr>) {
    1 < |ix.exprs| <= |cols| && Matches(ix, cols)
  }

  /** The chosen index is a longest candidate, and the first of them; without a candidate there is none. */
  lemma {:induction false} WidestIsLongest(scan: seq<Index>, cols: seq<Expr>)
    ensures var r := Widest(scan, cols);
      && (r.None? ==> forall ix | ix in scan :: !Candidate(ix, cols))
      && (r.Some? ==> r.value in scan && Candidate(r.value, cols))
      && (r.Some? ==> forall ix | ix in scan && Candidate(ix, cols) :: |ix.exprs| <= |r.value.exprs|)
      && (r.Some? ==> exists i | 0 <= i < |scan| :: scan[i] == r.value && AllShorter(scan[..i], cols, |r.value.exprs|))
  {
    if scan != [] {
      var last := |scan| - 1;
      var before := scan[..last];
      WidestIsLongest(before, cols);
      assert forall ix :: ix in scan <==> ix in before || ix == scan[last];
      var b, r := Widest(before, cols), Widest(scan, cols);
      if r.Some? && r == b {
        var i :| 0 <= i < |before| && before[i] == b.value && AllShorter(before[..i], cols, |b.value.exprs|);
        assert scan[..i] == before[..i] && scan[i] == before[i];
      } else if r.Some? {
        assert scan[last] == r.value && AllShorter(scan[..last], cols, |r.value.exprs|);
      }
    }
  }

  predicate AllShorter(scan: seq<Index>, cols: seq<Expr>, n: nat) {
    forall ix | ix in scan && Candidate(ix, cols) :: |ix.exprs| < n
  }

  // ----- the conjuncts of a group

  /** The conjunct is an equality of a column of the table, the one the expression names, with a constant. */
  predicate EqualityOn(c: Expr, t: string, x: Expr) {
    && c.Cmp? && c.op == Eq
    && ((IsEvaluable(c.r) && ColumnOf(c.l, t, x)) || (IsEvaluable(c.l) && ColumnOf(c.r, t, x)))
  }

  predicate ColumnOf(e: Expr, t: string, x: Expr) {
    e.Field? && e.table == t && Erase(e) == Erase(x)
  }

  /** The constant of such an equality. */
  function EqualTo(c: Expr): Value
    requires c.Cmp? && (IsEvaluable(c.r) || IsEvaluable(c.l))
  {
    Constant(if IsEvaluable(c.r) then c.r else c.l)
  }

  lemma {:induction false} EqualityIsInGroup(c: Expr, t: string, x: Expr)
    ensures EqualityOn(c, t, x) <==>
      InGroup(c, t, Comparison(Eq)) && Erase(ExtractColumn(c).value.col) == Erase(x)
    ensures EqualityOn(c, t, x) ==> ExtractColumn(c).value.lower == EqualTo(c)
  {
  }

  lemma {:induction false} GroupIsAll(cs: seq<Expr>, t: string, kind: Kind)
    ensures forall p: nat | p < |cs| && InGroup(cs[p], t, kind) :: p in Group(cs, t, kind)
  {
    if cs != [] {
      GroupIsAll(cs[..|cs| - 1], t, kind);
    }
  }

  predicate Ascending(g: seq<nat>) {
    forall i, j | 0 <= i < j < |g| :: g[i] < g[j]
  }

  lemma {:induction false} GroupAscends(cs: seq<Expr>, t: string, kind: Kind)
    ensures Ascending(Group(cs, t, kind))
  {
    if cs != [] {
      var last := |cs| - 1;
      GroupAscends(cs[..last], t, kind);
      var g := Group(cs[..last], t, kind);
      forall i | 0 <= i < |g| ensures g[i] < last { assert g[i] in g; }
      assert Ascending(g + [last]);
    }
  }

  /** The first conjunct that is such an equality on this column. */
  predicate FirstOn(cs: seq<Expr>, t: string, x: Expr, p: nat) {
    p < |cs| && EqualityOn(cs[p], t, x) && forall q | 0 <= q < p :: !EqualityOn(cs[q], t, x)
  }

  predicate Equated(cs: seq<Expr>, t: string, x: Expr) {
    exists c | c in cs :: EqualityOn(c, t, x)
  }

  predicate AllEquated(cs: seq<Expr>, t: string, ix: Index) {
    forall x | x in ix.exprs :: Equated(cs, t, x)
  }

  predicate NoRepeats(es: seq<Expr>) {
    forall i, j | 0 <= i < j < |es| :: es[i] != es[j]
  }

  /** The index has several columns, the filter equates all of them with constants, and the planner looks no further:
      every other such index has fewer columns, and no index before it in the registry is over some of its columns. */
  predicate Preferred(cat: Catalog, cs: seq<Expr>, t: string, ix: Index) {
    && ix in cat.scan && ix.mergeable && |ix.exprs| > 1 && NoRepeats(Erased(ix.exprs)) && AllEquated(cs, t, ix)
    && (forall o | o in cat.scan && o != ix && |o.exprs| > 1 && AllEquated(cs, t, o) :: |o.exprs| < |ix.exprs|)
    && IndexByExpression(cat.order, ix.exprs) == Some(ix)
  }

  // ----- the key

  lemma {:induction false} DistinctCounts(es: seq<Expr>, x: Expr)
    requires NoRepeats(es)
    ensures multiset(es)[x] <= 1
  {
    if es != [] {
      DistinctCounts(es[1..], x);
      assert es == [es[0]] + es[1..];
      if multiset(es[1..])[x] == 1 {
        assert x in es[1..];
        assert es[0] != x;
      }
    }
  }

  /** Columns equated with constants are among the columns of the group, and the other way round. */
  lemma {:induction false} EquatedIsGrouped(cs: seq<Expr>, t: string, x: Expr)
    ensures Equated(cs, t, x) <==> Erase(x) in Erased(GroupColumns(cs, Group(cs, t, Comparison(Eq))))
  {
    var g := Group(cs, t, Comparison(Eq));
    var cols := GroupColumns(cs, g);
    GroupIsAll(cs, t, Comparison(Eq));
    if Equated(cs, t, x) {
      var c :| c in cs && EqualityOn(c, t, x);
      var p :| 0 <= p < |cs| && cs[p] == c;
      EqualityIsInGroup(c, t, x);
      assert p in g;
      var i :| 0 <= i < |g| && g[i] == p;
      assert Erased(cols)[i] == Erase(x);
    }
    if Erase(x) in Erased(cols) {
      var i :| 0 <= i < |cols| && Erased(cols)[i] == Erase(x);
      assert g[i] in g;
      EqualityIsInGroup(cs[g[i]], t, x);
      assert cs[g[i]] in cs;
    }
  }

  lemma {:induction false} EquatedMatches(cs: seq<Expr>, t: string, ix: Index)
    requires NoRepeats(Erased(ix.exprs)) && AllEquated(cs, t, ix)
    ensures var cols := GroupColumns(cs, Group(cs, t, Comparison(Eq)));
      Matches(ix, cols) && |ix.exprs| <= |cols|
  {
    var cols := GroupColumns(cs, Group(cs, t, Comparison(Eq)));
    var a, b := Erased(ix.exprs), Erased(cols);
    forall x ensures multiset(a)[x] <= multiset(b)[x] {
      DistinctCounts(a, x);
      if x in a {
        var i :| 0 <= i < |a| && a[i] == x;
        assert ix.exprs[i] in ix.exprs;
        EquatedIsGrouped(cs, t, ix.exprs[i]);
        assert x in multiset(b);
      }
    }
    assert multiset(b) == multiset(a) + (multiset(b) - multiset(a));
  }

  lemma {:induction false} MatchesAreEquated(cs: seq<Expr>, t: string, ix: Index)
    requires Matches(ix, GroupColumns(cs, Group(cs, t, Comparison(Eq))))
    ensures AllEquated(cs, t, ix)
  {
    forall x | x in ix.exprs ensures Equated(cs, t, x) {
      var i :| 0 <= i < |ix.exprs| && ix.exprs[i] == x;
      assert Erased(ix.exprs)[i] in multiset(Erased(ix.exprs));
      EquatedIsGrouped(cs, t, x);
    }
  }

  lemma {:induction false} PreferredIsWidest(cat: Catalog, cs: seq<Expr>, t: string, ix: Index)
    requires Preferred(cat, cs, t, ix)
    ensures Widest(cat.scan, GroupColumns(cs, Group(cs, t, Comparison(Eq)))) == Some(ix)
  {
    var cols := GroupColumns(cs, Group(cs, t, Comparison(Eq)));
    WidestIsLongest(cat.scan, cols);
    EquatedMatches(cs, t, ix);
    assert Candidate(ix, cols);
    var o := Widest(cat.scan, cols).value;
    if o != ix { MatchesAreEquated(cs, t, o); }
  }

  /** The conjunct that provides a column of the key is the first of the group on that column. */
  lemma {:induction false} FindColumnIsFirst(cs: seq<Expr>, g: seq<nat>, x: Expr)
    requires forall p | p in g :: p < |cs| && ExtractColumn(cs[p]).Some?
    requires Ascending(g)
    ensures var r := FindColumn(cs, g, x);
      r.Some? ==> forall q | q in g && q < r.value :: Erase(ExtractColumn(cs[q]).value.col) != Erase(x)
  {
    if g != [] {
      assert forall p | p in g[1..] :: p in g;
      FindColumnIsFirst(cs, g[1..], x);
      assert forall q :: q in g <==> q == g[0] || q in g[1..];
    }
  }

  lemma {:induction false} EquatedHasFirst(cs: seq<Expr>, t: string, x: Expr)
    requires Equated(cs, t, x)
    ensures var r := FindColumn(cs, Group(cs, t, Comparison(Eq)), x); r.Some? && FirstOn(cs, t, x, r.value)
  {
    var g := Group(cs, t, Comparison(Eq));
    GroupIsAll(cs, t, Comparison(Eq));
    GroupAscends(cs, t, Comparison(Eq));
    FindColumnIsFirst(cs, g, x);
    var c :| c in cs && EqualityOn(c, t, x);
    var p :| 0 <= p < |cs| && cs[p] == c;
    EqualityIsInGroup(c, t, x);
    assert p in g;
    var r := FindColumn(cs, g, x).value;
    EqualityIsInGroup(cs[r], t, x);
    forall q | 0 <= q < r ensures !EqualityOn(cs[q], t, x) { EqualityIsInGroup(cs[q], t, x); }
  }

  lemma {:induction false} KeyIsFound(cs: seq<Expr>, t: string, xs: seq<Expr>)
    requires forall x | x in xs :: Equated(cs, t, x)
    ensures var r := KeyPositions(cs, Group(cs, t, Comparison(Eq)), xs);
      r.Some? && forall i | 0 <= i < |xs| :: FirstOn(cs, t, xs[i], r.value[i])
  {
    if xs != [] {
      assert xs[0] in xs && forall x | x in xs[1..] :: x in xs;
      EquatedHasFirst(cs, t, xs[0]);
      KeyIsFound(cs, t, xs[1..]);
    }
  }

  // ----- the lookup

  /** The conjuncts at these positions equate the columns of the index with the values of the key. */
  predicate KeyOf(cs: seq<Expr>, t: string, ix: Index, ps: seq<nat>, key: seq<Value>) {
    && |ps| == |key| == |ix.exprs|
    && forall i | 0 <= i < |ps| :: FirstOn(cs, t, ix.exprs[i], ps[i]) && key[i] == EqualTo(cs[ps[i]])
  }

  lemma {:induction false} GroupLookupIs(cat: Catalog, cs: seq<Expr>, t: string, kind: Kind, wide: Index, ix: Index,
                                         ps: seq<nat>)
    requires Widest(cat.scan, GroupColumns(cs, Group(cs, t, kind))) == Some(wide)
    requires IndexByExpression(cat.order, wide.exprs) == Some(ix)
    requires KeyPositions(cs, Group(cs, t, kind), ix.exprs) == Some(ps)
    requires forall p | p in ps :: p < |cs| && ExtractColumn(cs[p]).Some?
    ensures GroupLookup(cat, cs, t, kind).0 == KeyedLookup(cs, kind, ix, ps)
    ensures forall p :: p in GroupLookup(cat, cs, t, kind).1 <==> p in ps
  {
  }

  /** The equalities on the columns of the index are answered by one lookup, for the key of their constants, and need no
      other index. */
  lemma {:induction false} EqualitiesGetPoint(cat: Catalog, cs: seq<Expr>, t: string, ix: Index)
    returns (ps: seq<nat>, key: seq<Value>)
    requires Preferred(cat, cs, t, ix)
    ensures KeyOf(cs, t, ix, ps, key)
    ensures GroupLookup(cat, cs, t, Comparison(Eq)).0 == Some(Point(ix, key))
    ensures forall p :: p in GroupLookup(cat, cs, t, Comparison(Eq)).1 <==> p in ps
  {
    var g := Group(cs, t, Comparison(Eq));
    PreferredIsWidest(cat, cs, t, ix);
    KeyIsFound(cs, t, ix.exprs);
    ps := KeyPositions(cs, g, ix.exprs).value;
    assert forall p | p in ps :: p in g;
    GroupLookupIs(cat, cs, t, Comparison(Eq), ix, ix, ps);
    key := LowerKeys(cs, ps);
    forall i | 0 <= i < |ps| ensures key[i] == EqualTo(cs[ps[i]]) {
      assert FirstOn(cs, t, ix.exprs[i], ps[i]);
      EqualityIsInGroup(cs[ps[i]], t, ix.exprs[i]);
    }
  }

  /** The conjunct provides a part of the key of the index. */
  predicate InKey(cs: seq<Expr>, t: string, ix: Index, p: nat) {
    exists x | x in ix.exprs :: FirstOn(cs, t, x, p)
  }

  /** The conjunct provides a part of the key of the preferred index. */
  predicate ServedTogether(cat: Catalog, cs: seq<Expr>, t: string, p: nat) {
    exists ix | ix in cat.scan :: Preferred(cat, cs, t, ix) && InKey(cs, t, ix, p)
  }

  lemma {:induction false} FirstIsUnique(cs: seq<Expr>, t: string, ix: Index, ps: seq<nat>, key: seq<Value>, p: nat)
    requires KeyOf(cs, t, ix, ps, key) && InKey(cs, t, ix, p)
    ensures p in ps && p < |cs| && cs[p].Cmp? && cs[p].op == Eq && InGroup(cs[p], t, Comparison(Eq))
  {
    var x :| x in ix.exprs && FirstOn(cs, t, x, p);
    var i :| 0 <= i < |ix.exprs| && ix.exprs[i] == x;
    assert FirstOn(cs, t, ix.exprs[i], ps[i]);
    EqualityIsInGroup(cs[p], t, x);
  }

  lemma {:induction false} TogetherIsUsedByGroup(cat: Catalog, cs: seq<Expr>, t: string, p: nat)
    requires ServedTogether(cat, cs, t, p)
    ensures p < |cs| && cs[p].Cmp? && cs[p].op == Eq && InGroup(cs[p], t, Comparison(Eq))
    ensures p in GroupLookup(cat, cs, t, Comparison(Eq)).1
  {
    var ix :| ix in cat.scan && Preferred(cat, cs, t, ix) && InKey(cs, t, ix, p);
    var ps, key := EqualitiesGetPoint(cat, cs, t, ix);
    FirstIsUnique(cs, t, ix, ps, key, p);
  }

  predicate HasKind(cs: seq<Expr>, t: string, kind: Kind) {
    exists c | c in cs :: InGroup(c, t, kind)
  }

  lemma {:induction false} KindsAreAll(cs: seq<Expr>, t: string, kind: Kind)
    ensures kind in Kinds(cs, t) <==> HasKind(cs, t, kind)
  {
    if cs != [] {
      var last := |cs| - 1;
      KindsAreAll(cs[..last], t, kind);
      assert forall c :: c in cs <==> c in cs[..last] || c == cs[last];
      assert HasKind(cs, t, kind) <==> HasKind(cs[..last], t, kind) || InGroup(cs[last], t, kind);
    }
  }

  lemma {:induction false} TableUsesGroups(cat: Catalog, cs: seq<Expr>, t: string, kinds: seq<Kind>, kind: Kind)
    requires kind in kinds
    ensures GroupLookup(cat, cs, t, kind).1 <= TableLookup(cat, cs, t, kinds).1
  {
    var last := |kinds| - 1;
    if kind != kinds[last] {
      TableUsesGroups(cat, cs, t, kinds[..last], kind);
    }
  }

  /** Such a conjunct needs no other index. */
  lemma {:induction false} TogetherIsUsed(cat: Catalog, cs: seq<Expr>, t: string, p: nat)
    requires ServedTogether(cat, cs, t, p)
    ensures p in MultiColumnIndexes(cat, cs).1
  {
    TogetherIsUsedByGroup(cat, cs, t, p);
    assert cs[p] in cs;
    KindsAreAll(cs, t, Comparison(Eq));
    TableUsesGroups(cat, cs, t, Kinds(cs, t), Comparison(Eq));
    assert t in ColumnTables(cs);
  }

  // ----- the plan

  /** All indexes of the table support ranges and set operations. */
  predicate AllMergeable(cat: Catalog, t: string) {
    forall ix | ix in cat.order && ix.table == t :: ix.mergeable
  }

  /** The lookup of a group belongs to one index of the table and to the key that the group provides for it. */
  lemma {:induction false} GroupIndex(cat: Catalog, t: string, ts: Schema, cs: seq<Expr>, kind: Kind)
    returns (ix: Index, ps: seq<nat>)
    requires CatalogFor(cat, t, ts) && (GroupLookup(cat, cs, t, kind).0.Some? || GroupLookup(cat, cs, t, kind).1 != {})
    ensures ix in cat.order && ix.table == t && Matches(ix, GroupColumns(cs, Group(cs, t, kind)))
    ensures Keyed(cs, kind, ix, ps)
    ensures GroupLookup(cat, cs, t, kind).0 == KeyedLookup(cs, kind, ix, ps)
    ensures forall p :: p in GroupLookup(cat, cs, t, kind).1 <==> p in ps
  {
    var g := Group(cs, t, kind);
    var wide := Widest(cat.scan, GroupColumns(cs, g)).value;
    ix := IndexByExpression(cat.order, wide.exprs).value;
    ps := KeyPositions(cs, g, ix.exprs).value;
    assert Matches(ix, GroupColumns(cs, g));
    GroupKey(cat, t, ts, cs, kind, g, ix, ps);
  }

  predicate NotPlain(l: Option<Lookup>) {
    l.Some? ==> !l.value.Plain?
  }

  lemma {:induction false} KeyedIsNotPlain(cs: seq<Expr>, kind: Kind, ix: Index, ps: seq<nat>)
    requires ix.mergeable && forall p | p in ps :: p < |cs| && ExtractColumn(cs[p]).Some?
    ensures NotPlain(KeyedLookup(cs, kind, ix, ps))
  {
  }

  lemma {:induction false} GroupIsNotPlain(cat: Catalog, t: string, ts: Schema, cs: seq<Expr>, kind: Kind)
    requires CatalogFor(cat, t, ts) && AllMergeable(cat, t)
    ensures NotPlain(GroupLookup(cat, cs, t, kind).0)
  {
    if GroupLookup(cat, cs, t, kind).0.Some? {
      var ix, ps := GroupIndex(cat, t, ts, cs, kind);
      KeyedIsNotPlain(cs, kind, ix, ps);
    }
  }

  /** The lookup accepts no row that the part refuses. */
  predicate Includes(l: Option<Lookup>, part: Lookup, trow: Row) {
    l.Some? && !l.value.Plain? && (Accepts(l.value, trow) ==> Accepts(part, trow))
  }

  function MergeAll(f: Kind -> Option<Lookup>, kinds: seq<Kind>): Option<Lookup> {
    if kinds == [] then None else MergeLookups(MergeAll(f, kinds[..|kinds| - 1]), f(kinds[|kinds| - 1]))
  }

  lemma {:induction false} MergeIsNotPlain(f: Kind -> Option<Lookup>, kinds: seq<Kind>)
    requires forall k :: NotPlain(f(k))
    ensures NotPlain(MergeAll(f, kinds))
  {
    if kinds != [] {
      MergeIsNotPlain(f, kinds[..|kinds| - 1]);
    }
  }

  /** What the merged lookups accept, each of them accepts. */
  lemma {:induction false} MergedIncludes(f: Kind -> Option<Lookup>, kinds: seq<Kind>, i: nat, part: Lookup, trow: Row)
    requires i < |kinds| && f(kinds[i]) == Some(part) && forall k :: NotPlain(f(k))
    ensures Includes(MergeAll(f, kinds), part, trow)
  {
    var last := |kinds| - 1;
    var before, l := MergeAll(f, kinds[..last]), f(kinds[last]);
    MergeIsNotPlain(f, kinds[..last]);
    if i < last { MergedIncludes(f, kinds[..last], i, part, trow); }
    if before.Some? && l.Some? { IntersectionAccepts(before.value, l.value, trow); }
  }

  function GroupLookups(cat: Catalog, cs: seq<Expr>, t: string): Kind -> Option<Lookup> {
    kind => GroupLookup(cat, cs, t, kind).0
  }

  lemma {:induction false} TableIsMerged(cat: Catalog, cs: seq<Expr>, t: string, kinds: seq<Kind>)
    ensures TableLookup(cat, cs, t, kinds).0 == MergeAll(GroupLookups(cat, cs, t), kinds)
  {
    if kinds != [] {
      TableIsMerged(cat, cs, t, kinds[..|kinds| - 1]);
    }
  }

  lemma {:induction false} TableIsNotPlain(cat: Catalog, t: string, ts: Schema, cs: seq<Expr>, kinds: seq<Kind>)
    requires CatalogFor(cat, t, ts) && AllMergeable(cat, t)
    ensures NotPlain(TableLookup(cat, cs, t, kinds).0)
  {
    var f := GroupLookups(cat, cs, t);
    TableIsMerged(cat, cs, t, kinds);
    forall k ensures NotPlain(f(k)) { GroupIsNotPlain(cat, t, ts, cs, k); }
    MergeIsNotPlain(f, kinds);
  }

  lemma {:induction false} TableIncludesGroup(cat: Catalog, t: string, ts: Schema, cs: seq<Expr>, kinds: seq<Kind>,
                                              i: nat, part: Lookup, trow: Row)
    requires CatalogFor(cat, t, ts) && AllMergeable(cat, t)
    requires i < |kinds| && GroupLookup(cat, cs, t, kinds[i]).0 == Some(part)
    ensures Includes(TableLookup(cat, cs, t, kinds).0, part, trow)
  {
    var f := GroupLookups(cat, cs, t);
    TableIsMerged(cat, cs, t, kinds);
    forall k ensures NotPlain(f(k)) { GroupIsNotPlain(cat, t, ts, cs, k); }
    MergedIncludes(f, kinds, i, part, trow);
  }

  lemma {:induction false} ConjunctsInclude(cat: Catalog, cs: seq<Expr>, used: set<nat>, n: nat, multi: Plan, w: nat,
                                            t: string, part: Lookup, trow: Row)
    requires n <= |cs| && forall c | c in cs :: Weight(c) < w
    requires ConjunctIndexes(cat, cs, used, n, multi, w).Ok? && Includes(LookupFor(multi, t), part, trow)
    ensures Includes(LookupFor(ConjunctIndexes(cat, cs, used, n, multi, w).value, t), part, trow)
  {
    if n > 0 {
      ConjunctsInclude(cat, cs, used, n - 1, multi, w, t, part, trow);
      if n - 1 !in used {
        assert cs[n - 1] in cs;
        var before, plan := ConjunctIndexes(cat, cs, used, n - 1, multi, w).value, GetIndexes(cat, cs[n - 1]).value;
        if t in plan { IntersectionAccepts(before[t], plan[t], trow); }
      }
    }
  }

  /** Whatever else a conjunction says: with a preferred index the table gets a lookup, and it accepts only rows with
      the key that the equalities ask for. */
  lemma {:induction false} PreferredTakesPart(cat: Catalog, e: Expr, t: string, ts: Schema, ix: Index, trow: Row)
    returns (ps: seq<nat>, key: seq<Value>)
    requires CatalogFor(cat, t, ts) && AllMergeable(cat, t) && e.And? && GetIndexes(cat, e).Ok?
    requires Preferred(cat, SplitConjunction(e), t, ix)
    ensures KeyOf(SplitConjunction(e), t, ix, ps, key)
    ensures Includes(LookupFor(GetIndexes(cat, e).value, t), Point(ix, key), trow)
  {
    var cs := SplitConjunction(e);
    ConjunctsAreLighter(e);
    ps, key := EqualitiesGetPoint(cat, cs, t, ix);
    assert FirstOn(cs, t, ix.exprs[0], ps[0]);
    EqualityIsInGroup(cs[ps[0]], t, ix.exprs[0]);
    assert cs[ps[0]] in cs;
    KindsAreAll(cs, t, Comparison(Eq));
    var i :| 0 <= i < |Kinds(cs, t)| && Kinds(cs, t)[i] == Comparison(Eq);
    TableIncludesGroup(cat, t, ts, cs, Kinds(cs, t), i, Point(ix, key), trow);
    var (multi, used) := MultiColumnIndexes(cat, cs);
    assert t in ColumnTables(cs);
    assert LookupFor(multi, t) == TableLookup(cat, cs, t, Kinds(cs, t)).0;
    ConjunctsInclude(cat, cs, used, |cs|, multi, Weight(e), t, Point(ix, key), trow);
  }
}
