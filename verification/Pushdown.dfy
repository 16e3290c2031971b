/** Pushing the filter, the projection and the index lookup of a one-table plan into the table. */
module Pushdown {
  import opened Values
  import opened Expressions
  import opened Lookups
  import opened IndexPlanning
  import opened IndexSoundness
  import opened IndexReadability
  import opened MemoryTable

  function Tables(e: Expr): set<string> {
    set c | c in Columns(e) :: c.source
  }

  /** `exprToTableFilters` for one table: the conjuncts that mention it and no other. */
  function TableFilters(e: Expr, t: string): seq<Expr> {
    OnTable(SplitConjunction(e), t)
  }

  function Select(es: seq<Expr>, p: Expr -> bool): (r: seq<Expr>)
    ensures forall x :: x in r <==> x in es && p(x)
  {
    if es == [] then []
    else
      var last := |es| - 1;
      assert forall x :: x in es <==> x in es[..last] || x == es[last];
      Select(es[..last], p) + (if p(es[last]) then [es[last]] else [])
  }

  /** `HandledFilters`: the filters whose columns all belong to the table. */
  function HandledFilters(t: string, ts: Schema, fs: seq<Expr>): seq<Expr> {
    Select(fs, f => forall c | c in Columns(f) :: c.source == t && c in ts)
  }

  /** `getUnhandledFilters`. */
  function UnhandledFilters(all: seq<Expr>, handled: seq<Expr>): seq<Expr> {
    Select(all, f => f !in handled)
  }

  lemma {:induction false} SelectNext(es: seq<Expr>, p: Expr -> bool, i: nat)
    requires i < |es|
    ensures Select(es[..i + 1], p) == Select(es[..i], p) + (if p(es[i]) then [es[i]] else [])
  {
    assert es[..i + 1][..i] == es[..i];
  }

  function OnTable(es: seq<Expr>, t: string): seq<Expr> {
    Select(es, c => Tables(c) == {t})
  }

  function Entry(filters: map<string, seq<Expr>>, t: string): seq<Expr> {
    if t in filters then filters[t] else []
  }

  /** The lists hold the conjuncts of their tables. */
  ghost predicate ByTable(filters: map<string, seq<Expr>>, es: seq<Expr>) {
    forall t :: Entry(filters, t) == OnTable(es, t)
  }

  lemma {:induction false} OnTableNext(es: seq<Expr>, i: nat, t: string)
    requires i < |es|
    ensures OnTable(es[..i + 1], t) == if Tables(es[i]) == {t} then OnTable(es[..i], t) + [es[i]]
      else OnTable(es[..i], t)
  {
    SelectNext(es, c => Tables(c) == {t}, i);
  }

  lemma {:induction false} AddToTable(filters: map<string, seq<Expr>>, es: seq<Expr>, i: nat, t: string)
    requires i < |es| && ByTable(filters, es[..i]) && Tables(es[i]) == {t}
    ensures ByTable(filters[t := Entry(filters, t) + [es[i]]], es[..i + 1])
  {
    var filters' := filters[t := Entry(filters, t) + [es[i]]];
    forall u ensures Entry(filters', u) == OnTable(es[..i + 1], u) {
      OnTableNext(es, i, u);
      assert Entry(filters, u) == OnTable(es[..i], u);
      assert {t} == {u} <==> t == u;
    }
  }

  lemma {:induction false} SkipConjunct(filters: map<string, seq<Expr>>, es: seq<Expr>, i: nat)
    requires i < |es| && ByTable(filters, es[..i]) && |Tables(es[i])| != 1
    ensures ByTable(filters, es[..i + 1])
  {
    forall u ensures Entry(filters, u) == OnTable(es[..i + 1], u) {
      OnTableNext(es, i, u);
      assert Entry(filters, u) == OnTable(es[..i], u);
      NotOneElement(Tables(es[i]), u);
    }
  }

  lemma {:induction false} NotOneElement(s: set<string>, x: string)
    requires |s| != 1
    ensures s != {x}
  {
  }

  /** The loop of `exprToTableFilters`: every conjunct on a single table goes to the list of that table. */
  method ExprToTableFilters(e: Expr) returns (filters: map<string, seq<Expr>>)
    ensures forall t :: Entry(filters, t) == TableFilters(e, t)
  {
    var conjuncts := SplitConjunction(e);
    filters := map[];
    for i := 0 to |conjuncts|
      invariant ByTable(filters, conjuncts[..i])
    {
      var seenTables := Tables(conjuncts[i]);
      if |seenTables| == 1 {
        var lastTable :| lastTable in seenTables;
        OneElement(seenTables, lastTable);
        AddToTable(filters, conjuncts, i, lastTable);
        filters := filters[lastTable := Entry(filters, lastTable) + [conjuncts[i]]];
      } else {
        SkipConjunct(filters, conjuncts, i);
      }
    }
    assert conjuncts[..|conjuncts|] == conjuncts;
    forall t ensures Entry(filters, t) == TableFilters(e, t) { assert Entry(filters, t) == OnTable(conjuncts, t); }
  }

  lemma {:induction false} OneElement(s: set<string>, x: string)
    requires |s| == 1 && x in s
    ensures s == {x}
  {
    assert |s - {x}| == 0;
  }

  /** The loops of `getUnhandledFilters`. */
  method GetUnhandledFilters(all: seq<Expr>, handled: seq<Expr>) returns (unhandled: seq<Expr>)
    ensures unhandled == UnhandledFilters(all, handled)
  {
    unhandled := [];
    for i := 0 to |all|
      invariant unhandled == Select(all[..i], f => f !in handled)
    {
      SelectNext(all, f => f !in handled, i);
      var isHandled := false;
      for j := 0 to |handled|
        invariant !isHandled && forall k | 0 <= k < j :: handled[k] != all[i]
      {
        if handled[j] == all[i] {
          isHandled := true;
          break;
        }
      }
      if !isHandled {
        unhandled := unhandled + [all[i]];
      }
    }
    assert all[..|all|] == all;
  }

  /** The table has a column of every name. */
  predicate HasColumns(t: string, ts: Schema, names: seq<string>) {
    forall name | name in names :: Column(t, name) in ts
  }

  /** The columns of a projection, as positions; a name the table does not have drops the projection. */
  function ProjectedColumns(t: string, ts: Schema, names: seq<string>): (r: seq<nat>)
    ensures forall c | c in r :: c < |ts|
    ensures HasColumns(t, ts, names) ==> |r| == |names|
    ensures HasColumns(t, ts, names) ==>
      forall i | 0 <= i < |r| :: r[i] < |ts| && ts[r[i]] == Column(t, names[i])
    ensures !HasColumns(t, ts, names) ==> r == []
  {
    var cs := seq(|names|, i requires 0 <= i < |names| => Column(t, names[i]));
    NamedColumns(t, names, ts, cs);
    if forall c | c in cs :: c in ts then
      seq(|names|, i requires 0 <= i < |names| => assert cs[i] in cs; IndexOf(ts, cs[i]) as nat)
    else []
  }

  lemma {:induction false} NamedColumns(t: string, names: seq<string>, ts: Schema, cs: Schema)
    requires |cs| == |names| && forall i | 0 <= i < |names| :: cs[i] == Column(t, names[i])
    ensures HasColumns(t, ts, names) <==> forall c | c in cs :: c in ts
  {
    if forall c | c in cs :: c in ts {
      forall name | name in names ensures Column(t, name) in ts {
        var i :| 0 <= i < |names| && names[i] == name;
        assert cs[i] in cs;
      }
    }
  }

  function ProjectedSchema(ts: Schema, columns: seq<nat>): Schema
    requires forall c | c in columns :: c < |ts|
  {
    if |columns| < 1 then ts
    else seq(|columns|, i requires 0 <= i < |columns| => assert columns[i] in columns; ts[columns[i]])
  }

  /** The rows the pushed-down table reads: those of the index lookup, or all of them. */
  function Candidates(lookup: Option<Lookup>, rows: seq<Row>): Result<seq<Row>> {
    if lookup.None? then Ok(rows) else
    var m :- MatchExpression(lookup.value);
    Ok(RowsAt(rows, Positions(m, rows, 0)))
  }

  /** `fixFieldIndexesForExpressions`: the expression is left alone when a column is missing. */
  function Refit(s: Schema, e: Expr): Expr {
    var r := FixFieldIndexes(s, e);
    if r.Ok? then r.value else e
  }

  /** The plan after the pushdown: the filters and the columns of the table, and the filter that is left above it. */
  datatype TablePlan = TablePlan(filters: seq<Expr>, columns: seq<nat>, above: Option<Expr>)

  function PlanTable(e: Expr, t: string, ts: Schema, names: seq<string>): (r: Result<TablePlan>)
    ensures r.Ok? ==> forall c | c in r.value.columns :: c < |ts|
  {
    var handled := HandledFilters(t, ts, TableFilters(e, t));
    var filters :- FixFieldIndexesInAll(ts, handled);
    var columns := ProjectedColumns(t, ts, names);
    var schema := ProjectedSchema(ts, columns);
    var unhandled := UnhandledFilters(SplitConjunction(e), handled);
    Ok(TablePlan(filters, columns,
      if handled == [] then Some(Refit(schema, e))
      else if unhandled == [] then None
      else Some(Refit(schema, JoinAnd(unhandled)))))
  }

  /** The rows of the plan. */
  function PushedDown(e: Expr, t: string, ts: Schema, names: seq<string>, lookup: Option<Lookup>,
                      rows: seq<Row>): Result<seq<Row>>
    requires forall r | r in rows :: |r| == |ts|
  {
    var plan :- PlanTable(e, t, ts, names);
    var candidates :- Candidates(lookup, rows);
    CandidatesAreRows(lookup, rows);
    var scanned := Scan(candidates, plan.filters, plan.columns);
    Ok(if plan.above.None? then scanned else Filtered(plan.above.value, scanned))
  }

  lemma {:induction false} CandidatesAreRows(lookup: Option<Lookup>, rows: seq<Row>)
    requires Candidates(lookup, rows).Ok?
    ensures forall r | r in Candidates(lookup, rows).value :: r in rows
  {
  }

  // ----- proof

  /** The conjunct has columns, and all of them are columns of the table. */
  predicate IsOwn(c: Expr, t: string, ts: Schema) {
    Columns(c) != {} && forall col | col in Columns(c) :: col.source == t && col in ts
  }

  lemma {:induction false} OwnIsHandled(e: Expr, t: string, ts: Schema, c: Expr)
    ensures c in HandledFilters(t, ts, TableFilters(e, t)) <==> c in SplitConjunction(e) && IsOwn(c, t, ts)
  {
    if IsOwn(c, t, ts) {
      var col :| col in Columns(c);
      assert col.source in Tables(c);
      assert Tables(c) == {t};
    }
    if Tables(c) == {t} { assert t in Tables(c); }
  }

  lemma {:induction false} SelectedBy(es: seq<Expr>, p: Expr -> bool, q: Expr -> bool)
    requires forall x | x in es :: p(x) == q(x)
    ensures Select(es, p) == Select(es, q)
  {
    if es != [] {
      assert forall x | x in es[..|es| - 1] :: x in es;
      SelectedBy(es[..|es| - 1], p, q);
    }
  }

  /** The same expression at the positions of another schema. */
  predicate IsMoved(c: Expr, f: Expr, s: Schema) {
    Resolved(f, s) && Erase(f) == Erase(c)
  }

  predicate HasMoved(fs: seq<Expr>, c: Expr, s: Schema) {
    exists f | f in fs :: IsMoved(c, f, s)
  }

  predicate IsMovedFrom(cs: seq<Expr>, f: Expr, s: Schema) {
    exists c | c in cs :: IsMoved(c, f, s)
  }

  /** What is left above the table, if the own conjuncts are its filters: the others, or the filter as it was. */
  function LeftAbove(e: Expr, own: seq<Expr>, others: seq<Expr>, schema: Schema): Option<Expr> {
    if own == [] then Some(Refit(schema, e))
    else if others == [] then None
    else Some(Refit(schema, JoinAnd(others)))
  }

  lemma {:induction false} MovedFilters(fs: seq<Expr>, ts: Schema)
    requires FixFieldIndexesInAll(ts, fs).Ok?
    ensures forall c | c in fs :: HasMoved(FixFieldIndexesInAll(ts, fs).value, c, ts)
    ensures forall f | f in FixFieldIndexesInAll(ts, fs).value :: IsMovedFrom(fs, f, ts)
  {
    var filters := FixFieldIndexesInAll(ts, fs).value;
    forall c | c in fs ensures HasMoved(filters, c, ts) {
      var i :| 0 <= i < |fs| && fs[i] == c;
      assert filters[i] in filters && IsMoved(c, filters[i], ts);
    }
    forall f | f in filters ensures IsMovedFrom(fs, f, ts) {
      var i :| 0 <= i < |filters| && filters[i] == f;
      assert fs[i] in fs && IsMoved(fs[i], f, ts);
    }
  }

  lemma {:induction false} HandledAreOwn(e: Expr, t: string, ts: Schema)
    ensures var handled := HandledFilters(t, ts, TableFilters(e, t));
      var own := Select(SplitConjunction(e), c => IsOwn(c, t, ts));
      (forall c :: c in handled <==> c in own) && (handled == [] <==> own == [])
    ensures UnhandledFilters(SplitConjunction(e), HandledFilters(t, ts, TableFilters(e, t))) ==
      Select(SplitConjunction(e), c => !IsOwn(c, t, ts))
  {
    var cs, handled := SplitConjunction(e), HandledFilters(t, ts, TableFilters(e, t));
    forall c ensures c in handled <==> c in cs && IsOwn(c, t, ts) { OwnIsHandled(e, t, ts, c); }
    SelectedBy(cs, f => f !in handled, c => !IsOwn(c, t, ts));
    NoneInEither(handled, Select(cs, c => IsOwn(c, t, ts)));
  }

  /** Exactly the conjuncts of the table alone become filters of the table, at the positions of its columns; exactly the
      others, in their order, are left above it. */
  lemma {:induction false} PushesOwnConjuncts(e: Expr, t: string, ts: Schema, names: seq<string>)
    requires Resolved(e, ts)
    ensures var r, cs := PlanTable(e, t, ts, names), SplitConjunction(e);
      var own, others := Select(cs, c => IsOwn(c, t, ts)), Select(cs, c => !IsOwn(c, t, ts));
      && r.Ok? && r.value.columns == ProjectedColumns(t, ts, names)
      && (forall c | c in own :: HasMoved(r.value.filters, c, ts))
      && (forall f | f in r.value.filters :: IsMovedFrom(own, f, ts))
      && r.value.above == LeftAbove(e, own, others, ProjectedSchema(ts, r.value.columns))
  {
    var handled, own := HandledFilters(t, ts, TableFilters(e, t)), Select(SplitConjunction(e), c => IsOwn(c, t, ts));
    HandledFix(e, t, ts);
    HandledAreOwn(e, t, ts);
    MovedFilters(handled, ts);
    SameMoved(handled, own, FixFieldIndexesInAll(ts, handled).value, ts);
  }

  lemma {:induction false} NoneInEither(cs: seq<Expr>, cs': seq<Expr>)
    requires forall c :: c in cs <==> c in cs'
    ensures cs == [] <==> cs' == []
  {
    if cs != [] { assert cs[0] in cs'; }
    if cs' != [] { assert cs'[0] in cs; }
  }

  lemma {:induction false} SameMoved(cs: seq<Expr>, cs': seq<Expr>, fs: seq<Expr>, ts: Schema)
    requires forall c :: c in cs <==> c in cs'
    requires (forall c | c in cs :: HasMoved(fs, c, ts)) && forall f | f in fs :: IsMovedFrom(cs, f, ts)
    ensures (forall c | c in cs' :: HasMoved(fs, c, ts)) && forall f | f in fs :: IsMovedFrom(cs', f, ts)
  {
  }

  /** Conjuncts split into handled and unhandled ones say together what the filter says. */
  lemma {:induction false} HandledAndUnhandled(e: Expr, t: string, ts: Schema, row: Row)
    ensures var cs := SplitConjunction(e);
      var handled := HandledFilters(t, ts, TableFilters(e, t));
      Holds(e, row) <==> Passes(handled, row) && Passes(UnhandledFilters(cs, handled), row)
  {
    var cs := SplitConjunction(e);
    var handled := HandledFilters(t, ts, TableFilters(e, t));
    assert forall f | f in handled :: f in cs;
  }

  /** A filter moved to the positions of the table's own row says the same of it. */
  lemma {:induction false} FixedFiltersPass(s: Schema, fs: seq<Expr>, ts: Schema, row: Row, trow: Row)
    requires forall f | f in fs :: Resolved(f, s)
    requires SameColumns(s, row, ts, trow)
    requires FixFieldIndexesInAll(ts, fs).Ok?
    ensures Passes(FixFieldIndexesInAll(ts, fs).value, trow) <==> Passes(fs, row)
  {
    var fixed := FixFieldIndexesInAll(ts, fs).value;
    forall i | 0 <= i < |fs| ensures Eval(fixed[i], trow) == Eval(fs[i], row) {
      assert fs[i] in fs && fixed[i] in fixed;
      SameValue(fs[i], s, row, fixed[i], ts, trow);
    }
    if Passes(fixed, trow) {
      forall f | f in fs ensures Holds(f, row) {
        var i :| 0 <= i < |fs| && fs[i] == f;
        assert fixed[i] in fixed;
      }
    }
    if forall f | f in fs :: Holds(f, row) {
      forall f | f in fixed ensures Holds(f, trow) {
        var i :| 0 <= i < |fixed| && fixed[i] == f;
        assert fs[i] in fs;
      }
    }
  }

  /** Projecting a row does not change the value of the columns it keeps. */
  lemma {:induction false} ProjectionKeepsColumns(ts: Schema, row: Row, columns: seq<nat>)
    requires Distinct(ts) && |row| == |ts| && forall c | c in columns :: c < |ts|
    ensures SameColumns(ts, row, ProjectedSchema(ts, columns), Project(columns, row))
  {
    var ps, pr := ProjectedSchema(ts, columns), Project(columns, row);
    forall i, j | 0 <= i < |ts| && 0 <= j < |ps| && ts[i] == ps[j] ensures row[i] == pr[j] {
      if |columns| >= 1 {
        assert columns[j] in columns;
        assert i == columns[j];
      }
    }
  }

  /** Rewriting the positions of an expression for the projected schema commutes with projecting the
      row, as long as the projection keeps the columns of the expression. */
  lemma {:induction false} RefitCommutesWithProjection(e: Expr, ts: Schema, row: Row, columns: seq<nat>)
    requires Distinct(ts) && |row| == |ts| && forall c | c in columns :: c < |ts|
    requires Resolved(e, ts)
    requires forall c | c in Columns(e) :: c in ProjectedSchema(ts, columns)
    ensures Eval(Refit(ProjectedSchema(ts, columns), e), Project(columns, row)) == Eval(e, row)
  {
    ProjectionKeepsColumns(ts, row, columns);
    SameValue(e, ts, row, Refit(ProjectedSchema(ts, columns), e), ProjectedSchema(ts, columns), Project(columns, row));
  }

  lemma {:induction false} ConjunctColumns(e: Expr)
    ensures forall c | c in SplitConjunction(e) :: Columns(c) <= Columns(e)
  {
    if e.And? {
      ConjunctColumns(e.l);
      ConjunctColumns(e.r);
    }
  }

  lemma {:induction false} JoinedColumns(es: seq<Expr>, cols: set<Column>, s: Schema)
    requires |es| > 0
    requires forall c | c in es :: Columns(c) <= cols && Resolved(c, s)
    ensures Columns(JoinAnd(es)) <= cols && Resolved(JoinAnd(es), s)
  {
    if |es| > 1 {
      var last := |es| - 1;
      assert forall c | c in es[..last] :: c in es;
      JoinedColumns(es[..last], cols, s);
      assert es[last] in es;
    }
  }

  /** The projection keeps every column named in `names`. */
  lemma {:induction false} ProjectionHasColumns(t: string, ts: Schema, names: seq<string>, c: Column)
    requires c in ts
    requires names == [] || (c.source == t && c.name in names)
    ensures c in ProjectedSchema(ts, ProjectedColumns(t, ts, names))
  {
    var columns := ProjectedColumns(t, ts, names);
    if |columns| >= 1 {
      var i :| 0 <= i < |names| && names[i] == c.name;
      assert columns[i] == IndexOf(ts, c);
      assert ProjectedSchema(ts, columns)[i] == c;
    }
  }

  function ProjectAll(columns: seq<nat>, rows: seq<Row>): seq<Row>
    requires forall r | r in rows :: Within(columns, r)
  {
    if rows == [] then [] else [Project(columns, rows[0])] + ProjectAll(columns, rows[1..])
  }

  lemma {:induction false} FilteredStep(e: Expr, rows: seq<Row>)
    requires rows != []
    ensures Filtered(e, rows) == if Holds(e, rows[0]) then [rows[0]] + Filtered(e, rows[1..])
      else Filtered(e, rows[1..])
  {
  }

  lemma {:induction false} ScanStep(r: Row, rows: seq<Row>, filters: seq<Expr>, columns: seq<nat>)
    requires Within(columns, r) && forall x | x in rows :: Within(columns, x)
    ensures Scan([r] + rows, filters, columns)
         == if Passes(filters, r) then [Project(columns, r)] + Scan(rows, filters, columns)
           else Scan(rows, filters, columns)
  {
    assert ([r] + rows)[1..] == rows;
  }

  lemma {:induction false} ProjectStep(columns: seq<nat>, r: Row, rows: seq<Row>)
    requires Within(columns, r) && forall x | x in rows :: Within(columns, x)
    ensures ProjectAll(columns, [r] + rows) == [Project(columns, r)] + ProjectAll(columns, rows)
  {
    assert ([r] + rows)[1..] == rows;
  }

  lemma {:induction false} FilteredCons(e: Expr, r: Row, rows: seq<Row>)
    ensures Filtered(e, [r] + rows) == if Holds(e, r) then [r] + Filtered(e, rows) else Filtered(e, rows)
  {
    assert ([r] + rows)[1..] == rows;
  }

  /** Row by row: the candidates, the handled filters and the filter left above the table let through
      exactly the rows of the original filter. */
  lemma {:induction false} ScanThenFilter(e: Expr, m: Expr, filters: seq<Expr>, above: Expr, columns: seq<nat>,
                                          rows: seq<Row>)
    requires forall r | r in rows :: Within(columns, r)
    requires forall r | r in rows :: Holds(e, r) <==>
      Holds(m, r) && Passes(filters, r) && Holds(above, Project(columns, r))
    requires forall r | r in Filtered(m, rows) :: r in rows
    requires forall r | r in Filtered(e, rows) :: r in rows
    ensures Filtered(above, Scan(Filtered(m, rows), filters, columns)) == ProjectAll(columns, Filtered(e, rows))
  {
    if rows != [] {
      FilteredAreRows(m, rows[1..]);
      FilteredAreRows(e, rows[1..]);
      ScanThenFilter(e, m, filters, above, columns, rows[1..]);
      var r := rows[0];
      assert r in rows;
      FilteredStep(m, rows);
      FilteredStep(e, rows);
      if Holds(m, r) {
        ScanStep(r, Filtered(m, rows[1..]), filters, columns);
        FilteredCons(above, Project(columns, r), Scan(Filtered(m, rows[1..]), filters, columns));
      }
      if Holds(e, r) {
        ProjectStep(columns, r, Filtered(e, rows[1..]));
      }
    }
  }

  lemma {:induction false} FilteredByTrue(rows: seq<Row>)
    ensures Filtered(Lit(Bool(true)), rows) == rows
  {
    if rows != [] {
      FilteredByTrue(rows[1..]);
    }
  }

  /** A lookup that keeps the rows the filter accepts. */
  predicate SoundFor(lookup: Option<Lookup>, e: Expr, rows: seq<Row>) {
    lookup.Some? ==> forall r | r in rows :: Fits(lookup.value, |r|) && (Holds(e, r) ==> Accepts(lookup.value, r))
  }

  /** The projection keeps the columns of the filter. */
  predicate KeepsColumns(e: Expr, t: string, ts: Schema, names: seq<string>) {
    Resolved(e, ts) && forall c | c in Columns(e) :: names == [] || (c.source == t && c.name in names)
  }

  lemma {:induction false} RefitHolds(e: Expr, t: string, ts: Schema, names: seq<string>, row: Row)
    requires Distinct(ts) && |row| == |ts| && KeepsColumns(e, t, ts, names)
    ensures var columns := ProjectedColumns(t, ts, names);
      Holds(Refit(ProjectedSchema(ts, columns), e), Project(columns, row)) <==> Holds(e, row)
  {
    var columns := ProjectedColumns(t, ts, names);
    ResolvedColumns(e, ts);
    forall c | c in Columns(e) ensures c in ProjectedSchema(ts, columns) { ProjectionHasColumns(t, ts, names, c); }
    RefitCommutesWithProjection(e, ts, row, columns);
  }

  /** The filter left above the table; none is the same as one that is always true. */
  function Above(e: Expr, schema: Schema, handled: seq<Expr>): Expr {
    var unhandled := UnhandledFilters(SplitConjunction(e), handled);
    if handled == [] then Refit(schema, e)
    else if unhandled == [] then Lit(Bool(true))
    else Refit(schema, JoinAnd(unhandled))
  }

  /** What the filter above the table says of a projected row. */
  lemma {:induction false} AboveHolds(e: Expr, handled: seq<Expr>, t: string, ts: Schema, names: seq<string>, row: Row)
    requires Distinct(ts) && |row| == |ts| && KeepsColumns(e, t, ts, names)
    ensures var columns := ProjectedColumns(t, ts, names);
      Holds(Above(e, ProjectedSchema(ts, columns), handled), Project(columns, row)) <==>
        if handled == [] then Holds(e, row)
        else Passes(UnhandledFilters(SplitConjunction(e), handled), row)
  {
    var unhandled := UnhandledFilters(SplitConjunction(e), handled);
    if handled == [] {
      RefitHolds(e, t, ts, names, row);
    } else if unhandled != [] {
      ConjunctColumns(e);
      ConjunctsAccepted(e, ts, row);
      JoinedColumns(unhandled, Columns(e), ts);
      RefitHolds(JoinAnd(unhandled), t, ts, names, row);
    }
  }

  /** The expression the candidate rows match; a full scan matches everything. */
  function CandidateFilter(lookup: Option<Lookup>): Expr {
    if lookup.Some? && MatchExpression(lookup.value).Ok? then MatchExpression(lookup.value).value else Lit(Bool(true))
  }

  lemma {:induction false} CandidatesMatch(lookup: Option<Lookup>, rows: seq<Row>)
    requires lookup.Some? ==> MatchExpression(lookup.value).Ok?
    ensures Candidates(lookup, rows) == Ok(Filtered(CandidateFilter(lookup), rows))
  {
    FilteredByTrue(rows);
    assert rows[0..] == rows;
    PositionsFindRows(CandidateFilter(lookup), rows, 0);
  }

  lemma {:induction false} HandledFix(e: Expr, t: string, ts: Schema)
    requires Resolved(e, ts)
    ensures var handled := HandledFilters(t, ts, TableFilters(e, t));
      AllResolved(handled, ts) && FixFieldIndexesInAll(ts, handled).Ok?
  {
    var handled := HandledFilters(t, ts, TableFilters(e, t));
    ConjunctsAccepted(e, ts, []);
    forall y, c | y in handled && c in Columns(y) ensures c in ts { ResolvedColumns(y, ts); }
  }

  lemma {:induction false} RowAgrees(e: Expr, t: string, ts: Schema, names: seq<string>, lookup: Option<Lookup>,
                                     row: Row)
    requires Distinct(ts) && |row| == |ts| && KeepsColumns(e, t, ts, names)
    requires SoundFor(lookup, e, [row])
    requires lookup.Some? ==> MatchExpression(lookup.value).Ok?
    requires var handled := HandledFilters(t, ts, TableFilters(e, t));
      AllResolved(handled, ts) && FixFieldIndexesInAll(ts, handled).Ok?
    ensures var handled := HandledFilters(t, ts, TableFilters(e, t));
      var columns := ProjectedColumns(t, ts, names);
      Holds(e, row) <==>
        && Holds(CandidateFilter(lookup), row)
        && Passes(FixFieldIndexesInAll(ts, handled).value, row)
        && Holds(Above(e, ProjectedSchema(ts, columns), handled), Project(columns, row))
  {
    var handled := HandledFilters(t, ts, TableFilters(e, t));
    CandidateHolds(lookup, e, row);
    assert SameColumns(ts, row, ts, row);
    FixedFiltersPass(ts, handled, ts, row, row);
    HandledAndUnhandled(e, t, ts, row);
    AboveHolds(e, handled, t, ts, names, row);
  }

  lemma {:induction false} CandidateHolds(lookup: Option<Lookup>, e: Expr, row: Row)
    requires SoundFor(lookup, e, [row]) && (lookup.Some? ==> MatchExpression(lookup.value).Ok?)
    ensures Holds(e, row) ==> Holds(CandidateFilter(lookup), row)
  {
    assert row in [row];
    if lookup.Some? { MatchExpressionSelects(lookup.value, row); }
  }

  /** The pushdown gives the rows of the full scan that pass the filter, projected, in the same order. */
  lemma {:induction false} PushdownPreservesRows(e: Expr, t: string, ts: Schema, names: seq<string>,
                                                 lookup: Option<Lookup>, rows: seq<Row>)
    requires Distinct(ts) && KeepsColumns(e, t, ts, names) && forall r | r in rows :: |r| == |ts|
    requires SoundFor(lookup, e, rows)
    requires lookup.Some? ==> MatchExpression(lookup.value).Ok?
    ensures PushedDown(e, t, ts, names, lookup, rows).Ok?
    ensures forall r | r in Filtered(e, rows) :: r in rows
    ensures PushedDown(e, t, ts, names, lookup, rows).value ==
      ProjectAll(ProjectedColumns(t, ts, names), Filtered(e, rows))
  {
    var handled := HandledFilters(t, ts, TableFilters(e, t));
    HandledFix(e, t, ts);
    var columns := ProjectedColumns(t, ts, names);
    var filters := FixFieldIndexesInAll(ts, handled).value;
    var m := CandidateFilter(lookup);
    var above := Above(e, ProjectedSchema(ts, columns), handled);
    CandidatesMatch(lookup, rows);
    FilteredAreRows(m, rows);
    FilteredAreRows(e, rows);
    forall r | r in rows
      ensures Holds(e, r) <==> Holds(m, r) && Passes(filters, r) && Holds(above, Project(columns, r))
    {
      RowAgrees(e, t, ts, names, lookup, r);
    }
    ScanThenFilter(e, m, filters, above, columns, rows);
    FilteredByTrue(Scan(Filtered(m, rows), filters, columns));
  }

  /** The answer of a one-table query: plan a lookup for the filter, and push it down with the filter and the
      projection.  Planning can fail, and reading the lookup can panic. */
  function PlannedQuery(cat: Catalog, e: Expr, t: string, ts: Schema, names: seq<string>,
                        rows: seq<Row>): Result<seq<Row>>
    requires forall r | r in rows :: |r| == |ts|
  {
    var plan :- GetIndexes(cat, e);
    PushedDown(e, t, ts, names, LookupFor(plan, t), rows)
  }

  lemma {:induction false} PlannedLookupIsSound(cat: Catalog, e: Expr, t: string, ts: Schema, rows: seq<Row>,
                                                plan: Plan)
    requires Distinct(ts) && Resolved(e, ts) && CatalogFor(cat, t, ts) && GetIndexes(cat, e) == Ok(plan)
    requires forall r | r in rows :: |r| == |ts| && Plannable(e, true, r)
    ensures SoundFor(LookupFor(plan, t), e, rows)
  {
    forall r | r in rows ensures PlanKeeps(plan, t, r, Accepted(e, r)) {
      assert forall i, j | 0 <= i < |ts| && 0 <= j < |ts| && ts[i] == ts[j] :: i == j;
      LookupKeepsRow(cat, e, ts, r, t, ts, r);
    }
  }

  lemma {:induction false} UnreadableFails(e: Expr, t: string, ts: Schema, names: seq<string>, l: Lookup,
                                           rows: seq<Row>)
    requires forall r | r in rows :: |r| == |ts|
    requires MatchExpression(l).Err?
    ensures PushedDown(e, t, ts, names, Some(l), rows).Err?
  {
    assert Candidates(Some(l), rows).Err?;
  }

  /** The output row shows the named columns of the row, in the order of the names; without names, or with one that the
      table does not have, it is the row. */
  predicate Shows(t: string, ts: Schema, names: seq<string>, row: Row, out: Row)
    requires |row| == |ts|
  {
    if names == [] || !HasColumns(t, ts, names) then out == row
    else
      && |out| == |names|
      && forall i, k | 0 <= i < |names| && 0 <= k < |ts| && ts[k] == Column(t, names[i]) :: out[i] == row[k]
  }

  /** The answer of a query: the rows that pass the filter, in the order of the table, each with its named columns. */
  predicate IsAnswer(e: Expr, t: string, ts: Schema, names: seq<string>, rows: seq<Row>, answer: seq<Row>)
    requires forall r | r in rows :: |r| == |ts|
  {
    if rows == [] then answer == []
    else if Holds(e, rows[0]) then
      answer != [] && Shows(t, ts, names, rows[0], answer[0]) && IsAnswer(e, t, ts, names, rows[1..], answer[1..])
    else IsAnswer(e, t, ts, names, rows[1..], answer)
  }

  lemma {:induction false} ProjectionShows(t: string, ts: Schema, names: seq<string>, row: Row)
    requires Distinct(ts) && |row| == |ts|
    ensures Shows(t, ts, names, row, Project(ProjectedColumns(t, ts, names), row))
  {
  }

  lemma {:induction false} ProjectionIsAnswer(e: Expr, t: string, ts: Schema, names: seq<string>, rows: seq<Row>)
    requires Distinct(ts) && forall r | r in rows :: |r| == |ts|
    ensures forall r | r in Filtered(e, rows) :: r in rows
    ensures IsAnswer(e, t, ts, names, rows, ProjectAll(ProjectedColumns(t, ts, names), Filtered(e, rows)))
  {
    FilteredAreRows(e, rows);
    if rows != [] {
      var columns, rest := ProjectedColumns(t, ts, names), rows[1..];
      FilteredAreRows(e, rest);
      ProjectionIsAnswer(e, t, ts, names, rest);
      FilteredStep(e, rows);
      if Holds(e, rows[0]) {
        ProjectionShows(t, ts, names, rows[0]);
        ProjectStep(columns, rows[0], Filtered(e, rest));
      }
    }
  }

  predicate Readable(lookup: Option<Lookup>) {
    lookup.Some? ==> MatchExpression(lookup.value).Ok?
  }

  /** With a sound lookup there is an answer iff the lookup can be read, and it is the right one. */
  lemma {:induction false} LookupAnswers(e: Expr, t: string, ts: Schema, names: seq<string>, lookup: Option<Lookup>,
                                         rows: seq<Row>)
    requires Distinct(ts) && KeepsColumns(e, t, ts, names) && forall r | r in rows :: |r| == |ts|
    requires SoundFor(lookup, e, rows)
    ensures PushedDown(e, t, ts, names, lookup, rows).Ok? <==> Readable(lookup)
    ensures PushedDown(e, t, ts, names, lookup, rows).Ok? ==>
      IsAnswer(e, t, ts, names, rows, PushedDown(e, t, ts, names, lookup, rows).value)
  {
    if Readable(lookup) {
      PushdownPreservesRows(e, t, ts, names, lookup, rows);
      ProjectionIsAnswer(e, t, ts, names, rows);
    } else {
      UnreadableFails(e, t, ts, names, lookup.value, rows);
    }
  }

  /** End to end: the planned query has an answer iff planning succeeds and the lookup of the table, if there is one,
      can be read, and that answer is the right one.  A filter with numbers wherever it meets an index, or a single
      equality, has an answer. */
  lemma {:induction false} PlannedQueryIsCorrect(cat: Catalog, e: Expr, t: string, ts: Schema, names: seq<string>,
                                                 rows: seq<Row>)
    requires Distinct(ts) && KeepsColumns(e, t, ts, names) && forall r | r in rows :: |r| == |ts|
    requires CatalogFor(cat, t, ts)
    requires forall r | r in rows :: Plannable(e, true, r)
    ensures var answer := PlannedQuery(cat, e, t, ts, names, rows);
      && (answer.Ok? ==> IsAnswer(e, t, ts, names, rows, answer.value))
      && (answer.Ok? <==> GetIndexes(cat, e).Ok? && Readable(LookupFor(GetIndexes(cat, e).value, t)))
    ensures ReadableFilter(cat, e, true) || (e.Cmp? && e.op == Eq) ==> PlannedQuery(cat, e, t, ts, names, rows).Ok?
  {
    if ReadableFilter(cat, e, true) || (e.Cmp? && e.op == Eq) { PlannedLookupIsReadable(cat, e, t); }
    if GetIndexes(cat, e).Ok? {
      var plan := GetIndexes(cat, e).value;
      PlannedLookupIsSound(cat, e, t, ts, rows, plan);
      LookupAnswers(e, t, ts, names, LookupFor(plan, t), rows);
    }
  }
}
