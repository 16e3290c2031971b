/** Which plans are run in parallel, and that it makes no difference to the rows: `parallelize`,
    `isParallelizable`, `removeRedundantExchanges` and the plan every worker of an exchange runs. */
module Parallel {
  import opened Values
  import opened Expressions
  import opened Sums
  import opened Exchange
  import MemoryTable

  /** A plan.  `Other` is every operator that is not parallelized, with any number of children. */
  datatype Node =
    | Table(parts: seq<seq<Row>>)
    | Filter(cond: Expr, child: Node)
    | Project(exprs: seq<Expr>, child: Node)
    | TableAlias(name: string, child: Node)
    | Exchanged(parallelism: nat, child: Node)
    | Other(children: seq<Node>)

  // ----- which plans

  /** The flags `isParallelizable` sets during its traversal. */
  datatype Flags = Flags(ok: bool, tableSeen: bool, lastWasTable: bool)

  /** The traversal of a plan; it does not descend below a refused operator. */
  function Inspect(n: Node, f: Flags): Flags {
    match n
    case Table(_) => f.(lastWasTable := true, tableSeen := true)
    case Other(_) => f.(ok := false, lastWasTable := false)
    case _ => Inspect(n.child, f.(lastWasTable := false))
  }

  predicate IsParallelizable(n: Node) {
    var f := Inspect(n, Flags(true, false, false));
    f.ok && f.tableSeen && f.lastWasTable
  }

  /** Row-local operators above one table. */
  predicate RowLocal(n: Node) {
    match n
    case Table(_) => true
    case Other(_) => false
    case _ => RowLocal(n.child)
  }

  lemma {:induction false} InspectMeans(n: Node, f: Flags)
    ensures Inspect(n, f).ok == (f.ok && RowLocal(n))
    ensures RowLocal(n) ==> Inspect(n, f).tableSeen && Inspect(n, f).lastWasTable
  {
    match n
    case Table(_) =>
    case Other(_) =>
    case _ => InspectMeans(n.child, f.(lastWasTable := false));
  }

  /** The accepted plans are the row-local ones. */
  lemma {:induction false} ParallelizableIff(n: Node)
    ensures IsParallelizable(n) <==> RowLocal(n)
  {
    InspectMeans(n, Flags(true, false, false));
  }

  // ----- the rewrite

  /** Bottom-up: an exchange above every parallelizable subplan. */
  function AddExchanges(p: nat, n: Node): Node
    decreases n, 1
  {
    var m := match n
      case Table(_) => n
      case Other(cs) => Other(AddExchangesToAll(p, cs))
      case Filter(e, c) => Filter(e, AddExchanges(p, c))
      case Project(es, c) => Project(es, AddExchanges(p, c))
      case TableAlias(a, c) => TableAlias(a, AddExchanges(p, c))
      case Exchanged(k, c) => Exchanged(k, AddExchanges(p, c));
    if IsParallelizable(m) then Exchanged(p, m) else m
  }

  function AddExchangesToAll(p: nat, ns: seq<Node>): (r: seq<Node>)
    ensures |r| == |ns| && forall i | 0 <= i < |ns| :: r[i] == AddExchanges(p, ns[i])
    decreases ns, 0
  {
    if ns == [] then [] else [AddExchanges(p, ns[0])] + AddExchangesToAll(p, ns[1..])
  }

  /** The plan with every exchange replaced by its child. */
  function Strip(n: Node): Node
    decreases n, 1
  {
    match n
    case Table(_) => n
    case Other(cs) => Other(StripAll(cs))
    case Filter(e, c) => Filter(e, Strip(c))
    case Project(es, c) => Project(es, Strip(c))
    case TableAlias(a, c) => TableAlias(a, Strip(c))
    case Exchanged(_, c) => Strip(c)
  }

  function StripAll(ns: seq<Node>): (r: seq<Node>)
    ensures |r| == |ns| && forall i | 0 <= i < |ns| :: r[i] == Strip(ns[i])
    decreases ns, 0
  {
    if ns == [] then [] else [Strip(ns[0])] + StripAll(ns[1..])
  }

  /** `removeRedundantExchanges`, bottom-up over the plan. */
  function RemoveRedundant(n: Node): Node
    decreases n, 1
  {
    match n
    case Table(_) => n
    case Other(cs) => Other(RemoveRedundantInAll(cs))
    case Filter(e, c) => Filter(e, RemoveRedundant(c))
    case Project(es, c) => Project(es, RemoveRedundant(c))
    case TableAlias(a, c) => TableAlias(a, RemoveRedundant(c))
    case Exchanged(p, c) => Exchanged(p, Strip(RemoveRedundant(c)))
  }

  function RemoveRedundantInAll(ns: seq<Node>): (r: seq<Node>)
    ensures |r| == |ns| && forall i | 0 <= i < |ns| :: r[i] == RemoveRedundant(ns[i])
    decreases ns, 0
  {
    if ns == [] then [] else [RemoveRedundant(ns[0])] + RemoveRedundantInAll(ns[1..])
  }

  function Parallelize(p: nat, n: Node): Node {
    if p <= 1 then n else RemoveRedundant(AddExchanges(p, n))
  }

  /** No exchange at all. */
  predicate Plain(n: Node) {
    match n
    case Table(_) => true
    case Other(cs) => forall c | c in cs :: Plain(c)
    case Exchanged(_, _) => false
    case _ => Plain(n.child)
  }

  /** Every exchange is above a row-local plan without another exchange. */
  predicate Settled(n: Node) {
    match n
    case Table(_) => true
    case Other(cs) => forall c | c in cs :: Settled(c)
    case Exchanged(_, c) => RowLocal(c) && Plain(c)
    case _ => Settled(n.child)
  }

  lemma {:induction false} StripIsPlain(n: Node)
    ensures Plain(Strip(n)) && RowLocal(Strip(n)) == RowLocal(n)
  {
    match n
    case Table(_) =>
    case Other(cs) =>
      forall c | c in StripAll(cs) ensures Plain(c) {
        var i :| 0 <= i < |cs| && c == Strip(cs[i]);
        StripIsPlain(cs[i]);
      }
    case _ => StripIsPlain(n.child);
  }

  lemma {:induction false} PlainStrips(n: Node)
    requires Plain(n)
    ensures Strip(n) == n
  {
    if n.Other? {
      var cs := n.children;
      forall i | 0 <= i < |cs| ensures StripAll(cs)[i] == cs[i] { PlainStrips(cs[i]); }
      assert StripAll(cs) == cs;
    } else if !n.Table? {
      PlainStrips(n.child);
    }
  }

  /** Adding exchanges changes nothing else, and puts one above every row-local plan. */
  lemma {:induction false} AddingOnlyAdds(p: nat, n: Node)
    ensures Strip(AddExchanges(p, n)) == Strip(n)
    ensures RowLocal(AddExchanges(p, n)) == RowLocal(n)
    ensures RowLocal(n) ==> AddExchanges(p, n).Exchanged? && AddExchanges(p, n).parallelism == p
  {
    match n
    case Table(_) => ParallelizableIff(n);
    case Other(cs) =>
      var m := Other(AddExchangesToAll(p, cs));
      ParallelizableIff(m);
      forall i | 0 <= i < |cs| ensures StripAll(m.children)[i] == StripAll(cs)[i] { AddingOnlyAdds(p, cs[i]); }
      assert StripAll(m.children) == StripAll(cs);
    case Filter(e, c) => AddingOnlyAdds(p, c); ParallelizableIff(Filter(e, AddExchanges(p, c)));
    case Project(es, c) => AddingOnlyAdds(p, c); ParallelizableIff(Project(es, AddExchanges(p, c)));
    case TableAlias(a, c) => AddingOnlyAdds(p, c); ParallelizableIff(TableAlias(a, AddExchanges(p, c)));
    case Exchanged(k, c) => AddingOnlyAdds(p, c); ParallelizableIff(Exchanged(k, AddExchanges(p, c)));
  }

  /** Every exchange of the plan is above a row-local plan. */
  predicate WellPlaced(n: Node) {
    match n
    case Table(_) => true
    case Other(cs) => forall c | c in cs :: WellPlaced(c)
    case Exchanged(_, c) => RowLocal(c)
    case _ => WellPlaced(n.child)
  }

  lemma {:induction false} AddingPlacesWell(p: nat, n: Node)
    requires WellPlaced(n)
    ensures WellPlaced(AddExchanges(p, n))
  {
    match n
    case Table(_) =>
    case Other(cs) =>
      var m := Other(AddExchangesToAll(p, cs));
      ParallelizableIff(m);
      forall c | c in m.children ensures WellPlaced(c) {
        var i :| 0 <= i < |cs| && c == AddExchanges(p, cs[i]);
        AddingPlacesWell(p, cs[i]);
      }
    case Filter(e, c) => AddingPlacesWell(p, c); ParallelizableIff(Filter(e, AddExchanges(p, c)));
    case Project(es, c) => AddingPlacesWell(p, c); ParallelizableIff(Project(es, AddExchanges(p, c)));
    case TableAlias(a, c) => AddingPlacesWell(p, c); ParallelizableIff(TableAlias(a, AddExchanges(p, c)));
    case Exchanged(k, c) => AddingOnlyAdds(p, c); ParallelizableIff(Exchanged(k, AddExchanges(p, c)));
  }

  lemma {:induction false} RemovingSettles(n: Node)
    requires WellPlaced(n)
    ensures Settled(RemoveRedundant(n)) && Strip(RemoveRedundant(n)) == Strip(n)
  {
    match n
    case Table(_) =>
    case Other(cs) =>
      var rs := RemoveRedundantInAll(cs);
      forall i | 0 <= i < |cs| ensures Settled(rs[i]) && Strip(rs[i]) == Strip(cs[i]) { RemovingSettles(cs[i]); }
      assert StripAll(rs) == StripAll(cs);
    case Filter(_, c) => RemovingSettles(c);
    case Project(_, c) => RemovingSettles(c);
    case TableAlias(_, c) => RemovingSettles(c);
    case Exchanged(_, c) =>
      RemovingStrips(c);
      StripIsPlain(c);
      PlainStrips(Strip(c));
  }

  lemma {:induction false} RemovingStrips(n: Node)
    ensures Strip(RemoveRedundant(n)) == Strip(n)
  {
    match n
    case Table(_) =>
    case Other(cs) =>
      var rs := RemoveRedundantInAll(cs);
      forall i | 0 <= i < |cs| ensures Strip(rs[i]) == Strip(cs[i]) { RemovingStrips(cs[i]); }
      assert StripAll(rs) == StripAll(cs);
    case Exchanged(_, c) =>
      RemovingStrips(c);
      StripIsPlain(c);
      PlainStrips(Strip(c));
    case _ => RemovingStrips(n.child);
  }

  /** The rewrite adds exchanges and nothing else, each above a row-local plan without another exchange; a
      row-local plan ends up below exactly one. */
  lemma {:induction false} ParallelizeIsSettled(p: nat, n: Node)
    requires Plain(n)
    ensures Settled(Parallelize(p, n)) && Strip(Parallelize(p, n)) == n
    ensures p > 1 && RowLocal(n) ==> Parallelize(p, n) == Exchanged(p, n)
  {
    PlainIsPlaced(n);
    PlainStrips(n);
    AddingPlacesWell(p, n);
    AddingOnlyAdds(p, n);
    RemovingSettles(AddExchanges(p, n));
    if p > 1 && RowLocal(n) {
      RemovingStrips(AddExchanges(p, n).child);
    } else if p <= 1 {
      PlainIsSettled(n);
    }
  }

  lemma {:induction false} PlainIsPlaced(n: Node)
    requires Plain(n)
    ensures WellPlaced(n)
  {
    if n.Other? {
      forall c | c in n.children ensures WellPlaced(c) { PlainIsPlaced(c); }
    } else if !n.Table? {
      PlainIsPlaced(n.child);
    }
  }

  lemma {:induction false} PlainIsSettled(n: Node)
    requires Plain(n)
    ensures Settled(n)
  {
    if n.Other? {
      forall c | c in n.children ensures Settled(c) { PlainIsSettled(c); }
    } else if !n.Table? {
      PlainIsSettled(n.child);
    }
  }

  /** One exchange above every row-local subplan that is not part of a larger one. */
  function Maximal(p: nat, n: Node): Node
    decreases n, 1
  {
    if RowLocal(n) then Exchanged(p, n) else
    match n
    case Table(_) => n
    case Other(cs) => Other(MaximalInAll(p, cs))
    case Filter(e, c) => Filter(e, Maximal(p, c))
    case Project(es, c) => Project(es, Maximal(p, c))
    case TableAlias(a, c) => TableAlias(a, Maximal(p, c))
    case Exchanged(k, c) => Exchanged(k, Maximal(p, c))
  }

  function MaximalInAll(p: nat, ns: seq<Node>): (r: seq<Node>)
    ensures |r| == |ns| && forall i | 0 <= i < |ns| :: r[i] == Maximal(p, ns[i])
    decreases ns, 0
  {
    if ns == [] then [] else [Maximal(p, ns[0])] + MaximalInAll(p, ns[1..])
  }

  lemma {:induction false} RewriteIsMaximal(p: nat, n: Node)
    requires Plain(n)
    ensures RemoveRedundant(AddExchanges(p, n)) == Maximal(p, n)
  {
    AddingOnlyAdds(p, n);
    PlainStrips(n);
    if RowLocal(n) {
      RemovingStrips(AddExchanges(p, n).child);
    } else {
      match n
      case Table(_) =>
      case Other(cs) =>
        var m := Other(AddExchangesToAll(p, cs));
        ParallelizableIff(m);
        var rs := RemoveRedundantInAll(m.children);
        forall i | 0 <= i < |cs| ensures rs[i] == MaximalInAll(p, cs)[i] { RewriteIsMaximal(p, cs[i]); }
        assert rs == MaximalInAll(p, cs);
      case Filter(e, c) => RewriteIsMaximal(p, c); UnaryStays(p, Filter(e, AddExchanges(p, c)), c);
      case Project(es, c) => RewriteIsMaximal(p, c); UnaryStays(p, Project(es, AddExchanges(p, c)), c);
      case TableAlias(a, c) => RewriteIsMaximal(p, c); UnaryStays(p, TableAlias(a, AddExchanges(p, c)), c);
    }
  }

  /** Above a plan that is not row-local no exchange is added. */
  lemma {:induction false} UnaryStays(p: nat, m: Node, c: Node)
    requires !m.Table? && !m.Other? && m.child == AddExchanges(p, c) && !RowLocal(c)
    ensures !IsParallelizable(m)
  {
    AddingOnlyAdds(p, c);
    ParallelizableIff(m);
  }

  /** With any parallelism, the rewrite puts exactly one exchange above every maximal row-local subplan of the plan,
      wherever it is, and changes nothing else. */
  lemma {:induction false} ParallelizeIsMaximal(p: nat, n: Node)
    requires Plain(n)
    ensures Parallelize(p, n) == if p <= 1 then n else Maximal(p, n)
  {
    RewriteIsMaximal(p, n);
  }

  // ----- the rows of a row-local plan

  function FilterRows(e: Expr, rows: seq<Row>): Result<seq<Row>> {
    if rows == [] then Ok([]) else
    var v :- Eval(e, rows[0]);
    var rest :- FilterRows(e, rows[1..]);
    Ok((if Truthy(v) then [rows[0]] else []) + rest)
  }

  function ProjectRows(es: seq<Expr>, rows: seq<Row>): Result<seq<Row>> {
    if rows == [] then Ok([]) else
    var r :- EvalAll(es, rows[0]);
    var rest :- ProjectRows(es, rows[1..]);
    Ok([r] + rest)
  }

  /** The rows of a row-local plan whose table yields the given rows; an error if any row fails. */
  function RowsFrom(n: Node, rows: seq<Row>): Result<seq<Row>>
    requires RowLocal(n)
  {
    match n
    case Table(_) => Ok(rows)
    case Filter(e, c) =>
      var rs :- RowsFrom(c, rows);
      FilterRows(e, rs)
    case Project(es, c) =>
      var rs :- RowsFrom(c, rows);
      ProjectRows(es, rs)
    case TableAlias(_, c) => RowsFrom(c, rows)
    case Exchanged(_, c) => RowsFrom(c, rows)
  }

  /** The partitions of the table below a row-local plan. */
  function Partitions(n: Node): seq<seq<Row>>
    requires RowLocal(n)
  {
    if n.Table? then n.parts else Partitions(n.child)
  }

  /** The sequential rows: the table iterator goes through the partitions one after the other. */
  function SequentialRows(n: Node): Result<seq<Row>>
    requires RowLocal(n)
  {
    RowsFrom(n, Flatten(Partitions(n)))
  }

  // ----- what the rows of a row-local plan are

  /** All expressions evaluate on all rows. */
  predicate AllEvaluate(es: seq<Expr>, rows: seq<Row>) {
    forall e, r | e in es && r in rows :: Eval(e, r).Ok?
  }

  lemma {:induction false} EvaluatesOnRow(es: seq<Expr>, row: Row)
    ensures EvalAll(es, row).Ok? <==> forall e | e in es :: Eval(e, row).Ok?
  {
    var vs := EvalAll(es, row);
    if vs.Ok? {
      forall e | e in es ensures Eval(e, row).Ok? {
        var i :| 0 <= i < |es| && es[i] == e;
        assert Eval(es[i], row) == Ok(vs.value[i]);
      }
    }
  }

  /** The rows of a row-local plan, by what its operators are for: a filter keeps the rows on which its condition holds,
      a projection gives for every row the values of its expressions; both fail iff an evaluation fails. */
  function PlanRows(n: Node): Result<seq<Row>>
    requires RowLocal(n)
  {
    match n
    case Table(parts) => Ok(Flatten(parts))
    case Filter(e, c) =>
      var rs :- PlanRows(c);
      if MemoryTable.Evaluates(e, rs) then Ok(MemoryTable.Filtered(e, rs)) else Err
    case Project(es, c) =>
      var rs :- PlanRows(c);
      if AllEvaluate(es, rs) then Ok(Projected(es, rs)) else Err
    case TableAlias(_, c) => PlanRows(c)
    case Exchanged(_, c) => PlanRows(c)
  }

  function Projected(es: seq<Expr>, rows: seq<Row>): (r: seq<Row>)
    requires AllEvaluate(es, rows)
    ensures |r| == |rows|
    ensures forall i, k | 0 <= i < |r| && 0 <= k < |es| :: |r[i]| == |es| && Eval(es[k], rows[i]) == Ok(r[i][k])
  {
    seq(|rows|, i requires 0 <= i < |rows| => assert rows[i] in rows; EvaluatesOnRow(es, rows[i]); EvalAll(es,
      rows[i]).value)
  }

  lemma {:induction false} FilterRowsMean(e: Expr, rows: seq<Row>)
    ensures FilterRows(e, rows).Ok? <==> MemoryTable.Evaluates(e, rows)
    ensures FilterRows(e, rows).Ok? ==> FilterRows(e, rows).value == MemoryTable.Filtered(e, rows)
  {
    if rows != [] {
      FilterRowsMean(e, rows[1..]);
      assert rows[0] in rows && forall r :: r in rows <==> r == rows[0] || r in rows[1..];
    }
  }

  lemma {:induction false} ProjectRowsMean(es: seq<Expr>, rows: seq<Row>)
    ensures ProjectRows(es, rows).Ok? <==> AllEvaluate(es, rows)
    ensures AllEvaluate(es, rows) ==> ProjectRows(es, rows).value == Projected(es, rows)
  {
    if rows != [] {
      ProjectRowsMean(es, rows[1..]);
      EvaluatesOnRow(es, rows[0]);
      assert rows[0] in rows && forall r :: r in rows <==> r == rows[0] || r in rows[1..];
      if AllEvaluate(es, rows) {
        assert AllEvaluate(es, rows[1..]);
        assert Projected(es, rows) == [EvalAll(es, rows[0]).value] + Projected(es, rows[1..]);
      }
    }
  }

  /** The sequential run computes the rows of the plan. */
  lemma {:induction false} SequentialRowsMean(n: Node)
    requires RowLocal(n)
    ensures SequentialRows(n) == PlanRows(n)
  {
    match n
    case Table(_) =>
    case Filter(e, c) =>
      SequentialRowsMean(c);
      if PlanRows(c).Ok? { FilterRowsMean(e, PlanRows(c).value); }
    case Project(es, c) =>
      SequentialRowsMean(c);
      if PlanRows(c).Ok? { ProjectRowsMean(es, PlanRows(c).value); }
    case TableAlias(_, c) => SequentialRowsMean(c);
    case Exchanged(_, c) => SequentialRowsMean(c);
  }

  // ----- partition by partition

  /** Both results, one after the other. */
  function Concat(a: Result<seq<Row>>, b: Result<seq<Row>>): Result<seq<Row>> {
    if a.Ok? && b.Ok? then Ok(a.value + b.value) else Err
  }

  lemma {:induction false} Assoc(h: seq<Row>, a: Result<seq<Row>>, b: Result<seq<Row>>)
    ensures a.Ok? && b.Ok? ==> h + Concat(a, b).value == h + a.value + b.value
  {
  }

  lemma {:induction false} FilterConcat(e: Expr, a: seq<Row>, b: seq<Row>)
    ensures FilterRows(e, a + b) == Concat(FilterRows(e, a), FilterRows(e, b))
  {
    if a == [] {
      assert a + b == b;
      assert FilterRows(e, b).Ok? ==> [] + FilterRows(e, b).value == FilterRows(e, b).value;
    } else {
      assert (a + b)[1..] == a[1..] + b;
      FilterConcat(e, a[1..], b);
      var h := if Eval(e, a[0]).Ok? && Truthy(Eval(e, a[0]).value) then [a[0]] else [];
      Assoc(h, FilterRows(e, a[1..]), FilterRows(e, b));
    }
  }

  lemma {:induction false} ProjectConcat(es: seq<Expr>, a: seq<Row>, b: seq<Row>)
    ensures ProjectRows(es, a + b) == Concat(ProjectRows(es, a), ProjectRows(es, b))
  {
    if a == [] {
      assert a + b == b;
      assert ProjectRows(es, b).Ok? ==> [] + ProjectRows(es, b).value == ProjectRows(es, b).value;
    } else {
      assert (a + b)[1..] == a[1..] + b;
      ProjectConcat(es, a[1..], b);
      var h := if EvalAll(es, a[0]).Ok? then [EvalAll(es, a[0]).value] else [];
      Assoc(h, ProjectRows(es, a[1..]), ProjectRows(es, b));
    }
  }

  /** Row-local plans distribute over concatenation. */
  lemma {:induction false} RowsConcat(n: Node, a: seq<Row>, b: seq<Row>)
    requires RowLocal(n)
    ensures RowsFrom(n, a + b) == Concat(RowsFrom(n, a), RowsFrom(n, b))
  {
    match n
    case Table(_) =>
    case Filter(e, c) =>
      RowsConcat(c, a, b);
      if RowsFrom(c, a + b).Ok? { FilterConcat(e, RowsFrom(c, a).value, RowsFrom(c, b).value); }
    case Project(es, c) =>
      RowsConcat(c, a, b);
      if RowsFrom(c, a + b).Ok? { ProjectConcat(es, RowsFrom(c, a).value, RowsFrom(c, b).value); }
    case TableAlias(_, c) => RowsConcat(c, a, b);
    case Exchanged(_, c) => RowsConcat(c, a, b);
  }

  lemma {:induction false} NoRows(n: Node)
    requires RowLocal(n)
    ensures RowsFrom(n, []) == Ok([])
  {
    if !n.Table? {
      NoRows(n.child);
    }
  }

  /** What the workers compute: the plan with its table replaced by one partition, for every partition. */
  function PartitionRows(n: Node, parts: seq<seq<Row>>): (r: Result<seq<seq<Row>>>)
    requires RowLocal(n)
    ensures r.Ok? ==> |r.value| == |parts| && forall i | 0 <= i < |parts| :: RowsFrom(n, parts[i]) == Ok(r.value[i])
  {
    if parts == [] then Ok([]) else
    var r :- RowsFrom(n, parts[0]);
    var rest :- PartitionRows(n, parts[1..]);
    Ok([r] + rest)
  }

  /** Working partition by partition fails iff the sequential plan fails, and gives the same rows. */
  lemma {:induction false} PartitionsConcat(n: Node, parts: seq<seq<Row>>)
    requires RowLocal(n)
    ensures PartitionRows(n, parts).Ok? <==> RowsFrom(n, Flatten(parts)).Ok?
    ensures PartitionRows(n, parts).Ok? ==> RowsFrom(n, Flatten(parts)).value == Flatten(PartitionRows(n, parts).value)
  {
    if parts == [] {
      NoRows(n);
    } else {
      RowsConcat(n, parts[0], Flatten(parts[1..]));
      PartitionsConcat(n, parts[1..]);
      if PartitionRows(n, parts).Ok? {
        assert PartitionRows(n, parts).value[1..] == PartitionRows(n, parts[1..]).value;
      }
    }
  }

  /** An accepted plan without errors, run under an exchange, yields a permutation of the rows of the plan in
      every interleaving that runs to its end. */
  lemma {:induction false} ParallelRowsArePermuted(n: Node, p: nat, run: seq<Event>, s: State)
    requires IsParallelizable(n) && p > 0
    requires RowLocal(n) ==> PlanRows(n).Ok?
    ensures RowLocal(n) && PartitionRows(n, Partitions(n)).Ok?
    ensures var c := Config(PartitionRows(n, Partitions(n)).value, p);
      After(c, run) == Some(s) && Stuck(c, s) ==> multiset(Untag(s.delivered)) == multiset(PlanRows(n).value)
  {
    ParallelizableIff(n);
    SequentialRowsMean(n);
    PartitionsConcat(n, Partitions(n));
    var c := Config(PartitionRows(n, Partitions(n)).value, p);
    if After(c, run) == Some(s) && Stuck(c, s) {
      MaximalRunsDeliver(c, run, s);
    }
  }
}
