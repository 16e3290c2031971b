/** Expressions and their three-valued evaluation, exactly as the engine computes it: in particular
    `Or` answers false, not NULL, for one false and one NULL operand. */
module Expressions {
  import opened Values

  datatype CmpOp = Eq | Lt | Le | Gt | Ge

  datatype Expr =
    | Lit(v: Value)
    | Field(idx: int, table: string, name: string)
    | Cmp(op: CmpOp, l: Expr, r: Expr)
    | InList(negated: bool, e: Expr, list: seq<Expr>)
    | Between(e: Expr, lo: Expr, hi: Expr)
    | Not(e: Expr)
    | And(l: Expr, r: Expr)
    | Or(l: Expr, r: Expr)
    | IsNull(e: Expr)
    | Subquery(v: Value)   // an uncorrelated scalar subquery, by its value

  function Compare(op: CmpOp, a: int, b: int): bool {
    match op
    case Eq => a == b
    case Lt => a < b
    case Le => a <= b
    case Gt => a > b
    case Ge => a >= b
  }

  function CompareValues(op: CmpOp, a: Value, b: Value): Value {
    if a == Null || b == Null then Null else Bool(Compare(op, AsInt(a), AsInt(b)))
  }

  function Negate(v: Value): Value {
    if v == Null then Null else Bool(!Truthy(v))
  }

  function EvalBetween(v: Value, lo: Value, hi: Value): Value {
    if v == Null || lo == Null || hi == Null then Null
    else Bool(AsInt(lo) <= AsInt(v) <= AsInt(hi))
  }

  /** The value of an AND from the values of its operands. */
  function EvalAnd(a: Value, b: Value): Value {
    if Falsy(a) || Falsy(b) then Bool(false) else if a == Null || b == Null then Null else Bool(true)
  }

  /** The value of an OR from the values of its operands: one NULL beside FALSE gives FALSE. */
  function EvalOr(a: Value, b: Value): Value {
    if Truthy(a) || Truthy(b) then Bool(true) else if a == Null && b == Null then Null else Bool(false)
  }

  function Eval(e: Expr, row: Row): Result<Value>
    decreases e, 1
  {
    match e
    case Lit(v) => Ok(v)
    case Field(i, _, _) => if 0 <= i < |row| then Ok(row[i]) else Err
    case Cmp(op, l, r) =>
      var lv :- Eval(l, row);
      var rv :- Eval(r, row);
      Ok(CompareValues(op, lv, rv))
    case InList(negated, x, list) =>
      var v :- Eval(x, row);
      if v == Null then Ok(Null) else
      var found :- EvalMember(v, list, row);
      Ok(Bool(found != negated))
    case Between(x, lo, hi) =>
      var v :- Eval(x, row);
      if v == Null then Ok(Null) else
      var lv :- Eval(lo, row);
      if lv == Null then Ok(Null) else
      var hv :- Eval(hi, row);
      Ok(EvalBetween(v, lv, hv))
    case Not(x) =>
      var v :- Eval(x, row);
      Ok(Negate(v))
    case And(l, r) =>
      var lv :- Eval(l, row);
      if Falsy(lv) then Ok(Bool(false)) else
      var rv :- Eval(r, row);
      if Falsy(rv) then Ok(Bool(false))
      else if lv == Null || rv == Null then Ok(Null)
      else Ok(Bool(true))
    case Or(l, r) =>
      var lv :- Eval(l, row);
      if Truthy(lv) then Ok(Bool(true)) else
      var rv :- Eval(r, row);
      if Truthy(rv) then Ok(Bool(true))
      else if lv == Null && rv == Null then Ok(Null)
      else Ok(Bool(rv == Bool(true)))
    case IsNull(x) =>
      var v :- Eval(x, row);
      Ok(Bool(v == Null))
    case Subquery(v) => Ok(v)
  }

  /** Whether some element of an IN list equals `v`; elements after the match are not evaluated and
      a NULL element never matches. */
  function EvalMember(v: Value, list: seq<Expr>, row: Row): Result<bool>
    decreases list, 0
  {
    if list == [] then Ok(false) else
    var x :- Eval(list[0], row);
    if x != Null && AsInt(x) == AsInt(v) then Ok(true) else EvalMember(v, list[1..], row)
  }

  /** The row passes the condition: `sql.EvaluateCondition` answers true without error. */
  predicate Holds(e: Expr, row: Row) {
    Eval(e, row).Ok? && Truthy(Eval(e, row).value)
  }

  /** `conditionIsTrue`, the test of the join iterators: only the boolean true passes. */
  predicate IsTrue(e: Expr, row: Row) {
    Eval(e, row) == Ok(Bool(true))
  }

  /** Every field reference lies inside a row of `n` values. */
  predicate InRange(e: Expr, n: nat) {
    match e
    case Lit(_) => true
    case Subquery(_) => true
    case Field(i, _, _) => 0 <= i < n
    case Cmp(_, l, r) => InRange(l, n) && InRange(r, n)
    case InList(_, x, list) => InRange(x, n) && forall y | y in list :: InRange(y, n)
    case Between(x, lo, hi) => InRange(x, n) && InRange(lo, n) && InRange(hi, n)
    case Not(x) => InRange(x, n)
    case And(l, r) => InRange(l, n) && InRange(r, n)
    case Or(l, r) => InRange(l, n) && InRange(r, n)
    case IsNull(x) => InRange(x, n)
  }

  lemma {:induction false} InRangeEvaluates(e: Expr, row: Row)
    requires InRange(e, |row|)
    ensures Eval(e, row).Ok?
    decreases e, 1
  {
    match e
    case Lit(_) =>
    case Subquery(_) =>
    case Field(_, _, _) =>
    case Cmp(_, l, r) => InRangeEvaluates(l, row); InRangeEvaluates(r, row);
    case InList(_, x, list) =>
      InRangeEvaluates(x, row);
      MemberEvaluates(Eval(x, row).value, list, row);
    case Between(x, lo, hi) =>
      InRangeEvaluates(x, row); InRangeEvaluates(lo, row); InRangeEvaluates(hi, row);
    case Not(x) => InRangeEvaluates(x, row);
    case And(l, r) => InRangeEvaluates(l, row); InRangeEvaluates(r, row);
    case Or(l, r) => InRangeEvaluates(l, row); InRangeEvaluates(r, row);
    case IsNull(x) => InRangeEvaluates(x, row);
  }

  lemma {:induction false} MemberEvaluates(v: Value, list: seq<Expr>, row: Row)
    requires forall y | y in list :: InRange(y, |row|)
    ensures EvalMember(v, list, row).Ok?
    decreases list, 0
  {
    if list != [] {
      InRangeEvaluates(list[0], row);
      MemberEvaluates(v, list[1..], row);
    }
  }

  lemma {:induction false} AndHolds(l: Expr, r: Expr, row: Row)
    ensures Holds(And(l, r), row) <==> Holds(l, row) && Holds(r, row)
  {
  }

  /** An IN list element equals `v` iff some element does, provided all of them evaluate. */
  lemma {:induction false} MemberMeans(v: Value, list: seq<Expr>, row: Row)
    requires v != Null
    requires EvalMember(v, list, row).Ok?
    ensures EvalMember(v, list, row).value ==>
      exists y | y in list :: Eval(y, row).Ok? && Eval(y, row).value != Null && AsInt(Eval(y, row).value) == AsInt(v)
    ensures !EvalMember(v, list, row).value ==>
      forall y | y in list :: Eval(y, row).Ok? && (Eval(y, row).value == Null || AsInt(Eval(y, row).value) != AsInt(v))
  {
    if list != [] {
      var x := Eval(list[0], row).value;
      if !(x != Null && AsInt(x) == AsInt(v)) {
        MemberMeans(v, list[1..], row);
        assert forall y :: y in list <==> y == list[0] || y in list[1..];
      } else {
        assert list[0] in list;
      }
    }
  }

  /** `isEvaluable`: no column and no subquery anywhere. */
  predicate IsEvaluable(e: Expr) {
    match e
    case Lit(_) => true
    case Subquery(_) => false
    case Field(_, _, _) => false
    case Cmp(_, l, r) => IsEvaluable(l) && IsEvaluable(r)
    case InList(_, x, list) => IsEvaluable(x) && forall y | y in list :: IsEvaluable(y)
    case Between(x, lo, hi) => IsEvaluable(x) && IsEvaluable(lo) && IsEvaluable(hi)
    case Not(x) => IsEvaluable(x)
    case And(l, r) => IsEvaluable(l) && IsEvaluable(r)
    case Or(l, r) => IsEvaluable(l) && IsEvaluable(r)
    case IsNull(x) => IsEvaluable(x)
  }

  /** An evaluable expression needs no row: it evaluates, to the same value on every row. */
  lemma {:induction false} EvaluableIsConstant(e: Expr, row: Row)
    requires IsEvaluable(e)
    ensures Eval(e, row).Ok? && Eval(e, row) == Eval(e, [])
    decreases e, 1
  {
    match e
    case Lit(_) =>
    case Cmp(_, l, r) => EvaluableIsConstant(l, row); EvaluableIsConstant(r, row);
    case InList(_, x, list) =>
      EvaluableIsConstant(x, row);
      EvaluableMember(Eval(x, row).value, list, row);
    case Between(x, lo, hi) =>
      EvaluableIsConstant(x, row); EvaluableIsConstant(lo, row); EvaluableIsConstant(hi, row);
    case Not(x) => EvaluableIsConstant(x, row);
    case And(l, r) => EvaluableIsConstant(l, row); EvaluableIsConstant(r, row);
    case Or(l, r) => EvaluableIsConstant(l, row); EvaluableIsConstant(r, row);
    case IsNull(x) => EvaluableIsConstant(x, row);
  }

  lemma {:induction false} EvaluableMember(v: Value, list: seq<Expr>, row: Row)
    requires forall y | y in list :: IsEvaluable(y)
    ensures EvalMember(v, list, row).Ok? && EvalMember(v, list, row) == EvalMember(v, list, [])
    decreases list, 0
  {
    if list != [] {
      EvaluableIsConstant(list[0], row);
      EvaluableMember(v, list[1..], row);
    }
  }

  /** The expression without its field positions: what `String()` shows of it.  Expressions are
      compared by their strings wherever an index is looked up. */
  function Erase(e: Expr): Expr {
    match e
    case Lit(_) => e
    case Subquery(_) => e
    case Field(_, t, n) => Field(0, t, n)
    case Cmp(op, l, r) => Cmp(op, Erase(l), Erase(r))
    case InList(neg, x, list) =>
      InList(neg, Erase(x), seq(|list|, i requires 0 <= i < |list| => Erase(list[i])))
    case Between(x, lo, hi) => Between(Erase(x), Erase(lo), Erase(hi))
    case Not(x) => Not(Erase(x))
    case And(l, r) => And(Erase(l), Erase(r))
    case Or(l, r) => Or(Erase(l), Erase(r))
    case IsNull(x) => IsNull(Erase(x))
  }

  /** Every field reference sits at the position its own column has in the schema. */
  predicate Resolved(e: Expr, s: Schema) {
    match e
    case Lit(_) => true
    case Subquery(_) => true
    case Field(i, t, n) => 0 <= i < |s| && s[i] == Column(t, n)
    case Cmp(_, l, r) => Resolved(l, s) && Resolved(r, s)
    case InList(_, x, list) => Resolved(x, s) && forall y | y in list :: Resolved(y, s)
    case Between(x, lo, hi) => Resolved(x, s) && Resolved(lo, s) && Resolved(hi, s)
    case Not(x) => Resolved(x, s)
    case And(l, r) => Resolved(l, s) && Resolved(r, s)
    case Or(l, r) => Resolved(l, s) && Resolved(r, s)
    case IsNull(x) => Resolved(x, s)
  }

  lemma {:induction false} ResolvedInRange(e: Expr, s: Schema)
    requires Resolved(e, s)
    ensures InRange(e, |s|)
  {
    match e
    case Lit(_) =>
    case Subquery(_) =>
    case Field(_, _, _) =>
    case Cmp(_, l, r) => ResolvedInRange(l, s); ResolvedInRange(r, s);
    case InList(_, x, list) =>
      ResolvedInRange(x, s);
      forall y | y in list ensures InRange(y, |s|) { ResolvedInRange(y, s); }
    case Between(x, lo, hi) => ResolvedInRange(x, s); ResolvedInRange(lo, s); ResolvedInRange(hi, s);
    case Not(x) => ResolvedInRange(x, s);
    case And(l, r) => ResolvedInRange(l, s); ResolvedInRange(r, s);
    case Or(l, r) => ResolvedInRange(l, s); ResolvedInRange(r, s);
    case IsNull(x) => ResolvedInRange(x, s);
  }

  /** Two rows give every column they share the same value. */
  predicate SameColumns(s: Schema, row: Row, s': Schema, row': Row) {
    && |s| == |row|
    && |s'| == |row'|
    && forall i, j :: 0 <= i < |s| && 0 <= j < |s'| && s[i] == s'[j] ==> row[i] == row'[j]
  }

  /** Evaluation depends on columns, not on positions: the same expression resolved against two
      schemas has one value on two rows that agree on their shared columns. */
  lemma {:induction false} SameValue(e: Expr, s: Schema, row: Row, e': Expr, s': Schema, row': Row)
    requires Resolved(e, s) && Resolved(e', s')
    requires Erase(e) == Erase(e')
    requires SameColumns(s, row, s', row')
    ensures Eval(e, row) == Eval(e', row')
    decreases e, 1
  {
    match e
    case Lit(_) =>
    case Subquery(_) =>
    case Field(_, _, _) =>
    case Cmp(_, l, r) => SameValue(l, s, row, e'.l, s', row'); SameValue(r, s, row, e'.r, s', row');
    case InList(_, _, _) => SameList(e, s, row, e', s', row');
    case Between(x, lo, hi) =>
      SameValue(x, s, row, e'.e, s', row');
      SameValue(lo, s, row, e'.lo, s', row');
      SameValue(hi, s, row, e'.hi, s', row');
    case Not(x) => SameValue(x, s, row, e'.e, s', row');
    case And(l, r) => SameValue(l, s, row, e'.l, s', row'); SameValue(r, s, row, e'.r, s', row');
    case Or(l, r) => SameValue(l, s, row, e'.l, s', row'); SameValue(r, s, row, e'.r, s', row');
    case IsNull(x) => SameValue(x, s, row, e'.e, s', row');
  }

  lemma {:induction false} SameList(e: Expr, s: Schema, row: Row, e': Expr, s': Schema, row': Row)
    requires e.InList? && Resolved(e, s) && Resolved(e', s') && Erase(e) == Erase(e')
    requires SameColumns(s, row, s', row')
    ensures Eval(e, row) == Eval(e', row')
    decreases e, 0
  {
    SameValue(e.e, s, row, e'.e, s', row');
    var el, el' := Erase(e).list, Erase(e').list;
    forall i | 0 <= i < |e.list| ensures Erase(e.list[i]) == Erase(e'.list[i]) {
      assert el[i] == el'[i];
    }
    if Eval(e.e, row).Ok? {
      SameMember(Eval(e.e, row).value, e.list, s, row, e'.list, s', row');
    }
  }

  lemma {:induction false} SameMember(v: Value, list: seq<Expr>, s: Schema, row: Row,
                                      list': seq<Expr>, s': Schema, row': Row)
    requires |list| == |list'|
    requires forall i | 0 <= i < |list| :: Erase(list[i]) == Erase(list'[i])
    requires forall y | y in list :: Resolved(y, s)
    requires forall y | y in list' :: Resolved(y, s')
    requires SameColumns(s, row, s', row')
    ensures EvalMember(v, list, row) == EvalMember(v, list', row')
    decreases list, 0
  {
    if list != [] {
      SameValue(list[0], s, row, list'[0], s', row');
      SameMember(v, list[1..], s, row, list'[1..], s', row');
    }
  }

  // ----- conjunctions

  /** `splitConjunction`. */
  function SplitConjunction(e: Expr): (r: seq<Expr>)
    ensures |r| > 0
    ensures forall row :: Holds(e, row) <==> forall c | c in r :: Holds(c, row)
  {
    match e
    case And(l, r) =>
      var ls, rs := SplitConjunction(l), SplitConjunction(r);
      assert forall c :: c in ls + rs <==> c in ls || c in rs;
      assert forall row :: Holds(e, row) <==> Holds(l, row) && Holds(r, row);
      ls + rs
    case _ => [e]
  }

  /** `JoinAnd` of at least one expression: the left-nested conjunction. */
  function JoinAnd(es: seq<Expr>): (r: Expr)
    requires |es| > 0
    ensures forall row :: Holds(r, row) <==> forall c | c in es :: Holds(c, row)
  {
    if |es| == 1 then es[0]
    else
      var last := |es| - 1;
      assert forall c :: c in es <==> c in es[..last] || c == es[last];
      var p := JoinAnd(es[..last]);
      assert forall row :: Holds(And(p, es[last]), row) <==> Holds(p, row) && Holds(es[last], row);
      And(p, es[last])
  }

  /** The loop of `JoinAnd`. */
  method JoinAndLoop(es: seq<Expr>) returns (r: Option<Expr>)
    ensures r == if es == [] then None else Some(JoinAnd(es))
  {
    if |es| == 0 {
      return None;
    }
    if |es| == 1 {
      return Some(es[0]);
    }
    var result := And(es[0], es[1]);
    assert es[..2][..1] == [es[0]];
    for i := 2 to |es|
      invariant result == JoinAnd(es[..i])
    {
      assert es[..i + 1][..i] == es[..i];
      result := And(result, es[i]);
    }
    assert es[..|es|] == es;
    return Some(result);
  }

  lemma {:induction false} ConjunctsAreSplit(e: Expr)
    ensures forall c | c in SplitConjunction(e) :: !c.And?
  {
    if e.And? {
      ConjunctsAreSplit(e.l);
      ConjunctsAreSplit(e.r);
    }
  }

  /** Splitting undoes joining. */
  lemma {:induction false} SplitJoinAnd(es: seq<Expr>)
    requires es != [] && forall e | e in es :: !e.And?
    ensures SplitConjunction(JoinAnd(es)) == es
    decreases |es|
  {
    if |es| > 1 {
      var last := |es| - 1;
      assert es[last] in es && forall e | e in es[..last] :: e in es;
      SplitJoinAnd(es[..last]);
      assert SplitConjunction(es[last]) == [es[last]];
      assert es == es[..last] + [es[last]];
    } else {
      assert es[0] in es;
    }
  }

  // ----- columns and field positions

  /** The columns an expression refers to. */
  function Columns(e: Expr): set<Column> {
    match e
    case Lit(_) => {}
    case Subquery(_) => {}
    case Field(_, t, n) => {Column(t, n)}
    case Cmp(_, l, r) => Columns(l) + Columns(r)
    case InList(_, x, list) => Columns(x) + set y, c | y in list && c in Columns(y) :: c
    case Between(x, lo, hi) => Columns(x) + Columns(lo) + Columns(hi)
    case Not(x) => Columns(x)
    case And(l, r) => Columns(l) + Columns(r)
    case Or(l, r) => Columns(l) + Columns(r)
    case IsNull(x) => Columns(x)
  }

  lemma {:induction false} EvaluableHasNoColumns(e: Expr)
    requires IsEvaluable(e)
    ensures Columns(e) == {}
  {
    match e
    case Lit(_) =>
    case Cmp(_, l, r) => EvaluableHasNoColumns(l); EvaluableHasNoColumns(r);
    case InList(_, x, list) =>
      EvaluableHasNoColumns(x);
      forall y | y in list ensures Columns(y) == {} { EvaluableHasNoColumns(y); }
    case Between(x, lo, hi) => EvaluableHasNoColumns(x); EvaluableHasNoColumns(lo); EvaluableHasNoColumns(hi);
    case Not(x) => EvaluableHasNoColumns(x);
    case And(l, r) => EvaluableHasNoColumns(l); EvaluableHasNoColumns(r);
    case Or(l, r) => EvaluableHasNoColumns(l); EvaluableHasNoColumns(r);
    case IsNull(x) => EvaluableHasNoColumns(x);
  }

  /** The string of an expression shows its columns. */
  lemma {:induction false} ErasedColumns(a: Expr, b: Expr)
    requires Erase(a) == Erase(b)
    ensures Columns(a) == Columns(b)
  {
    match a
    case Lit(_) =>
    case Subquery(_) =>
    case Field(_, _, _) =>
    case Cmp(_, l, r) => ErasedColumns(l, b.l); ErasedColumns(r, b.r);
    case InList(_, x, list) =>
      ErasedColumns(x, b.e);
      var ea, eb := Erase(a).list, Erase(b).list;
      forall i | 0 <= i < |list| ensures Columns(list[i]) == Columns(b.list[i]) {
        assert ea[i] == eb[i];
        ErasedColumns(list[i], b.list[i]);
      }
      assert |list| == |b.list|;
    case Between(x, lo, hi) => ErasedColumns(x, b.e); ErasedColumns(lo, b.lo); ErasedColumns(hi, b.hi);
    case Not(x) => ErasedColumns(x, b.e);
    case And(l, r) => ErasedColumns(l, b.l); ErasedColumns(r, b.r);
    case Or(l, r) => ErasedColumns(l, b.l); ErasedColumns(r, b.r);
    case IsNull(x) => ErasedColumns(x, b.e);
  }

  /** The first position of a column in the schema, or -1. */
  function IndexOf(s: Schema, c: Column): (i: int)
    ensures -1 <= i < |s|
    ensures i == -1 <==> c !in s
    ensures i >= 0 ==> s[i] == c
  {
    if s == [] then -1
    else if s[0] == c then 0
    else
      var i := IndexOf(s[1..], c);
      if i == -1 then -1 else i + 1
  }

  /** `fixFieldIndexes`: move every field reference to the position its column has in the schema.
      It fails exactly when a column is missing; otherwise it changes positions and nothing else. */
  function FixFieldIndexes(s: Schema, e: Expr): (r: Result<Expr>)
    ensures r.Ok? <==> forall c | c in Columns(e) :: c in s
    ensures r.Ok? ==> Resolved(r.value, s) && Erase(r.value) == Erase(e)
    decreases e, 1
  {
    match e
    case Lit(_) => Ok(e)
    case Subquery(_) => Ok(e)
    case Field(_, t, n) =>
      var i := IndexOf(s, Column(t, n));
      if i == -1 then Err else Ok(Field(i, t, n))
    case Cmp(op, l, r) =>
      var l' :- FixFieldIndexes(s, l);
      var r' :- FixFieldIndexes(s, r);
      Ok(Cmp(op, l', r'))
    case InList(neg, x, list) =>
      var x' :- FixFieldIndexes(s, x);
      var list' :- FixFieldIndexesInAll(s, list);
      assert Erase(InList(neg, x', list')).list == Erase(e).list;
      Ok(InList(neg, x', list'))
    case Between(x, lo, hi) =>
      var x' :- FixFieldIndexes(s, x);
      var lo' :- FixFieldIndexes(s, lo);
      var hi' :- FixFieldIndexes(s, hi);
      Ok(Between(x', lo', hi'))
    case Not(x) =>
      var x' :- FixFieldIndexes(s, x);
      Ok(Not(x'))
    case And(l, r) =>
      var l' :- FixFieldIndexes(s, l);
      var r' :- FixFieldIndexes(s, r);
      Ok(And(l', r'))
    case Or(l, r) =>
      var l' :- FixFieldIndexes(s, l);
      var r' :- FixFieldIndexes(s, r);
      Ok(Or(l', r'))
    case IsNull(x) =>
      var x' :- FixFieldIndexes(s, x);
      Ok(IsNull(x'))
  }

  function FixFieldIndexesInAll(s: Schema, es: seq<Expr>): (r: Result<seq<Expr>>)
    ensures r.Ok? <==> forall y, c | y in es && c in Columns(y) :: c in s
    ensures r.Ok? ==> |r.value| == |es|
    ensures r.Ok? ==> forall i | 0 <= i < |es| :: Resolved(r.value[i], s) && Erase(r.value[i]) == Erase(es[i])
    decreases es, 0
  {
    if es == [] then Ok([]) else
    assert es[0] in es && forall y :: y in es <==> y == es[0] || y in es[1..];
    var h :- FixFieldIndexes(s, es[0]);
    var t :- FixFieldIndexesInAll(s, es[1..]);
    Ok([h] + t)
  }

  // ----- rows of several expressions, and rows of two sides

  function EvalAll(es: seq<Expr>, row: Row): (r: Result<seq<Value>>)
    ensures r.Ok? ==> |r.value| == |es| && forall i | 0 <= i < |es| :: Eval(es[i], row) == Ok(r.value[i])
    ensures r.Err? ==> exists e | e in es :: Eval(e, row).Err?
  {
    if es == [] then Ok([]) else
    assert es[0] in es && forall e | e in es[1..] :: e in es;
    var v :- Eval(es[0], row);
    var vs :- EvalAll(es[1..], row);
    Ok([v] + vs)
  }

  lemma {:induction false} ConjunctsResolved(e: Expr, s: Schema)
    requires Resolved(e, s)
    ensures forall c | c in SplitConjunction(e) :: Resolved(c, s)
  {
    if e.And? {
      ConjunctsResolved(e.l, s);
      ConjunctsResolved(e.r, s);
    }
  }

  lemma {:induction false} ResolvedColumns(e: Expr, s: Schema)
    requires Resolved(e, s)
    ensures forall c | c in Columns(e) :: c in s
  {
    match e
    case Lit(_) =>
    case Subquery(_) =>
    case Field(i, t, n) =>
    case Cmp(_, l, r) => ResolvedColumns(l, s); ResolvedColumns(r, s);
    case InList(_, x, list) =>
      ResolvedColumns(x, s);
      forall y | y in list ensures forall c | c in Columns(y) :: c in s { ResolvedColumns(y, s); }
    case Between(x, lo, hi) => ResolvedColumns(x, s); ResolvedColumns(lo, s); ResolvedColumns(hi, s);
    case Not(x) => ResolvedColumns(x, s);
    case And(l, r) => ResolvedColumns(l, s); ResolvedColumns(r, s);
    case Or(l, r) => ResolvedColumns(l, s); ResolvedColumns(r, s);
    case IsNull(x) => ResolvedColumns(x, s);
  }

  predicate Distinct(s: Schema) {
    forall i, j | 0 <= i < j < |s| :: s[i] != s[j]
  }

  /** The joined row shows both sides. */
  predicate JoinsRows(s: Schema, ps: Schema, p: Row, ss: Schema, srow: Row, row: Row) {
    SameColumns(s, row, ps, p) && SameColumns(s, row, ss, srow)
  }

  lemma {:induction false} JoinedRowShowsBoth(ps: Schema, p: Row, ss: Schema, s: Row)
    requires |p| == |ps| && |s| == |ss| && Distinct(ps + ss)
    ensures JoinsRows(ps + ss, ps, p, ss, s, p + s)
  {
    var all := ps + ss;
    forall i, j | 0 <= i < |all| && 0 <= j < |ps| && all[i] == ps[j] ensures (p + s)[i] == p[j] {
      assert all[j] == ps[j];
    }
    forall i, j | 0 <= i < |all| && 0 <= j < |ss| && all[i] == ss[j] ensures (p + s)[i] == s[j] {
      assert all[|ps| + j] == ss[j];
    }
  }
}
