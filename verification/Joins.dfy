/** `joinIter`: one iterator for inner, left and right joins that decides while it runs whether to keep
    the secondary side in memory.

    `Step` is one turn of the loop in `Next`, with every branch of the code.  The environment decides,
    call by call, whether memory is available and whether a row can be added to the cache. */
module Joins {
  import opened Values
  import opened Expressions
  import opened NestedLoop
  import opened Runs

  datatype Mode = Unknown | Memory | Multipass

  /** What a run cannot control: the secondary side, the answers of `HasAvailable` and of `Add` to the
      n-th row read in unknown mode, and the answer of `Add` to the n-th row loaded in memory mode. */
  datatype Env = Env(join: Join, secondaryRows: seq<Row>, avail: nat -> bool, addOk: nat -> bool, loadOk: nat -> bool)

  datatype State = State(
    primary: seq<Row>,             // what the primary iterator will still return
    primaryRow: Option<Row>,
    foundMatch: bool,
    mode: Mode,
    cache: seq<Row>,               // secondaryRows
    pos: nat,
    secondary: Option<seq<Row>>,   // the open secondary iterator: what it will still return
    clock: nat)                    // rows read in unknown mode

  datatype Outcome = Item(row: Row) | Eof | Failed

  function Init(mode: Mode, primary: seq<Row>): State {
    State(primary, None, false, mode, [], 0, None, 0)
  }

  // ----- the code

  /** `loadPrimary`. */
  function LoadPrimary(s: State): (State, bool) {
    if s.primaryRow.Some? then (s, true)
    else if s.primary == [] then (s, false)
    else (s.(primary := s.primary[1..], primaryRow := Some(s.primary[0]), foundMatch := false), true)
  }

  /** How many rows are added until one cannot be. */
  function Loadable(loadOk: nat -> bool, n: nat): (m: nat)
    ensures m <= n && (forall k: nat | k < m :: loadOk(k)) && (m < n ==> !loadOk(m))
  {
    if n == 0 then 0
    else
      var m := Loadable(loadOk, n - 1);
      if m == n - 1 && loadOk(m) then n else m
  }

  /** `loadSecondaryInMemory`: a row that cannot be added fails and leaves the rows before it in the cache; an
      empty side is reported as the end of the iteration. */
  function LoadSecondaryInMemory(env: Env, s: State): (State, Outcome) {
    var m := Loadable(env.loadOk, |env.secondaryRows|);
    var s' := s.(cache := s.cache + env.secondaryRows[..m]);
    (s', if m < |env.secondaryRows| then Failed else if s'.cache == [] then Eof else Item([]))
  }

  /** `loadSecondary`. */
  function LoadSecondary(env: Env, s: State): (r: (State, Outcome))
    ensures r.0.primary == s.primary && r.0.foundMatch == s.foundMatch
    ensures r.0.primaryRow == s.primaryRow || r.0.primaryRow.None?
  {
    if s.mode == Memory then LoadFromMemory(env, s) else LoadFromIterator(env, s)
  }

  function LoadFromMemory(env: Env, s: State): (r: (State, Outcome))
    ensures r.0.primary == s.primary && r.0.foundMatch == s.foundMatch
    ensures r.0.primaryRow == s.primaryRow || r.0.primaryRow.None?
  {
    var (s1, loaded) := if s.cache == [] then LoadSecondaryInMemory(env, s) else (s, Item([]));
    if !loaded.Item? then (s1, loaded)
    else if s1.pos >= |s1.cache| then (s1.(primaryRow := None, pos := 0), Eof)
    else (s1.(pos := s1.pos + 1), Item(s1.cache[s1.pos]))
  }

  function LoadFromIterator(env: Env, s: State): (r: (State, Outcome))
    ensures r.0.primary == s.primary && r.0.foundMatch == s.foundMatch
    ensures r.0.primaryRow == s.primaryRow || r.0.primaryRow.None?
  {
    var rest := if s.secondary.Some? then s.secondary.value else env.secondaryRows;
    if rest == [] then
      (s.(secondary := None, primaryRow := None, mode := if s.mode == Unknown then Memory else s.mode), Eof)
    else
      var s' := s.(secondary := Some(rest[1..]));
      if s.mode != Unknown then (s', Item(rest[0]))
      else if !env.avail(s.clock) then (s'.(cache := [], mode := Multipass, clock := s.clock + 1), Item(rest[0]))
      else (s'.(cache := if env.addOk(s.clock) then s.cache + [rest[0]] else s.cache, clock := s.clock + 1),
        Item(rest[0]))
  }

  datatype Turn = Emit(row: Row) | Continue | Done | Fail

  /** One turn of the loop of `Next`. */
  function Step(env: Env, s: State): (State, Turn)
  {
    var (s1, more) := LoadPrimary(s);
    if !more then (s1, Done)
    else
      var primary := s1.primaryRow.value;
      var (s2, out) := LoadSecondary(env, s1);
      match out
      case Failed => (s2, Fail)
      case Eof =>
        if !s2.foundMatch && env.join.typ != Inner then (s2, Emit(BuildRow(env.join, primary, []))) else (s2, Continue)
      case Item(secondary) =>
        var row := BuildRow(env.join, primary, secondary);
        if Eval(env.join.cond, row).Err? then (s2, Fail)
        else if IsTrue(env.join.cond, row) then (s2.(foundMatch := true), Emit(row))
        else (s2, Continue)
  }

  /** A run so far: its state, the rows it emitted, and how its last turn ended. */
  type Trace = (State, seq<Row>, Turn)

  /** One more turn, unless the run is over. */
  function Advance(env: Env, r: Trace): Trace {
    if r.2.Done? || r.2.Fail? then r
    else
      var (s, t) := Step(env, r.0);
      (s, if t.Emit? then r.1 + [t.row] else r.1, t)
  }

  function Start(mode: Mode, primary: seq<Row>): Trace {
    (Init(mode, primary), [], Continue)
  }

  /** The first `n` turns of a run. */
  function Run(env: Env, r: Trace, n: nat): Trace {
    Iterate(x => Advance(env, x), r, n)
  }

  // ----- what a state still owes

  /** The rows of the secondary side that have not been joined with the current primary row. */
  function Rest(env: Env, s: State): seq<Row> {
    if s.mode == Memory then
      if s.cache == [] then env.secondaryRows else if s.pos <= |s.cache| then s.cache[s.pos..] else []
    else if s.secondary.Some? then s.secondary.value
    else env.secondaryRows
  }

  /** The secondary rows that the primary rows after the first pass are joined with: the cache, if all
      of the first pass found memory; the whole side, if it did not. */
  function CachedAfter(env: Env, cache: seq<Row>, rest: seq<Row>, clock: nat): seq<Row>
    decreases rest
  {
    if rest == [] then if cache == [] then env.secondaryRows else cache
    else if !env.avail(clock) then env.secondaryRows
    else CachedAfter(env, if env.addOk(clock) then cache + [rest[0]] else cache, rest[1..], clock + 1)
  }

  function Later(env: Env, s: State): seq<Row> {
    match s.mode
    case Multipass => env.secondaryRows
    case Memory => if s.cache == [] then env.secondaryRows else s.cache
    case Unknown => CachedAfter(env, s.cache, Rest(env, s), s.clock)
  }

  /** All rows still owed.  In unknown mode the first primary row sees the whole secondary side even
      when the cache drops some of it. */
  function Pending(env: Env, s: State): seq<Row>
  {
    if s.primaryRow.Some? then
      RowsOf(env.join, s.primaryRow.value, Rest(env, s), s.foundMatch) +
        NestedLoopJoin(env.join, s.primary, Later(env, s))
    else if s.primary == [] then []
    else
      RowsOf(env.join, s.primary[0], Rest(env, s), false) + NestedLoopJoin(env.join, s.primary[1..], Later(env, s))
  }

  /** Loading the secondary side succeeds. */
  predicate Loads(env: Env) {
    forall k: nat | k < |env.secondaryRows| :: env.loadOk(k)
  }

  /** The condition evaluates on every joined row, and loading the secondary side succeeds. */
  predicate ErrorFree(env: Env) {
    Loads(env) && InRange(env.join.cond, env.join.rowSize)
  }

  predicate Inv(env: Env, s: State) {
    && env.secondaryRows != []
    && (s.primaryRow.None? ==> s.secondary.None? && s.pos == 0)
    && (s.secondary.Some? ==> |s.secondary.value| <= |env.secondaryRows|)
    && (s.mode == Memory ==> s.pos <= |s.cache| && s.secondary.None?)
    && (s.mode != Memory ==> s.pos == 0)
    && (s.mode == Unknown && s.secondary.None? ==> s.cache == [] && s.clock == 0)
  }

  function Times(n: nat, k: nat): nat {
    if n == 0 then 0 else k + Times(n - 1, k)
  }

  function Measure(env: Env, s: State): nat {
    Times(|s.primary|, |env.secondaryRows| + |Later(env, s)| + 2) +
      (if s.primaryRow.Some? then |Rest(env, s)| + 1 else 0)
  }

  /** Loading the primary row changes nothing that is owed. */
  lemma {:induction false} LoadPrimaryPending(env: Env, s: State)
    requires Inv(env, s)
    ensures var (s1, more) := LoadPrimary(s);
      && Inv(env, s1) && Pending(env, s1) == Pending(env, s)
      && (!more ==> s1 == s && Pending(env, s) == [])
      && (more ==> s1.primaryRow.Some? && Rest(env, s1) == Rest(env, s) && Later(env, s1) == Later(env, s))
  {
  }

  lemma {:induction false} LoadsAll(env: Env, s: State)
    requires Loads(env) && s.cache == []
    ensures LoadSecondaryInMemory(env, s) ==
      (s.(cache := env.secondaryRows), if env.secondaryRows == [] then Eof else Item([]))
  {
    var n := |env.secondaryRows|;
    assert Loadable(env.loadOk, n) == n;
    assert s.cache + env.secondaryRows[..n] == env.secondaryRows;
  }

  /** Loading a secondary row takes the first of the rest; at its end the primary row is finished. */
  predicate TakesRest(env: Env, s: State, s2: State, out: Outcome) {
    && Inv(env, s2) && s2.primary == s.primary && s2.foundMatch == s.foundMatch
    && Later(env, s2) == Later(env, s)
    && !out.Failed?
    && (out.Item? ==> s2.primaryRow == s.primaryRow && Rest(env, s) == [out.row] + Rest(env, s2))
    && (out.Eof? ==> s2.primaryRow.None? && Rest(env, s) == [] && Rest(env, s2) == Later(env, s2))
  }

  lemma {:induction false} LoadFromMemoryPending(env: Env, s: State)
    requires Inv(env, s) && s.primaryRow.Some? && Loads(env) && s.mode == Memory
    ensures var (s2, out) := LoadFromMemory(env, s); TakesRest(env, s, s2, out)
  {
    if s.cache == [] { LoadsAll(env, s); }
  }

  lemma {:induction false} LoadFromIteratorPending(env: Env, s: State)
    requires Inv(env, s) && s.primaryRow.Some? && s.mode != Memory
    ensures var (s2, out) := LoadFromIterator(env, s); TakesRest(env, s, s2, out)
  {
    var rest := Rest(env, s);
    if rest != [] && s.mode == Unknown {
      assert Rest(env, LoadFromIterator(env, s).0) == rest[1..];
    }
  }

  lemma {:induction false} LoadSecondaryPending(env: Env, s: State)
    requires Inv(env, s) && s.primaryRow.Some? && Loads(env)
    ensures var (s2, out) := LoadSecondary(env, s); TakesRest(env, s, s2, out)
  {
    if s.mode == Memory { LoadFromMemoryPending(env, s); } else { LoadFromIteratorPending(env, s); }
  }

  /** The primary row is finished: what is owed is the join of the others. */
  lemma {:induction false} FinishedPending(env: Env, s: State)
    requires s.primaryRow.None? && Rest(env, s) == Later(env, s)
    ensures Pending(env, s) == NestedLoopJoin(env.join, s.primary, Later(env, s))
  {
  }

  /** Every turn pays the row it emits, and only an exhausted run ends. */
  lemma {:induction false} StepPending(env: Env, s: State)
    requires Inv(env, s) && ErrorFree(env)
    ensures var (s2, t) := Step(env, s);
      && Inv(env, s2) && !t.Fail?
      && (t.Emit? ==> Pending(env, s) == [t.row] + Pending(env, s2))
      && (t.Continue? ==> Pending(env, s) == Pending(env, s2))
      && (t.Done? ==> Pending(env, s) == [] == Pending(env, s2))
      && (!t.Done? ==> Measure(env, s2) < Measure(env, s))
  {
    LoadPrimaryPending(env, s);
    var (s1, more) := LoadPrimary(s);
    if more {
      LoadSecondaryPending(env, s1);
      MeasureDrops(env, s);
      if LoadSecondary(env, s1).1.Item? {
        ItemPending(env, s1);
      } else {
        EofPending(env, s1);
      }
    }
  }

  lemma {:induction false} ItemPending(env: Env, s: State)
    requires Inv(env, s) && ErrorFree(env) && s.primaryRow.Some?
    requires LoadSecondary(env, s).1.Item?
    ensures var s2 := LoadSecondary(env, s).0;
      var row := BuildRow(env.join, s.primaryRow.value, LoadSecondary(env, s).1.row);
      && Eval(env.join.cond, row).Ok?
      && Pending(env, s) == if IsTrue(env.join.cond, row) then [row] + Pending(env, s2.(foundMatch := true))
        else Pending(env, s2)
  {
    LoadSecondaryPending(env, s);
    var (s2, out) := LoadSecondary(env, s);
    InRangeEvaluates(env.join.cond, BuildRow(env.join, s.primaryRow.value, out.row));
    assert Rest(env, s)[1..] == Rest(env, s2);
    ReadPays(env.join, s.primaryRow.value, Rest(env, s), s.foundMatch,
      NestedLoopJoin(env.join, s.primary, Later(env, s)));
    PendingOfCurrent(env, s);
    PendingOfCurrent(env, s2);
    PendingOfCurrent(env, s2.(foundMatch := true));
  }

  lemma {:induction false} PendingOfCurrent(env: Env, s: State)
    requires s.primaryRow.Some?
    ensures Pending(env, s) ==
      RowsOf(env.join, s.primaryRow.value, Rest(env, s), s.foundMatch) +
        NestedLoopJoin(env.join, s.primary, Later(env, s))
    ensures var found := s.(foundMatch := true); Rest(env, found) == Rest(env, s) && Later(env, found) == Later(env, s)
  {
  }

  lemma {:induction false} EofPending(env: Env, s: State)
    requires Inv(env, s) && ErrorFree(env) && s.primaryRow.Some?
    requires LoadSecondary(env, s).1.Eof?
    ensures var s2 := LoadSecondary(env, s).0;
      && Pending(env, s) == if !s.foundMatch && env.join.typ != Inner
                            then [BuildRow(env.join, s.primaryRow.value, [])] + Pending(env, s2)
                            else Pending(env, s2)
  {
    LoadSecondaryPending(env, s);
    var s2 := LoadSecondary(env, s).0;
    FinishedPending(env, s2);
  }

  lemma {:induction false} MeasureDrops(env: Env, s: State)
    requires Inv(env, s) && ErrorFree(env) && LoadPrimary(s).1
    ensures var s2 := LoadSecondary(env, LoadPrimary(s).0).0;
      Measure(env, s2) < Measure(env, s) && Measure(env, s2.(foundMatch := true)) == Measure(env, s2)
  {
    LoadPrimaryPending(env, s);
    var s1 := LoadPrimary(s).0;
    LoadSecondaryPending(env, s1);
    var s2 := LoadSecondary(env, s1).0;
    var s3 := s2.(foundMatch := true);
    assert Rest(env, s3) == Rest(env, s2) && Later(env, s3) == Later(env, s2);
    var k := |env.secondaryRows| + |Later(env, s)| + 2;
    assert |Rest(env, s1)| + 1 < k;
  }

  // ----- whole runs

  /** A run that started from a state owing `owed`, within a measure of `m`, after `n` turns. */
  predicate Paid(env: Env, r: Trace, owed: seq<Row>, m: nat, n: nat) {
    && Inv(env, r.0) && !r.2.Fail?
    && owed == r.1 + Pending(env, r.0)
    && (if r.2.Done? then Pending(env, r.0) == [] else Measure(env, r.0) + n <= m)
  }

  lemma {:induction false} AdvancePays(env: Env, r: Trace, owed: seq<Row>, m: nat, n: nat)
    requires ErrorFree(env) && Paid(env, r, owed, m, n)
    ensures Paid(env, Advance(env, r), owed, m, n + 1)
  {
    if !r.2.Done? {
      StepPending(env, r.0);
      var (s, t) := Step(env, r.0);
      if t.Emit? {
        Associative(r.1, [t.row], Pending(env, s));
      }
    }
  }

  /** The rows emitted and the rows still owed are together what the start owed. */
  lemma {:induction false} RunPays(env: Env, r: Trace, n: nat, owed: seq<Row>, m: nat)
    requires ErrorFree(env) && Paid(env, r, owed, m, 0)
    ensures Paid(env, Run(env, r, n), owed, m, n)
  {
    var inv := (x: Trace, i: nat) => Paid(env, x, owed, m, i);
    forall x: Trace, i: nat | inv(x, i) ensures inv(Advance(env, x), i + 1) {
      AdvancePays(env, x, owed, m, i);
    }
    IterateKeeps(x => Advance(env, x), inv, r, n, 0);
  }

  /** The run ends, and these are the rows it emitted. */
  ghost predicate Emits(env: Env, mode: Mode, primary: seq<Row>, rows: seq<Row>)
  {
    exists n: nat :: EndsWith(Run(env, Start(mode, primary), n), rows)
  }

  predicate EndsWith(r: Trace, rows: seq<Row>) {
    r.2.Done? && r.1 == rows
  }

  /** A run over a non-empty secondary side ends, and emits exactly what its initial state owes. */
  lemma {:induction false} RunEmitsPending(env: Env, mode: Mode, primary: seq<Row>, rows: seq<Row>)
    requires ErrorFree(env) && env.secondaryRows != []
    ensures Emits(env, mode, primary, rows) <==> rows == Pending(env, Init(mode, primary))
  {
    var s := Start(mode, primary);
    var owed, m := Pending(env, s.0), Measure(env, s.0);
    assert [] + owed == owed;
    RunPays(env, s, m + 1, owed, m);
    var r := Run(env, s, m + 1);
    assert EndsWith(r, owed) by { assert r.1 + [] == r.1; }
    if Emits(env, mode, primary, rows) {
      var n: nat :| EndsWith(Run(env, s, n), rows);
      RunPays(env, s, n, owed, m);
      assert rows + [] == rows;
    }
  }

  /** Memory was found for all rows of the first pass. */
  predicate AlwaysAvailable(env: Env, from: nat) {
    forall k | from <= k < |env.secondaryRows| :: env.avail(k)
  }

  /** If memory was found for all rows of the first pass, all of them were added to the cache, or none was. */
  predicate CacheIsComplete(env: Env) {
    AlwaysAvailable(env, 0) ==>
      (forall k: nat | k < |env.secondaryRows| :: env.addOk(k)) ||
        (forall k: nat | k < |env.secondaryRows| :: !env.addOk(k))
  }

  /** The rows added to the cache from a position on. */
  function Added(env: Env, from: nat): seq<Row>
    requires from <= |env.secondaryRows|
    decreases |env.secondaryRows| - from
  {
    if from == |env.secondaryRows| then []
      else (if env.addOk(from) then [env.secondaryRows[from]] else []) + Added(env, from + 1)
  }

  lemma {:induction false} AddedMeans(env: Env, from: nat)
    requires from <= |env.secondaryRows|
    ensures |Added(env, from)| <= |env.secondaryRows| - from
    ensures |Added(env, from)| == |env.secondaryRows| - from <==>
      forall k | from <= k < |env.secondaryRows| :: env.addOk(k)
    ensures |Added(env, from)| == |env.secondaryRows| - from ==> Added(env, from) == env.secondaryRows[from..]
    ensures Added(env, from) == [] <==> forall k | from <= k < |env.secondaryRows| :: !env.addOk(k)
    decreases |env.secondaryRows| - from
  {
    if from < |env.secondaryRows| { AddedMeans(env, from + 1); }
  }

  /** The cache after the rest of the first pass. */
  function CacheOr(added: seq<Row>, available: bool, all: seq<Row>): seq<Row> {
    if available && added != [] then added else all
  }

  lemma {:induction false} CacheIsAdded(env: Env, cache: seq<Row>, from: nat)
    requires from <= |env.secondaryRows|
    ensures CachedAfter(env, cache, env.secondaryRows[from..], from)
         == CacheOr(cache + Added(env, from), AlwaysAvailable(env, from), env.secondaryRows)
    decreases |env.secondaryRows| - from
  {
    var rest := env.secondaryRows[from..];
    if rest == [] {
      assert cache + Added(env, from) == cache;
    } else if env.avail(from) {
      assert rest[1..] == env.secondaryRows[from + 1..];
      assert rest[0] == env.secondaryRows[from];
      var cache' := if env.addOk(from) then cache + [rest[0]] else cache;
      CacheIsAdded(env, cache', from + 1);
      assert cache' + Added(env, from + 1) == cache + Added(env, from);
      assert AlwaysAvailable(env, from) <==> AlwaysAvailable(env, from + 1);
    } else {
      assert !AlwaysAvailable(env, from);
    }
  }

  /** The primary rows after the first are joined with the whole secondary side iff the cache is complete;
      otherwise with fewer rows. */
  lemma {:induction false} CacheIsWholeIff(env: Env)
    ensures var c := CachedAfter(env, [], env.secondaryRows, 0);
      (c == env.secondaryRows <==> CacheIsComplete(env)) && (c == env.secondaryRows || |c| < |env.secondaryRows|)
  {
    CacheIsAdded(env, [], 0);
    AddedMeans(env, 0);
    assert env.secondaryRows[0..] == env.secondaryRows;
    assert [] + Added(env, 0) == Added(env, 0);
  }

  /** What a run owes at its start. */
  lemma {:induction false} InitialPending(env: Env, mode: Mode, primary: seq<Row>)
    requires env.secondaryRows != []
    ensures mode != Unknown ==>
      Pending(env, Init(mode, primary)) == NestedLoopJoin(env.join, primary, env.secondaryRows)
    ensures mode == Unknown && primary != [] ==>
      Pending(env, Init(mode, primary)) ==
        RowsOf(env.join, primary[0], env.secondaryRows, false)
        + NestedLoopJoin(env.join, primary[1..], CachedAfter(env, [], env.secondaryRows, 0))
  {
  }

  /** Whichever mode it starts in and whenever it switches, the iterator emits the nested-loop join. */
  lemma {:induction false} JoinIsNestedLoop(env: Env, mode: Mode, primary: seq<Row>)
    requires ErrorFree(env) && env.secondaryRows != [] && CacheIsComplete(env)
    ensures Emits(env, mode, primary, NestedLoopJoin(env.join, primary, env.secondaryRows))
  {
    InitialPending(env, mode, primary);
    CacheIsWholeIff(env);
    RunEmitsPending(env, mode, primary, NestedLoopJoin(env.join, primary, env.secondaryRows));
  }

  // ----- a cache that dropped rows

  /** In this environment the iterator, starting in unknown mode, emits the given join. */
  ghost predicate RightFor(env: Env, j: Join, primary: seq<Row>) {
    Emits(env.(join := j), Unknown, primary, NestedLoopJoin(j, primary, env.secondaryRows))
  }

  /** `joinIter` ignores that a row could not be added.  It is right for every condition and every
      primary side iff, where memory was found for every row of the secondary side, all of them could be
      added or none: then the cache is complete, or loaded once more. */
  lemma {:induction false} DroppedRowsAreLost(env: Env)
    requires env.secondaryRows != [] && Loads(env)
    ensures CacheIsComplete(env) <==>
      forall j: Join, primary: seq<Row> | InRange(j.cond, j.rowSize) :: RightFor(env, j, primary)
  {
    var c := CachedAfter(env, [], env.secondaryRows, 0);
    CacheIsWholeIff(env);
    if CacheIsComplete(env) {
      forall j: Join, primary: seq<Row> | InRange(j.cond, j.rowSize)
        ensures RightFor(env, j, primary)
      {
        var env' := env.(join := j);
        SameCache(env, env', [], env.secondaryRows, 0);
        InitialPending(env', Unknown, primary);
        RunEmitsPending(env', Unknown, primary, NestedLoopJoin(j, primary, env.secondaryRows));
      }
    } else {
      var j := Join(Inner, 0, Lit(Bool(true)));
      var primary: seq<Row> := [[], []];
      var env' := env.(join := j);
      SameCache(env, env', [], env.secondaryRows, 0);
      InitialPending(env', Unknown, primary);
      var nlj := NestedLoopJoin(j, primary, env.secondaryRows);
      assert primary[1..][1..] == [];
      MatchesOfTrue(j, [], env.secondaryRows);
      MatchesOfTrue(j, [], c);
      assert NestedLoopJoin(j, primary[1..], c) == RowsOf(j, [], c, false) + [];
      assert NestedLoopJoin(j, primary[1..], env.secondaryRows) == RowsOf(j, [], env.secondaryRows, false) + [];
      assert |Pending(env', Init(Unknown, primary))| < |nlj|;
      RunEmitsPending(env', Unknown, primary, nlj);
      assert InRange(j.cond, j.rowSize) && !RightFor(env, j, primary);
    }
  }

  lemma {:induction false} SameCache(env: Env, env': Env, cache: seq<Row>, rest: seq<Row>, clock: nat)
    requires env' == env.(join := env'.join)
    ensures CachedAfter(env', cache, rest, clock) == CachedAfter(env, cache, rest, clock)
    decreases rest
  {
    if rest != [] && env.avail(clock) {
      SameCache(env, env', if env.addOk(clock) then cache + [rest[0]] else cache, rest[1..], clock + 1);
    }
  }

  // ----- an empty secondary side

  /** In memory mode an empty secondary side ends the iteration without clearing the primary row. */
  predicate Stuck(env: Env, s: State) {
    s.mode == Memory && s.primaryRow.Some? && s.cache == [] && env.secondaryRows == []
  }

  lemma {:induction false} StuckStep(env: Env, s: State)
    requires Stuck(env, s)
    ensures Step(env, s).0 == s && !Step(env, s).1.Done?
  {
    assert s.cache + env.secondaryRows == s.cache;
  }

  /** Once stuck, the loop turns for ever. */
  lemma {:induction false} StuckForever(env: Env, r: Trace, n: nat)
    requires !r.2.Done? && (r.2.Fail? || Stuck(env, r.0))
    ensures !Run(env, r, n).2.Done?
  {
    var inv := (x: Trace, i: nat) => !x.2.Done? && (x.2.Fail? || Stuck(env, x.0));
    forall x: Trace, i: nat | inv(x, i) ensures inv(Advance(env, x), i + 1) {
      if !x.2.Fail? { StuckStep(env, x.0); }
    }
    IterateKeeps(x => Advance(env, x), inv, r, n, 0);
  }

  lemma {:induction false} FirstStepSticks(env: Env, r: Trace)
    requires env.secondaryRows == [] && !r.2.Done?
    requires r.0.mode == Memory && r.0.cache == [] && r.0.primary != [] && r.0.primaryRow.None?
    ensures var r' := Advance(env, r); !r'.2.Done? && (r'.2.Fail? || Stuck(env, r'.0))
  {
    assert r.0.cache + env.secondaryRows == r.0.cache;
  }

  lemma {:induction false} MemoryModeSpins(env: Env, r: Trace, n: nat)
    requires env.secondaryRows == [] && !r.2.Done?
    requires r.0.mode == Memory && r.0.cache == [] && r.0.primary != [] && r.0.primaryRow.None?
    ensures !Run(env, r, n).2.Done?
  {
    if n > 0 {
      FirstStepSticks(env, r);
      StuckForever(env, Advance(env, r), n - 1);
    }
  }

  /** In unknown mode the first primary row is finished properly, and leaves an empty cache behind. */
  lemma {:induction false} FirstPassOverNothing(env: Env, primary: seq<Row>)
    requires env.secondaryRows == [] && primary != []
    ensures var r := Advance(env, Start(Unknown, primary));
      && r.0 == Init(Memory, primary[1..]).(foundMatch := false)
      && r.1 == RowsOf(env.join, primary[0], [], false)
      && !r.2.Done? && !r.2.Fail?
  {
  }

  lemma {:induction false} EmptySecondaryFinishes(env: Env, mode: Mode, primary: seq<Row>)
    requires env.secondaryRows == [] && mode != Multipass
    requires primary == [] || (mode == Unknown && |primary| == 1)
    ensures Emits(env, mode, primary, NestedLoopJoin(env.join, primary, []))
  {
    var s := Start(mode, primary);
    if primary == [] {
      assert Run(env, s, 1) == Advance(env, s);
      assert EndsWith(Run(env, s, 1), []);
    } else {
      FirstPassOverNothing(env, primary);
      var r := Advance(env, s);
      assert Run(env, s, 2) == Advance(env, r);
      assert EndsWith(Run(env, s, 2), r.1);
      assert NestedLoopJoin(env.join, primary, []) == r.1 + [];
    }
  }

  lemma {:induction false} EmptySecondarySpins(env: Env, mode: Mode, primary: seq<Row>, n: nat)
    requires env.secondaryRows == [] && mode != Multipass
    requires primary != [] && (mode == Memory || |primary| > 1)
    ensures !Run(env, Start(mode, primary), n).2.Done?
  {
    var s := Start(mode, primary);
    if mode == Memory {
      MemoryModeSpins(env, s, n);
    } else if n > 0 {
      FirstPassOverNothing(env, primary);
      MemoryModeSpins(env, Advance(env, s), n - 1);
    }
  }

  /** The iterator emits the nested-loop join iff the secondary side has a row, or the primary side is
      empty, or it has one row and the mode was not known: otherwise the loop never ends. */
  lemma {:induction false} JoinIsRightIff(env: Env, mode: Mode, primary: seq<Row>)
    requires ErrorFree(env) && CacheIsComplete(env) && mode != Multipass
    ensures Emits(env, mode, primary, NestedLoopJoin(env.join, primary, env.secondaryRows)) <==>
      env.secondaryRows != [] || primary == [] || (mode == Unknown && |primary| == 1)
  {
    if env.secondaryRows != [] {
      JoinIsNestedLoop(env, mode, primary);
    } else if primary == [] || (mode == Unknown && |primary| == 1) {
      EmptySecondaryFinishes(env, mode, primary);
    } else {
      forall n: nat ensures !Run(env, Start(mode, primary), n).2.Done? {
        EmptySecondarySpins(env, mode, primary, n);
      }
    }
  }

  // ----- the iterator object

  /** `joinIter` over a non-empty secondary side. */
  class JoinIter {
    const env: Env
    var primary: seq<Row>
    var primaryRow: Option<Row>
    var foundMatch: bool
    var mode: Mode
    var secondaryRows: seq<Row>
    var pos: nat
    var secondary: Option<seq<Row>>
    var clock: nat

    constructor (env: Env, mode: Mode, primary: seq<Row>)
      ensures this.env == env && Abstract() == Init(mode, primary)
    {
      this.env, this.primary, this.mode := env, primary, mode;
      primaryRow, foundMatch, secondaryRows, pos, secondary, clock := None, false, [], 0, None, 0;
    }

    function Abstract(): State
      reads this
    {
      State(primary, primaryRow, foundMatch, mode, secondaryRows, pos, secondary, clock)
    }

    method LoadPrimaryRow() returns (more: bool)
      modifies this
      ensures (Abstract(), more) == LoadPrimary(old(Abstract()))
    {
      if primaryRow.None? {
        if primary == [] {
          return false;
        }
        primaryRow, primary := Some(primary[0]), primary[1..];
        foundMatch := false;
      }
      return true;
    }

    method LoadInMemory() returns (out: Outcome)
      modifies this
      ensures (Abstract(), out) == LoadSecondaryInMemory(env, old(Abstract()))
    {
      for k := 0 to |env.secondaryRows|
        invariant Abstract() == old(Abstract()).(cache := old(secondaryRows) + env.secondaryRows[..k])
        invariant forall i: nat | i < k :: env.loadOk(i)
      {
        if !env.loadOk(k) {
          return Failed;
        }
        secondaryRows := secondaryRows + [env.secondaryRows[k]];
      }
      assert env.secondaryRows[..|env.secondaryRows|] == env.secondaryRows;
      if secondaryRows == [] {
        return Eof;
      }
      return Item([]);
    }

    method LoadSecondaryRow() returns (out: Outcome)
      modifies this
      ensures (Abstract(), out) == LoadSecondary(env, old(Abstract()))
    {
      if mode == Memory {
        if secondaryRows == [] {
          var loaded := LoadInMemory();
          if !loaded.Item? {
            return loaded;
          }
        }
        if pos >= |secondaryRows| {
          primaryRow, pos := None, 0;
          return Eof;
        }
        pos := pos + 1;
        return Item(secondaryRows[pos - 1]);
      }
      if secondary.None? {
        secondary := Some(env.secondaryRows);
      }
      if secondary.value == [] {
        secondary, primaryRow := None, None;
        if mode == Unknown {
          mode := Memory;
        }
        return Eof;
      }
      var row := secondary.value[0];
      secondary := Some(secondary.value[1..]);
      if mode == Unknown {
        if !env.avail(clock) {
          secondaryRows, mode := [], Multipass;
        } else if env.addOk(clock) {
          secondaryRows := secondaryRows + [row];
        }
        clock := clock + 1;
      }
      return Item(row);
    }

    /** One turn of the loop of `Next`. */
    method TakeTurn() returns (t: Turn)
      modifies this
      ensures (Abstract(), t) == Step(env, old(Abstract()))
    {
      var more := LoadPrimaryRow();
      if !more {
        return Done;
      }
      var p := primaryRow.value;
      var loaded := LoadSecondaryRow();
      if loaded.Failed? {
        return Fail;
      }
      if loaded.Eof? {
        if !foundMatch && env.join.typ != Inner {
          return Emit(BuildRow(env.join, p, []));
        }
        return Continue;
      }
      var row := BuildRow(env.join, p, loaded.row);
      if Eval(env.join.cond, row).Err? {
        return Fail;
      }
      if !IsTrue(env.join.cond, row) {
        return Continue;
      }
      foundMatch := true;
      return Emit(row);
    }

    /** The next row of the join, or the end of it. */
    method Next() returns (out: Outcome)
      requires Inv(env, Abstract()) && ErrorFree(env)
      modifies this
      ensures Inv(env, Abstract()) && !out.Failed?
      ensures out.Item? ==> Pending(env, old(Abstract())) == [out.row] + Pending(env, Abstract())
      ensures out.Eof? ==> Pending(env, old(Abstract())) == [] == Pending(env, Abstract())
    {
      ghost var owed := Pending(env, Abstract());
      while true
        invariant Inv(env, Abstract())
        invariant Pending(env, Abstract()) == owed
        decreases Measure(env, Abstract())
      {
        StepPending(env, Abstract());
        var t := TakeTurn();
        match t {
          case Emit(row) => return Item(row);
          case Done => return Eof;
          case Fail => return Failed;
          case Continue =>
        }
      }
    }
  }
}
