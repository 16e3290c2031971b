/** `exchangeRowIter` as a state machine.  A feeder goroutine takes a token for every partition and offers
    the partition to the main goroutine, which starts a worker for it; workers send their rows into a
    bounded channel that the consumer reads; a finished worker gives its token back.

    Every communication and every section under the mutex is one step, and a run is any interleaving of
    enabled steps without an error, a cancelled context or a call of `Close`. */
module Exchange {
  import opened Values
  import opened Sums

  /** The rows of every partition, and the number of tokens. */
  datatype Config = Config(parts: seq<seq<Row>>, parallelism: nat)

  datatype Feeder = WaitingForToken | HoldingToken | Offering | Exited

  datatype Starter = Receiving | Draining | Closed

  /** A worker: how many rows it has sent; `Counted` once it has left the wait group. */
  datatype Worker = Running(sent: nat) | Counted | Released

  /** A row together with the partition it comes from. */
  datatype Tagged = Tagged(part: nat, row: Row)

  datatype State = State(
    handedOut: nat,            // partitions returned by the partition iterator
    feeder: Feeder,
    starter: Starter,          // the tokens channel is open while it receives
    workers: seq<Worker>,      // worker i reads partition i
    free: nat,                 // tokens in the channel
    buffer: seq<Tagged>,       // the rows channel
    delivered: seq<Tagged>,    // what the consumer has received
    eof: bool)                 // the consumer has been told that there are no more rows

  datatype Event =
    | TakeToken
    | NextPartition
    | StartWorker
    | CloseTokens
    | SendRow(worker: nat)
    | LeaveGroup(worker: nat)
    | ReleaseToken(worker: nat)
    | CloseRows
    | ReceiveRow
    | ReceiveEof

  function Init(c: Config): State {
    State(0, WaitingForToken, Receiving, [], c.parallelism, [], [], false)
  }

  predicate Enabled(c: Config, s: State, e: Event) {
    match e
    case TakeToken => s.feeder == WaitingForToken && s.free > 0
    case NextPartition => s.feeder == HoldingToken
    case StartWorker => s.feeder == Offering && s.starter == Receiving
    case CloseTokens => s.feeder == Exited && s.starter == Receiving
    case SendRow(i) =>
      && i < |s.workers| && i < |c.parts| && s.workers[i].Running? && s.workers[i].sent < |c.parts[i]|
      && |s.buffer| < c.parallelism
    case LeaveGroup(i) => i < |s.workers| && i < |c.parts| && s.workers[i] == Running(|c.parts[i]|)
    case ReleaseToken(i) => i < |s.workers| && s.workers[i] == Counted &&
      (s.starter != Receiving || s.free < c.parallelism)
    case CloseRows => s.starter == Draining && forall w | w in s.workers :: !w.Running?
    case ReceiveRow => s.buffer != [] && !s.eof
    case ReceiveEof => s.buffer == [] && s.starter == Closed && !s.eof
  }

  function Step(c: Config, s: State, e: Event): State
    requires Enabled(c, s, e)
  {
    match e
    case TakeToken => s.(feeder := HoldingToken, free := s.free - 1)
    case NextPartition =>
      if s.handedOut < |c.parts| then s.(feeder := Offering, handedOut := s.handedOut + 1) else s.(feeder := Exited)
    case StartWorker => s.(feeder := WaitingForToken, workers := s.workers + [Running(0)])
    case CloseTokens => s.(starter := Draining)
    case SendRow(i) =>
      var k := s.workers[i].sent;
      s.(workers := s.workers[i := Running(k + 1)], buffer := s.buffer + [Tagged(i, c.parts[i][k])])
    case LeaveGroup(i) => s.(workers := s.workers[i := Counted])
    case ReleaseToken(i) =>
      s.(workers := s.workers[i := Released], free := if s.starter == Receiving then s.free + 1 else s.free)
    case CloseRows => s.(starter := Closed)
    case ReceiveRow => s.(buffer := s.buffer[1..], delivered := s.delivered + [s.buffer[0]])
    case ReceiveEof => s.(eof := true)
  }

  /** The state after a run, unless some step was not enabled. */
  function After(c: Config, run: seq<Event>): (r: Option<State>)
    decreases |run|
  {
    if run == [] then Some(Init(c)) else
    var last := |run| - 1;
    var s := After(c, run[..last]);
    if s.Some? && Enabled(c, s.value, run[last]) then Some(Step(c, s.value, run[last])) else None
  }

  // ----- what every step keeps

  /** The rows of one partition, in order of appearance. */
  function Of(i: nat, ts: seq<Tagged>): seq<Row> {
    if ts == [] then []
    else
      var last := |ts| - 1;
      Of(i, ts[..last]) + (if ts[last].part == i then [ts[last].row] else [])
  }

  lemma {:induction false} OfAppend(i: nat, ts: seq<Tagged>, t: Tagged)
    ensures Of(i, ts + [t]) == Of(i, ts) + (if t.part == i then [t.row] else [])
  {
    assert (ts + [t])[..|ts|] == ts;
  }

  /** What partition `i` has sent so far. */
  function SentBy(c: Config, s: State, i: nat): seq<Row>
    requires i < |c.parts|
  {
    if i >= |s.workers| then []
    else match s.workers[i]
      case Running(k) => if k <= |c.parts[i]| then c.parts[i][..k] else c.parts[i]
      case _ => c.parts[i]
  }

  /** Rows that are in the channel or delivered. */
  function Sent(s: State): seq<Tagged> {
    s.delivered + s.buffer
  }

  function Unreleased(ws: seq<Worker>): seq<nat> {
    seq(|ws|, i requires 0 <= i < |ws| => if ws[i] == Released then 0 else 1)
  }

  /** Tokens are neither lost nor made while the channel is open. */
  predicate TokensConserved(c: Config, s: State) {
    s.starter == Receiving ==>
      s.free + (if s.feeder == WaitingForToken then 0 else 1) + Sum(Unreleased(s.workers)) == c.parallelism
  }

  /** Every row of a partition is sent once and in order, and no other row is sent. */
  predicate RowsAccounted(c: Config, s: State) {
    && (forall t | t in Sent(s) :: t.part < |c.parts|)
    && forall i | 0 <= i < |c.parts| :: Of(i, Sent(s)) == SentBy(c, s, i)
  }

  predicate PhasesAgree(c: Config, s: State) {
    && |s.workers| + (if s.feeder == Offering then 1 else 0) == s.handedOut <= |c.parts|
    && (s.feeder == Exited ==> s.handedOut == |c.parts|)
    && (s.starter != Receiving ==> s.feeder == Exited)
    && (s.starter == Closed ==> forall w | w in s.workers :: !w.Running?)
    && (forall i | 0 <= i < |s.workers| :: s.workers[i].Running? ==> s.workers[i].sent <= |c.parts[i]|)
    && (s.eof ==> s.starter == Closed && s.buffer == [])
    && |s.buffer| <= c.parallelism
  }

  predicate Inv(c: Config, s: State) {
    PhasesAgree(c, s) && TokensConserved(c, s) && RowsAccounted(c, s)
  }

  lemma {:induction false} PhasesKept(c: Config, s: State, e: Event)
    requires PhasesAgree(c, s) && Enabled(c, s, e)
    ensures PhasesAgree(c, Step(c, s, e))
  {
  }

  lemma {:induction false} TokensKept(c: Config, s: State, e: Event)
    requires PhasesAgree(c, s) && TokensConserved(c, s) && Enabled(c, s, e)
    ensures TokensConserved(c, Step(c, s, e))
  {
    var u, u' := Unreleased(s.workers), Unreleased(Step(c, s, e).workers);
    match e
    case StartWorker =>
      assert u' == u + [1];
      SumAppend(u, 1);
    case SendRow(i) =>
      assert u' == u;
    case LeaveGroup(i) =>
      assert u' == u;
    case ReleaseToken(i) =>
      assert u' == u[i := 0];
      SumUpdate(u, i, 0);
    case _ =>
  }

  lemma {:induction false} RowsKept(c: Config, s: State, e: Event)
    requires PhasesAgree(c, s) && RowsAccounted(c, s) && Enabled(c, s, e)
    ensures RowsAccounted(c, Step(c, s, e))
  {
    var s' := Step(c, s, e);
    if e.SendRow? {
      SendKeeps(c, s, e.worker);
    } else {
      if e.ReceiveRow? {
        assert Sent(s') == Sent(s);
      }
      forall i | 0 <= i < |c.parts| ensures Of(i, Sent(s')) == SentBy(c, s', i) {
        assert SentBy(c, s', i) == SentBy(c, s, i);
      }
    }
  }

  lemma {:induction false} SendKeeps(c: Config, s: State, i: nat)
    requires PhasesAgree(c, s) && RowsAccounted(c, s) && Enabled(c, s, SendRow(i))
    ensures RowsAccounted(c, Step(c, s, SendRow(i)))
  {
    var s' := Step(c, s, SendRow(i));
    var k := s.workers[i].sent;
    var t := Tagged(i, c.parts[i][k]);
    assert Sent(s') == Sent(s) + [t];
    forall p | 0 <= p < |c.parts| ensures Of(p, Sent(s')) == SentBy(c, s', p) {
      OfAppend(p, Sent(s), t);
      if p == i {
        assert c.parts[i][..k + 1] == c.parts[i][..k] + [c.parts[i][k]];
      }
    }
  }

  /** Every state of every run satisfies the invariant. */
  lemma {:induction false} EveryRunKeeps(c: Config, run: seq<Event>, s: State)
    requires After(c, run) == Some(s)
    ensures Inv(c, s)
    decreases |run|
  {
    if run != [] {
      var last := |run| - 1;
      var before := After(c, run[..last]).value;
      EveryRunKeeps(c, run[..last], before);
      PhasesKept(c, before, run[last]);
      TokensKept(c, before, run[last]);
      RowsKept(c, before, run[last]);
    }
  }

  // ----- safety

  /** A worker that wants to give its token back never waits for room in the channel, so the mutex it
      holds meanwhile is never held for long. */
  lemma {:induction false} ReleaseNeverBlocks(c: Config, run: seq<Event>, s: State, i: nat)
    requires After(c, run) == Some(s) && i < |s.workers| && s.workers[i] == Counted
    ensures Enabled(c, s, ReleaseToken(i))
  {
    EveryRunKeeps(c, run, s);
    SumUpdate(Unreleased(s.workers), i, 0);
  }

  lemma {:induction false} OfPrefix(i: nat, a: seq<Tagged>, b: seq<Tagged>)
    ensures Of(i, a) <= Of(i, a + b)
    decreases |b|
  {
    if b == [] {
      assert a + b == a;
    } else {
      var last := |b| - 1;
      OfPrefix(i, a, b[..last]);
      assert a + b == (a + b[..last]) + [b[last]];
      OfAppend(i, a + b[..last], b[last]);
    }
  }

  /** At any time the consumer has received a prefix of the rows of every partition. */
  lemma {:induction false} DeliveredInOrder(c: Config, run: seq<Event>, s: State, i: nat)
    requires After(c, run) == Some(s) && i < |c.parts|
    ensures Of(i, s.delivered) <= c.parts[i]
  {
    EveryRunKeeps(c, run, s);
    OfPrefix(i, s.delivered, s.buffer);
    assert Of(i, Sent(s)) == SentBy(c, s, i) <= c.parts[i];
  }

  /** The consumer has received all the rows of every partition: a permutation of the rows of all partitions, each
      partition in its own order. */
  ghost predicate AllDelivered(c: Config, s: State) {
    && (forall i | 0 <= i < |c.parts| :: Of(i, s.delivered) == c.parts[i])
    && multiset(Untag(s.delivered)) == multiset(Flatten(c.parts))
  }

  /** When the consumer is told that there are no more rows it has received all of them. */
  lemma {:induction false} EofMeansAllRows(c: Config, run: seq<Event>, s: State)
    requires After(c, run) == Some(s) && s.eof
    ensures AllDelivered(c, s)
  {
    EveryRunKeeps(c, run, s);
    assert Sent(s) == s.delivered;
    forall i | 0 <= i < |c.parts| ensures Of(i, s.delivered) == c.parts[i] {
      assert s.workers[i] in s.workers;
    }
    SplitByPart(s.delivered, |c.parts|);
    GroupsTogether(s.delivered, |c.parts|);
    assert Groups(s.delivered, |c.parts|) == c.parts;
  }

  function Untag(ts: seq<Tagged>): (r: seq<Row>)
    ensures |r| == |ts|
  {
    seq(|ts|, i requires 0 <= i < |ts| => ts[i].row)
  }

  /** The rows of the first `n` partitions, as a multiset. */
  function UpTo(ts: seq<Tagged>, n: nat): multiset<Row> {
    if n == 0 then multiset{} else UpTo(ts, n - 1) + multiset(Of(n - 1, ts))
  }

  lemma {:induction false} PartAppend(ts: seq<Tagged>, t: Tagged, p: nat)
    ensures multiset(Of(p, ts + [t])) == multiset(Of(p, ts)) + (if t.part == p then multiset{t.row} else multiset{})
  {
    OfAppend(p, ts, t);
    var s := Of(p, ts);
    assert Of(p, ts + [t]) == if t.part == p then s + [t.row] else s;
  }

  lemma {:induction false} UpToAppend(ts: seq<Tagged>, t: Tagged, n: nat)
    ensures UpTo(ts + [t], n) == UpTo(ts, n) + (if t.part < n then multiset{t.row} else multiset{})
  {
    if n > 0 {
      var p := n - 1;
      UpToAppend(ts, t, p);
      PartAppend(ts, t, p);
      AddToOne(UpTo(ts, p), UpTo(ts + [t], p), multiset(Of(p, ts)), multiset(Of(p, ts + [t])), t.row,
               t.part < p, t.part == p);
      assert t.part < n <==> t.part < p || t.part == p;
      assert UpTo(ts, n) == UpTo(ts, p) + multiset(Of(p, ts));
      assert UpTo(ts + [t], n) == UpTo(ts + [t], p) + multiset(Of(p, ts + [t]));
    }
  }

  lemma {:induction false} UpToNothing(n: nat)
    ensures UpTo([], n) == multiset{}
  {
    if n > 0 { UpToNothing(n - 1); }
  }

  lemma {:induction false} UntagAppend(ts: seq<Tagged>, t: Tagged)
    ensures multiset(Untag(ts + [t])) == multiset(Untag(ts)) + multiset{t.row}
  {
    assert Untag(ts + [t]) == Untag(ts) + [t.row];
  }

  /** Grouping rows by partition neither loses nor adds a row. */
  lemma {:induction false} SplitByPart(ts: seq<Tagged>, n: nat)
    requires forall t | t in ts :: t.part < n
    ensures multiset(Untag(ts)) == UpTo(ts, n)
    decreases |ts|
  {
    if ts == [] {
      UpToNothing(n);
    } else {
      var last := |ts| - 1;
      SplitByPart(ts[..last], n);
      UpToAppend(ts[..last], ts[last], n);
      assert ts == ts[..last] + [ts[last]];
      UntagAppend(ts[..last], ts[last]);
    }
  }

  /** The rows of the first `n` partitions. */
  function Groups(ts: seq<Tagged>, n: nat): (r: seq<seq<Row>>)
    ensures |r| == n && forall i | 0 <= i < n :: r[i] == Of(i, ts)
  {
    if n == 0 then [] else Groups(ts, n - 1) + [Of(n - 1, ts)]
  }

  lemma {:induction false} GroupsTogether(ts: seq<Tagged>, n: nat)
    ensures UpTo(ts, n) == multiset(Flatten(Groups(ts, n)))
  {
    if n > 0 {
      GroupsTogether(ts, n - 1);
      FlattenAppend(Groups(ts, n - 1), Of(n - 1, ts));
    }
  }

  // ----- progress

  /** The steps a partition still costs. */
  function Cost(c: Config, s: State, i: nat): nat
    requires i < |c.parts|
  {
    if i >= |s.workers| then 2 * |c.parts[i]| + 5
    else match s.workers[i]
      case Running(k) => if k <= |c.parts[i]| then 2 * (|c.parts[i]| - k) + 2 else 2
      case Counted => 1
      case Released => 0
  }

  function Costs(c: Config, s: State): (r: seq<nat>)
    ensures |r| == |c.parts|
  {
    seq(|c.parts|, i requires 0 <= i < |c.parts| => Cost(c, s, i))
  }

  /** An upper bound on the steps still to come. */
  function Measure(c: Config, s: State): nat {
    Sum(Costs(c, s)) + |s.buffer| + FeederCost(s.feeder) + StarterCost(s.starter) + (if s.eof then 0 else 1)
  }

  function FeederCost(f: Feeder): nat {
    match f
    case WaitingForToken => 2
    case HoldingToken => 1
    case _ => 0
  }

  function StarterCost(m: Starter): nat {
    match m
    case Receiving => 2
    case Draining => 1
    case Closed => 0
  }

  lemma {:induction false} StepCosts(c: Config, s: State, e: Event)
    requires PhasesAgree(c, s) && Enabled(c, s, e)
    ensures Measure(c, Step(c, s, e)) == Measure(c, s) - 1
  {
    var s' := Step(c, s, e);
    var k, k' := Costs(c, s), Costs(c, s');
    if e.StartWorker? || e.SendRow? || e.LeaveGroup? || e.ReleaseToken? {
      var i := if e.StartWorker? then |s.workers| else e.worker;
      assert k' == k[i := Cost(c, s', i)];
      SumUpdate(k, i, Cost(c, s', i));
    } else {
      assert k' == k;
    }
  }

  /** Every step is one of the steps counted at the start: no run is longer than that. */
  lemma {:induction false} RunsAreBounded(c: Config, run: seq<Event>, s: State)
    requires After(c, run) == Some(s)
    ensures |run| + Measure(c, s) == Measure(c, Init(c))
    decreases |run|
  {
    if run != [] {
      var last := |run| - 1;
      var before := After(c, run[..last]).value;
      RunsAreBounded(c, run[..last], before);
      EveryRunKeeps(c, run[..last], before);
      StepCosts(c, before, run[last]);
    }
  }

  /** No step is enabled. */
  ghost predicate Stuck(c: Config, s: State) {
    forall e :: !Enabled(c, s, e)
  }

  /** A worker that has not given its token back can go on, or the consumer can receive. */
  lemma {:induction false} UnreleasedCanGoOn(c: Config, s: State, i: nat) returns (e: Event)
    requires Inv(c, s) && c.parallelism > 0 && !s.eof
    requires i < |s.workers| && s.workers[i] != Released
    ensures Enabled(c, s, e)
  {
    match s.workers[i]
    case Running(k) =>
      if k == |c.parts[i]| {
        e := LeaveGroup(i);
      } else if |s.buffer| < c.parallelism {
        e := SendRow(i);
      } else {
        e := ReceiveRow;
      }
    case Counted =>
      SumUpdate(Unreleased(s.workers), i, 0);
      e := ReleaseToken(i);
  }

  /** As long as the end was not reported, something can happen. */
  lemma {:induction false} SomethingIsEnabled(c: Config, s: State) returns (e: Event)
    requires Inv(c, s) && c.parallelism > 0 && !s.eof
    ensures Enabled(c, s, e)
  {
    match s.feeder
    case WaitingForToken =>
      if s.free > 0 {
        e := TakeToken;
      } else {
        var i := SumPositive(Unreleased(s.workers));
        e := UnreleasedCanGoOn(c, s, i);
      }
    case HoldingToken => e := NextPartition;
    case Offering => e := StartWorker;
    case Exited =>
      if s.starter == Receiving {
        e := CloseTokens;
      } else if s.starter == Closed {
        e := if s.buffer == [] then ReceiveEof else ReceiveRow;
      } else if w :| w in s.workers && w.Running? {
        var i :| 0 <= i < |s.workers| && s.workers[i] == w;
        e := UnreleasedCanGoOn(c, s, i);
      } else {
        e := CloseRows;
      }
  }

  /** If the run cannot go on, it has reported the end. */
  ghost predicate EndsProperly(c: Config, run: seq<Event>) {
    After(c, run).Some? && Stuck(c, After(c, run).value) ==> After(c, run).value.eof
  }

  /** Every run that cannot go on has reported the end, iff there is at least one token. */
  lemma {:induction false} StuckMeansEof(c: Config)
    ensures (forall run :: EndsProperly(c, run)) <==> c.parallelism > 0
  {
    if c.parallelism > 0 {
      forall run ensures EndsProperly(c, run) {
        if After(c, run).Some? && !After(c, run).value.eof {
          EveryRunKeeps(c, run, After(c, run).value);
          var e := SomethingIsEnabled(c, After(c, run).value);
          assert !Stuck(c, After(c, run).value);
        }
      }
    } else {
      assert Stuck(c, Init(c));
      assert !EndsProperly(c, []);
    }
  }

  /** The exchange delivers: a run that cannot go on has reported the end, having delivered all rows. */
  lemma {:induction false} MaximalRunsDeliver(c: Config, run: seq<Event>, s: State)
    requires c.parallelism > 0 && After(c, run) == Some(s) && Stuck(c, s)
    ensures s.eof && AllDelivered(c, s)
  {
    StuckMeansEof(c);
    assert EndsProperly(c, run);
    EofMeansAllRows(c, run, s);
  }

  lemma {:induction false} RunGoesOn(c: Config, run: seq<Event>, s: State, e: Event)
    requires After(c, run) == Some(s) && Enabled(c, s, e)
    ensures After(c, run + [e]) == Some(Step(c, s, e))
  {
    assert (run + [e])[..|run|] == run;
  }

  lemma {:induction false} Regroup(run: seq<Event>, e: Event, more: seq<Event>)
    ensures run + [e] + more == run + ([e] + more)
  {
  }

  lemma {:induction false} CanReachEof(c: Config, run: seq<Event>, s: State) returns (more: seq<Event>, t: State)
    requires c.parallelism > 0 && After(c, run) == Some(s)
    ensures After(c, run + more) == Some(t) && t.eof
    decreases Measure(c, s)
  {
    if s.eof {
      more, t := [], s;
      assert run + more == run;
    } else {
      EveryRunKeeps(c, run, s);
      var e := SomethingIsEnabled(c, s);
      RunGoesOn(c, run, s, e);
      StepCosts(c, s, e);
      more, t := CanReachEof(c, run + [e], Step(c, s, e));
      Regroup(run, e, more);
      more := [e] + more;
    }
  }

  /** Every run can be brought to its end, where the consumer has all rows. */
  lemma {:induction false} EveryRunCanEnd(c: Config, run: seq<Event>, s: State) returns (more: seq<Event>, t: State)
    requires c.parallelism > 0 && After(c, run) == Some(s)
    ensures After(c, run + more) == Some(t) && t.eof && AllDelivered(c, t)
  {
    more, t := CanReachEof(c, run, s);
    EofMeansAllRows(c, run + more, t);
  }
}
