/** The index registry: reference counts, deferred deletion, and the two locks around them.

    A step is a section under the reference-count mutex `rcmut`, a write section of `mut`, or the reading and
    the writing half of a read section of `mut`, because read sections of different callers overlap: a
    lookup first finds a usable index and then retains it, a deletion first checks the status of the index
    and then changes it. */
module Registry {
  import opened Values

  datatype Key = Key(db: string, id: string)

  datatype Status = NotReady | Ready | Outdated

  /** A call of `DeleteIndex` that found its index, by how far it has come. */
  datatype Delete =
    | Checked(key: Key)    // in its read section, before it changes the status
    | Marked(key: Key)     // the status is changed
    | Queued(key: Key)     // waits for the last user of the index
    | Woken(key: Key)      // the last user is gone
    | Removing(key: Key)   // holds rcmut and waits for the write lock
    | Done(key: Key)       // the index is removed and `done` is signalled

  datatype State = State(
    indexes: set<Key>,
    statuses: map<Key, Status>,
    creating: set<Key>,           // added, and not reported as created yet
    refCounts: map<Key, int>,
    queue: map<Key, nat>,         // deleteIndexQueue: the deletion that waits for a key
    deletes: seq<Delete>,
    lookups: multiset<Key>,       // lookups that found an index and have not retained it yet
    held: multiset<Key>,          // what clients obtained and have not released
    rcHolder: Option<nat>,        // a deletion that keeps rcmut over several steps
    leaked: nat,                  // read locks that will never be released
    signals: multiset<nat>)       // the deletions whose `done` was signalled

  datatype Event =
    | Add(key: Key)               // the write section of AddIndex, for an index that passed the validation
    | Created(key: Key)
    | Find(key: Key)              // IndexByExpression finds a usable index
    | Retain(key: Key)
    | Release(key: Key)
    | Check(key: Key)             // DeleteIndex finds an index that can be removed
    | Mark(delete: nat)
    | Settle(delete: nat)         // under rcmut: queue the deletion or start removing
    | Remove(delete: nat)
    | Finish(delete: nat)         // the goroutine of a queued deletion
    | DeleteFromNothing           // DeleteIndex on an empty registry

  function Init(): State {
    State({}, map[], {}, map[], map[], [], multiset{}, multiset{}, None, 0, multiset{})
  }

  function StatusIn(statuses: map<Key, Status>, k: Key): Status {
    if k in statuses then statuses[k] else NotReady
  }

  function StatusOf(s: State, k: Key): Status {
    StatusIn(s.statuses, k)
  }

  function CountOf(refCounts: map<Key, int>, k: Key): int {
    if k in refCounts then refCounts[k] else 0
  }

  function RefCount(s: State, k: Key): int {
    CountOf(s.refCounts, k)
  }

  /** Nobody is in a read section of `mut`, so a writer can enter. */
  predicate NoReaders(s: State) {
    s.lookups == multiset{} && s.leaked == 0 && forall d | d in s.deletes :: !d.Checked?
  }

  /** Whether the step can be taken.  Read sections overlap freely; a write section excludes them. */
  predicate Enabled(s: State, e: Event) {
    match e
    case Add(k) => k !in s.indexes && NoReaders(s)
    case Created(k) => k in s.creating && NoReaders(s)
    case Find(k) => k in s.indexes && StatusOf(s, k) == Ready
    case Retain(k) => k in s.lookups && s.rcHolder.None?
    case Release(k) => k in s.held && s.rcHolder.None?
    case Check(k) => k in s.indexes && StatusOf(s, k) != NotReady
    case Mark(d) => d < |s.deletes| && s.deletes[d].Checked?
    case Settle(d) => d < |s.deletes| && s.deletes[d].Marked? && s.rcHolder.None?
    case Remove(d) => d < |s.deletes| && s.deletes[d].Removing? && NoReaders(s)
    case Finish(d) => d < |s.deletes| && s.deletes[d].Woken? && NoReaders(s)
    case DeleteFromNothing => s.indexes == {}
  }

  function Step(s: State, e: Event): State
    requires Enabled(s, e)
  {
    match e
    case Add(k) => s.(indexes := s.indexes + {k}, statuses := s.statuses[k := NotReady], creating := s.creating + {k})
    case Created(k) => s.(statuses := s.statuses[k := Ready], creating := s.creating - {k})
    case Find(k) => s.(lookups := s.lookups + multiset{k})
    case Retain(k) =>
      s.(lookups := s.lookups - multiset{k}, held := s.held + multiset{k},
         refCounts := s.refCounts[k := RefCount(s, k) + 1])
    case Release(k) => Released(s, k)
    case Check(k) => s.(deletes := s.deletes + [Checked(k)])
    case Mark(d) =>
      var k := s.deletes[d].key;
      s.(statuses := s.statuses[k := NotReady], deletes := s.deletes[d := Marked(k)])
    case Settle(d) =>
      var k := s.deletes[d].key;
      if RefCount(s, k) <= 0 then s.(rcHolder := Some(d), deletes := s.deletes[d := Removing(k)])
      else s.(queue := s.queue[k := d], deletes := s.deletes[d := Queued(k)])
    case Remove(d) => Removed(s, d).(rcHolder := None)
    case Finish(d) => Removed(s, d)
    case DeleteFromNothing => s.(leaked := s.leaked + 1)
  }

  /** `ReleaseIndex`: the last release wakes a deletion that waits for the index. */
  function Released(s: State, k: Key): State {
    var s' := s.(held := s.held - multiset{k}, refCounts := s.refCounts[k := RefCount(s, k) - 1]);
    if RefCount(s', k) <= 0 && k in s.queue && s.queue[k] < |s.deletes| then
      s'.(queue := s.queue - {k}, deletes := s.deletes[s.queue[k] := Woken(k)])
    else s'
  }

  function Removed(s: State, d: nat): State
    requires d < |s.deletes|
  {
    var k := s.deletes[d].key;
    s.(indexes := s.indexes - {k}, deletes := s.deletes[d := Done(k)], signals := s.signals + multiset{d})
  }

  /** The state after a run, unless some step was not enabled. */
  function From(s: State, run: seq<Event>): Option<State>
    decreases |run|
  {
    if run == [] then Some(s) else
    var last := |run| - 1;
    var r := From(s, run[..last]);
    if r.Some? && Enabled(r.value, run[last]) then Some(Step(r.value, run[last])) else None
  }

  function After(run: seq<Event>): Option<State> {
    From(Init(), run)
  }

  // ----- careful runs

  /** The steps the shared lock admits and should not: a deletion that marks an index while a lookup has found it,
      unless that is the only use of it, and a deletion that checks an index while another one has checked it. */
  predicate Careful(s: State, e: Event)
    requires Enabled(s, e)
  {
    match e
    case Mark(d) =>
      var k := s.deletes[d].key;
      k !in s.lookups || s.lookups[k] + s.held[k] == 1
    case Check(k) => forall d | d in s.deletes :: d != Checked(k)
    case _ => true
  }

  /** Every step of the run was careful. */
  predicate CarefulRun(s: State, run: seq<Event>)
    requires From(s, run).Some?
    decreases |run|
  {
    if run == [] then true else
    var last := |run| - 1;
    CarefulRun(s, run[..last]) && Careful(From(s, run[..last]).value, run[last])
  }

  /** The deletion has marked its index and not removed it yet. */
  predicate Live(d: Delete) {
    !d.Checked? && !d.Done?
  }

  /** Reference counts count what clients hold, and what they hold exists. */
  ghost predicate CountsAgree(refCounts: map<Key, int>, held: multiset<Key>, indexes: set<Key>) {
    && (forall k :: CountOf(refCounts, k) == held[k])
    && (forall k | k in held :: k in indexes)
  }

  /** A lookup in progress is on an existing index; an index in creation is not usable; no index is outdated. */
  predicate LookupsUsable(lookups: multiset<Key>, creating: set<Key>, indexes: set<Key>, statuses: map<Key, Status>) {
    && (forall k | k in lookups :: k in indexes)
    && (forall k | k in creating :: k in indexes && StatusIn(statuses, k) == NotReady)
    && (forall k | k in statuses :: statuses[k] != Outdated)
  }

  /** The index of a live deletion exists and is out of reach of new lookups; a lookup that found it before is the only
      use of it; an index that is free to be removed has no user. */
  predicate Guarded(s: State, d: Delete) {
    && (Live(d) ==> d.key in s.indexes && StatusOf(s, d.key) == NotReady)
    && (Live(d) && d.key in s.lookups ==> (d.Marked? || d.Removing?) && s.lookups[d.key] + s.held[d.key] == 1)
    && (d.Woken? || d.Removing? ==> d.key !in s.held)
    && (d.Checked? ==> d.key in s.indexes && StatusOf(s, d.key) != NotReady)
  }

  predicate DeletesGuarded(s: State) {
    && (forall i | 0 <= i < |s.deletes| :: Guarded(s, s.deletes[i]))
    && (forall i | 0 <= i < |s.deletes| :: Live(s.deletes[i]) ==> s.deletes[i].key !in s.creating)
  }

  /** One deletion at a time for every key, and one at a time that has checked it. */
  predicate DeletesDistinct(deletes: seq<Delete>) {
    forall i, j | 0 <= i < |deletes| && 0 <= j < |deletes| && i != j ::
      && (Live(deletes[i]) && Live(deletes[j]) ==> deletes[i].key != deletes[j].key)
      && (deletes[i].Checked? && deletes[j].Checked? ==> deletes[i].key != deletes[j].key)
  }

  /** A queued deletion has a user to wait for, and will be woken. */
  predicate QueueAgrees(queue: map<Key, nat>, deletes: seq<Delete>, held: multiset<Key>) {
    && (forall k | k in queue :: queue[k] < |deletes| && deletes[queue[k]] == Queued(k) && k in held)
    && (forall i | 0 <= i < |deletes| && deletes[i].Queued? :: deletes[i].key in queue && queue[deletes[i].key] == i)
  }

  /** A deletion signals `done` once, when it has removed its index. */
  ghost predicate SignalsAgree(deletes: seq<Delete>, signals: multiset<nat>) {
    && (forall i | 0 <= i < |deletes| :: signals[i] == if deletes[i].Done? then 1 else 0)
    && (forall i: nat | i in signals :: i < |deletes|)
  }

  /** Only the deletion that is removing its index keeps rcmut. */
  predicate HolderAgrees(deletes: seq<Delete>, rcHolder: Option<nat>) {
    && (forall i | 0 <= i < |deletes| :: deletes[i].Removing? ==> rcHolder == Some(i))
    && (rcHolder.Some? ==> rcHolder.value < |deletes| && deletes[rcHolder.value].Removing?)
  }

  ghost predicate Inv(s: State) {
    && CountsAgree(s.refCounts, s.held, s.indexes)
    && LookupsUsable(s.lookups, s.creating, s.indexes, s.statuses)
    && DeletesGuarded(s)
    && DeletesDistinct(s.deletes)
    && QueueAgrees(s.queue, s.deletes, s.held)
    && SignalsAgree(s.deletes, s.signals)
    && HolderAgrees(s.deletes, s.rcHolder)
    && (s.leaked > 0 ==> s.indexes == {})
  }

  lemma {:induction false} AddKeeps(s: State, k: Key)
    requires Inv(s) && Enabled(s, Add(k))
    ensures Inv(Step(s, Add(k)))
  {
  }

  lemma {:induction false} CreatedKeeps(s: State, k: Key)
    requires Inv(s) && Enabled(s, Created(k))
    ensures Inv(Step(s, Created(k)))
  {
  }

  lemma {:induction false} FindKeeps(s: State, k: Key)
    requires Inv(s) && Enabled(s, Find(k))
    ensures Inv(Step(s, Find(k)))
  {
    var s' := Step(s, Find(k));
    forall i | 0 <= i < |s'.deletes| ensures Guarded(s', s'.deletes[i]) { assert Guarded(s, s.deletes[i]); }
  }

  lemma {:induction false} CountUp(refCounts: map<Key, int>, held: multiset<Key>, indexes: set<Key>, k: Key)
    requires CountsAgree(refCounts, held, indexes) && k in indexes
    ensures CountsAgree(refCounts[k := CountOf(refCounts, k) + 1], held + multiset{k}, indexes)
  {
  }

  lemma {:induction false} QueueWithMore(queue: map<Key, nat>, deletes: seq<Delete>, held: multiset<Key>, k: Key)
    requires QueueAgrees(queue, deletes, held)
    ensures QueueAgrees(queue, deletes, held + multiset{k})
  {
  }

  lemma {:induction false} RetainGuarded(s: State, k: Key, d: Delete)
    requires Enabled(s, Retain(k)) && Guarded(s, d) && !d.Removing?
    ensures Guarded(Step(s, Retain(k)), d)
  {
  }

  lemma {:induction false} RetainKeeps(s: State, k: Key)
    requires Inv(s) && Enabled(s, Retain(k))
    ensures Inv(Step(s, Retain(k)))
  {
    var s' := Step(s, Retain(k));
    CountUp(s.refCounts, s.held, s.indexes, k);
    QueueWithMore(s.queue, s.deletes, s.held, k);
    forall i | 0 <= i < |s'.deletes| ensures Guarded(s', s'.deletes[i]) {
      assert Guarded(s, s.deletes[i]) && !s.deletes[i].Removing?;
      RetainGuarded(s, k, s.deletes[i]);
    }
  }

  /** A deletion goes on to a phase that is no more demanding on the others. */
  lemma {:induction false} DistinctAfter(deletes: seq<Delete>, d: nat, x: Delete)
    requires DeletesDistinct(deletes) && d < |deletes|
    requires x.key == deletes[d].key && !x.Checked? && (Live(x) ==> Live(deletes[d]))
    ensures DeletesDistinct(deletes[d := x])
  {
  }

  lemma {:induction false} QueueAfter(queue: map<Key, nat>, deletes: seq<Delete>, held: multiset<Key>, d: nat,
                                      x: Delete)
    requires QueueAgrees(queue, deletes, held) && d < |deletes|
    requires !x.Queued? && !deletes[d].Queued?
    ensures QueueAgrees(queue, deletes[d := x], held)
  {
  }

  lemma {:induction false} CountDown(refCounts: map<Key, int>, held: multiset<Key>, indexes: set<Key>, k: Key)
    requires CountsAgree(refCounts, held, indexes) && k in held
    ensures CountsAgree(refCounts[k := CountOf(refCounts, k) - 1], held - multiset{k}, indexes)
  {
  }

  lemma {:induction false} QueueAfterRelease(queue: map<Key, nat>, deletes: seq<Delete>, held: multiset<Key>, k: Key)
    requires QueueAgrees(queue, deletes, held) && k in held
    ensures held[k] > 1 ==> QueueAgrees(queue, deletes, held - multiset{k})
    ensures held[k] == 1 && k !in queue ==> QueueAgrees(queue, deletes, held - multiset{k})
    ensures held[k] == 1 && k in queue ==> QueueAgrees(queue - {k}, deletes[queue[k] := Woken(k)], held - multiset{k})
  {
    var h := held - multiset{k};
    assert forall x | x in held && x != k :: x in h;
  }

  lemma {:induction false} ReleaseKeeps(s: State, k: Key)
    requires Inv(s) && Enabled(s, Release(k))
    ensures Inv(Step(s, Release(k)))
  {
    assert RefCount(s, k) == s.held[k];
    if s.held[k] == 1 && k in s.queue {
      WakingKeeps(s, k);
    } else {
      OtherReleaseKeeps(s, k);
    }
  }

  lemma {:induction false} OtherReleaseKeeps(s: State, k: Key)
    requires Inv(s) && k in s.held && (s.held[k] > 1 || k !in s.queue)
    ensures Inv(Released(s, k))
  {
    var s' := Released(s, k);
    assert s' == s.(held := s.held - multiset{k}, refCounts := s.refCounts[k := RefCount(s, k) - 1]);
    CountDown(s.refCounts, s.held, s.indexes, k);
    QueueAfterRelease(s.queue, s.deletes, s.held, k);
    forall i | 0 <= i < |s'.deletes| ensures Guarded(s', s'.deletes[i]) { assert Guarded(s, s.deletes[i]); }
  }

  /** The last release hands the index over to the deletion that waits for it. */
  lemma {:induction false} WakingKeeps(s: State, k: Key)
    requires Inv(s) && k in s.queue && s.held[k] == 1
    ensures Inv(Released(s, k))
  {
    var s', d := Released(s, k), s.queue[k];
    assert s' == s.(held := s.held - multiset{k}, refCounts := s.refCounts[k := RefCount(s, k) - 1],
                    queue := s.queue - {k}, deletes := s.deletes[d := Woken(k)]);
    CountDown(s.refCounts, s.held, s.indexes, k);
    QueueAfterRelease(s.queue, s.deletes, s.held, k);
    DistinctAfter(s.deletes, d, Woken(k));
    QuietPhase(s.deletes, s.signals, s.rcHolder, d, Woken(k));
    WokenGuarded(s, k, s');
  }

  lemma {:induction false} WokenGuarded(s: State, k: Key, s': State)
    requires DeletesGuarded(s) && k in s.queue && s.queue[k] < |s.deletes| && s.deletes[s.queue[k]] == Queued(k)
    requires s'.held == s.held - multiset{k} && s.held[k] == 1 && s'.deletes == s.deletes[s.queue[k] := Woken(k)]
    requires s'.indexes == s.indexes && s'.statuses == s.statuses && s'.lookups == s.lookups &&
      s'.creating == s.creating
    ensures DeletesGuarded(s')
  {
    forall i | 0 <= i < |s'.deletes| ensures Guarded(s', s'.deletes[i]) { assert Guarded(s, s.deletes[i]); }
  }

  /** A phase in which a deletion neither keeps rcmut nor has signalled. */
  lemma {:induction false} QuietPhase(deletes: seq<Delete>, signals: multiset<nat>, rcHolder: Option<nat>, d: nat,
                                      x: Delete)
    requires SignalsAgree(deletes, signals) && HolderAgrees(deletes, rcHolder) && d < |deletes|
    requires !x.Done? && !x.Removing? && !deletes[d].Done? && !deletes[d].Removing?
    ensures SignalsAgree(deletes[d := x], signals) && HolderAgrees(deletes[d := x], rcHolder)
  {
  }

  lemma {:induction false} CheckKeeps(s: State, k: Key)
    requires Inv(s) && Enabled(s, Check(k)) && Careful(s, Check(k))
    ensures Inv(Step(s, Check(k)))
  {
    var s' := Step(s, Check(k));
    CheckedDistinct(s.deletes, k);
    CheckedQueue(s.queue, s.deletes, s.held, k);
    forall i | 0 <= i < |s'.deletes| ensures Guarded(s', s'.deletes[i]) {
      if i < |s.deletes| { assert Guarded(s, s.deletes[i]); }
    }
  }

  lemma {:induction false} CheckedDistinct(deletes: seq<Delete>, k: Key)
    requires DeletesDistinct(deletes) && forall d | d in deletes :: d != Checked(k)
    ensures DeletesDistinct(deletes + [Checked(k)])
  {
    forall i | 0 <= i < |deletes| && deletes[i].Checked? ensures deletes[i].key != k {
      assert deletes[i] in deletes && deletes[i] == Checked(deletes[i].key);
    }
  }

  lemma {:induction false} CheckedQueue(queue: map<Key, nat>, deletes: seq<Delete>, held: multiset<Key>, k: Key)
    requires QueueAgrees(queue, deletes, held)
    ensures QueueAgrees(queue, deletes + [Checked(k)], held)
  {
  }

  lemma {:induction false} MarkKeeps(s: State, d: nat)
    requires Inv(s) && Enabled(s, Mark(d)) && Careful(s, Mark(d))
    ensures Inv(Step(s, Mark(d)))
  {
    var k, s' := s.deletes[d].key, Step(s, Mark(d));
    assert Guarded(s, s.deletes[d]);
    forall i | 0 <= i < |s.deletes| && Live(s.deletes[i])
      ensures s.deletes[i].key != k { assert Guarded(s, s.deletes[i]); }
    MarkedDistinct(s.deletes, d);
    QueueAfter(s.queue, s.deletes, s.held, d, Marked(k));
    forall i | 0 <= i < |s'.deletes| ensures Guarded(s', s'.deletes[i]) { MarkGuarded(s, d, i); }
  }

  lemma {:induction false} MarkGuarded(s: State, d: nat, i: nat)
    requires DeletesGuarded(s) && DeletesDistinct(s.deletes) && Enabled(s, Mark(d)) && Careful(s, Mark(d))
    requires i < |s.deletes|
    ensures var s' := Step(s, Mark(d)); Guarded(s', s'.deletes[i])
  {
    assert Guarded(s, s.deletes[i]) && Guarded(s, s.deletes[d]);
  }

  lemma {:induction false} MarkedDistinct(deletes: seq<Delete>, d: nat)
    requires DeletesDistinct(deletes) && d < |deletes|
    requires forall i | 0 <= i < |deletes| && Live(deletes[i]) :: deletes[i].key != deletes[d].key
    ensures DeletesDistinct(deletes[d := Marked(deletes[d].key)])
  {
  }

  /** A deletion whose index is in use waits in the queue. */
  lemma {:induction false} QueueingKeeps(s: State, d: nat)
    requires Inv(s) && Enabled(s, Settle(d)) && RefCount(s, s.deletes[d].key) > 0
    ensures Inv(Step(s, Settle(d)))
  {
    var k, s' := s.deletes[d].key, Step(s, Settle(d));
    DistinctAfter(s.deletes, d, Queued(k));
    QueueAfterQueueing(s.queue, s.deletes, s.held, d);
    forall i | 0 <= i < |s'.deletes| ensures Guarded(s', s'.deletes[i]) { assert Guarded(s, s.deletes[i]); }
  }

  lemma {:induction false} QueueAfterQueueing(queue: map<Key, nat>, deletes: seq<Delete>, held: multiset<Key>, d: nat)
    requires QueueAgrees(queue, deletes, held) && DeletesDistinct(deletes)
    requires d < |deletes| && deletes[d].Marked? && deletes[d].key in held
    ensures QueueAgrees(queue[deletes[d].key := d], deletes[d := Queued(deletes[d].key)], held)
  {
  }

  /** A deletion whose index is not in use keeps rcmut until it has removed it. */
  lemma {:induction false} RemovingKeeps(s: State, d: nat)
    requires Inv(s) && Enabled(s, Settle(d)) && RefCount(s, s.deletes[d].key) <= 0
    ensures Inv(Step(s, Settle(d)))
  {
    var k, s' := s.deletes[d].key, Step(s, Settle(d));
    DistinctAfter(s.deletes, d, Removing(k));
    QueueAfter(s.queue, s.deletes, s.held, d, Removing(k));
    forall i | 0 <= i < |s'.deletes| ensures Guarded(s', s'.deletes[i]) { assert Guarded(s, s.deletes[i]); }
  }

  /** Removing the index of a deletion that is free to do so. */
  lemma {:induction false} RemovedKeeps(s: State, d: nat)
    requires Inv(s) && NoReaders(s) && d < |s.deletes| && (s.deletes[d].Woken? || s.deletes[d].Removing?)
    ensures Inv(Removed(s, d).(rcHolder := if s.deletes[d].Removing? then None else s.rcHolder))
  {
    var k, s' := s.deletes[d].key, Removed(s, d);
    assert Guarded(s, s.deletes[d]);
    DistinctAfter(s.deletes, d, Done(k));
    QueueAfter(s.queue, s.deletes, s.held, d, Done(k));
    SignalsAfter(s.deletes, s.signals, d, k);
    RemovedCreating(s, d);
    RemovedGuarded(s, d);
  }

  lemma {:induction false} RemovedGuarded(s: State, d: nat)
    requires DeletesGuarded(s) && DeletesDistinct(s.deletes) && NoReaders(s) && d < |s.deletes| && Live(s.deletes[d])
    ensures DeletesGuarded(Removed(s, d))
  {
    var k, s' := s.deletes[d].key, Removed(s, d);
    forall i | 0 <= i < |s'.deletes| ensures Guarded(s', s'.deletes[i]) {
      assert Guarded(s, s.deletes[i]);
      assert i != d && Live(s.deletes[i]) ==> s.deletes[i].key != k;
      assert s.deletes[i] in s.deletes;
    }
  }

  lemma {:induction false} RemovedCreating(s: State, d: nat)
    requires Inv(s) && NoReaders(s) && d < |s.deletes| && (s.deletes[d].Woken? || s.deletes[d].Removing?)
    ensures LookupsUsable(s.lookups, s.creating, s.indexes - {s.deletes[d].key}, s.statuses)
    ensures CountsAgree(s.refCounts, s.held, s.indexes - {s.deletes[d].key})
  {
    assert Guarded(s, s.deletes[d]);
  }

  lemma {:induction false} SignalsAfter(deletes: seq<Delete>, signals: multiset<nat>, d: nat, k: Key)
    requires SignalsAgree(deletes, signals) && d < |deletes| && !deletes[d].Done?
    ensures SignalsAgree(deletes[d := Done(k)], signals + multiset{d})
  {
  }

  lemma {:induction false} DeleteFromNothingKeeps(s: State)
    requires Inv(s) && Enabled(s, DeleteFromNothing)
    ensures Inv(Step(s, DeleteFromNothing))
  {
  }

  lemma {:induction false} StepKeeps(s: State, e: Event)
    requires Inv(s) && Enabled(s, e) && Careful(s, e)
    ensures Inv(Step(s, e))
  {
    match e
    case Add(k) => AddKeeps(s, k);
    case Created(k) => CreatedKeeps(s, k);
    case Find(k) => FindKeeps(s, k);
    case Retain(k) => RetainKeeps(s, k);
    case Release(k) => ReleaseKeeps(s, k);
    case Check(k) => CheckKeeps(s, k);
    case Mark(d) => MarkKeeps(s, d);
    case Settle(d) => if RefCount(s, s.deletes[d].key) > 0 { QueueingKeeps(s, d); } else { RemovingKeeps(s, d); }
    case Remove(d) => RemovedKeeps(s, d);
    case Finish(d) => RemovedKeeps(s, d);
    case DeleteFromNothing => DeleteFromNothingKeeps(s);
  }

  // ----- runs

  /** The run leads from one state to another, by careful steps only. */
  ghost predicate Leads(s: State, run: seq<Event>, t: State) {
    From(s, run) == Some(t) && CarefulRun(s, run)
  }

  lemma {:induction false} Stay(s: State)
    ensures Leads(s, [], s)
  {
  }

  lemma {:induction false} OneMore(s: State, run: seq<Event>, t: State, e: Event)
    requires Leads(s, run, t) && Enabled(t, e) && Careful(t, e)
    ensures Leads(s, run + [e], Step(t, e))
  {
    assert (run + [e])[..|run|] == run;
  }

  /** The last step of a run. */
  lemma {:induction false} LastStep(s: State, run: seq<Event>, u: State) returns (v: State)
    requires Leads(s, run, u) && run != []
    ensures Leads(s, run[..|run| - 1], v)
    ensures Enabled(v, run[|run| - 1]) && Careful(v, run[|run| - 1]) && Step(v, run[|run| - 1]) == u
  {
    v := From(s, run[..|run| - 1]).value;
  }

  lemma {:induction false} Then(s: State, first: seq<Event>, t: State, second: seq<Event>, u: State)
    requires Leads(s, first, t) && Leads(t, second, u)
    ensures Leads(s, first + second, u)
    decreases |second|
  {
    if second == [] {
      assert first + second == first && u == t;
    } else {
      var init, e := second[..|second| - 1], second[|second| - 1];
      var v := LastStep(t, second, u);
      Then(s, first, t, init, v);
      OneMore(s, first + init, v, e);
      Regroup(first, second);
    }
  }

  lemma {:induction false} Regroup(first: seq<Event>, second: seq<Event>)
    requires second != []
    ensures first + second[..|second| - 1] + [second[|second| - 1]] == first + second
  {
  }

  /** Every careful run keeps the invariant. */
  lemma {:induction false} CarefulRunsKeep(s: State, run: seq<Event>, t: State)
    requires Inv(s) && Leads(s, run, t)
    ensures Inv(t)
    decreases |run|
  {
    if run != [] {
      var last := |run| - 1;
      var before := From(s, run[..last]).value;
      CarefulRunsKeep(s, run[..last], before);
      StepKeeps(before, run[last]);
    }
  }

  // ----- safety

  /** No client holds an index that was removed, and no queued deletion waits for a wake-up that will not come. */
  ghost predicate Safe(s: State) {
    && (forall k | k in s.held :: k in s.indexes)
    && (forall i | 0 <= i < |s.deletes| && s.deletes[i].Queued? :: Awaited(s, i))
    && (forall i | 0 <= i < |s.deletes| :: s.signals[i] == if s.deletes[i].Done? then 1 else 0)
  }

  /** The key of the deletion is in use, and its last release will wake this deletion. */
  predicate Awaited(s: State, i: nat)
    requires i < |s.deletes|
  {
    var k := s.deletes[i].key;
    RefCount(s, k) > 0 && RefCount(s, k) == s.held[k] && k in s.queue && s.queue[k] == i
  }

  lemma {:induction false} InvIsSafe(s: State)
    requires Inv(s)
    ensures Safe(s)
  {
  }

  /** Every careful run from the start is safe. */
  lemma {:induction false} CarefulRunsAreSafe(run: seq<Event>, t: State)
    requires Leads(Init(), run, t)
    ensures Inv(t) && Safe(t)
  {
    CarefulRunsKeep(Init(), run, t);
    InvIsSafe(t);
  }

  // ----- what can be made of a careless step

  /** A deletion keeps rcmut and waits for the write lock, while a lookup in its read section waits for rcmut. */
  predicate Deadlocked(s: State) {
    s.rcHolder.Some? && s.lookups != multiset{}
  }

  /** Nobody is in a read section or keeps rcmut. */
  predicate Quiet(s: State) {
    NoReaders(s) && s.rcHolder.None?
  }

  /** Same indexes, deletions, queue and locks; only clients have moved. */
  predicate OnlyClientsMoved(s: State, t: State) {
    && t.indexes == s.indexes && t.statuses == s.statuses && t.deletes == s.deletes && t.queue == s.queue
    && t.rcHolder == s.rcHolder && t.leaked == s.leaked && t.creating == s.creating
  }

  predicate NoRelease(run: seq<Event>) {
    forall e | e in run :: !e.Release?
  }

  /** Every count is what clients hold. */
  ghost predicate Counted(s: State) {
    forall k :: RefCount(s, k) == s.held[k]
  }

  /** A lookup in progress retains what it found. */
  lemma {:induction false} RetainOne(s: State, k: Key)
    requires s.rcHolder.None? && k in s.lookups
    ensures Enabled(s, Retain(k)) && Careful(s, Retain(k))
    ensures var t := Step(s, Retain(k));
      && OnlyClientsMoved(s, t) && t.lookups == s.lookups - multiset{k} && t.held == s.held + multiset{k}
      && (Counted(s) ==> Counted(t))
  {
  }

  lemma {:induction false} MovedOn(held: multiset<Key>, lookups: multiset<Key>, k: Key)
    requires k in lookups
    ensures (held + multiset{k}) + (lookups - multiset{k}) == held + lookups
    ensures |lookups - multiset{k}| < |lookups|
  {
  }

  /** The lookups in progress retain what they found. */
  lemma {:induction false} Drain(s: State) returns (run: seq<Event>, t: State)
    requires s.rcHolder.None?
    ensures Leads(s, run, t) && OnlyClientsMoved(s, t)
    ensures t.lookups == multiset{} && t.held == s.held + s.lookups && NoRelease(run)
    ensures Counted(s) ==> Counted(t)
    decreases |s.lookups|
  {
    if s.lookups == multiset{} {
      Stay(s);
      run, t := [], s;
    } else {
      var k :| k in s.lookups;
      var s' := Step(s, Retain(k));
      RetainOne(s, k);
      MovedOn(s.held, s.lookups, k);
      OneStep(s, Retain(k));
      var rest;
      rest, t := Drain(s');
      Then(s, [Retain(k)], s', rest, t);
      run := [Retain(k)] + rest;
    }
  }

  /** A deletion that has checked its index marks it. */
  lemma {:induction false} MarkOne(s: State, d: nat)
    requires s.lookups == multiset{} && d < |s.deletes| && s.deletes[d].Checked?
    ensures Enabled(s, Mark(d)) && Careful(s, Mark(d))
    ensures var t := Step(s, Mark(d));
      t == s.(statuses := t.statuses, deletes := s.deletes[d := Marked(s.deletes[d].key)])
  {
  }

  /** The deletions that had checked their index have marked it, up to a position. */
  predicate MarkedUpTo(s: State, t: State, n: nat) {
    && t == s.(statuses := t.statuses, deletes := t.deletes) && n <= |t.deletes| == |s.deletes|
    && forall i | 0 <= i < |s.deletes| ::
      t.deletes[i] == if i < n && s.deletes[i].Checked? then Marked(s.deletes[i].key) else s.deletes[i]
  }

  lemma {:induction false} MarkedOneMore(s: State, t: State, n: nat, u: State)
    requires MarkedUpTo(s, t, n) && n < |s.deletes|
    requires var d := t.deletes[n];
      u == if d.Checked? then t.(statuses := u.statuses, deletes := t.deletes[n := Marked(d.key)]) else t
    ensures MarkedUpTo(s, u, n + 1)
  {
  }

  lemma {:induction false} MarkAll(s: State, n: nat) returns (run: seq<Event>, t: State)
    requires s.lookups == multiset{} && n <= |s.deletes|
    ensures Leads(s, run, t) && MarkedUpTo(s, t, n) && NoRelease(run)
    decreases n
  {
    if n == 0 {
      Stay(s);
      run, t := [], s;
    } else {
      var run1, s1 := MarkAll(s, n - 1);
      run, t := run1, s1;
      if s1.deletes[n - 1].Checked? {
        MarkOne(s1, n - 1);
        OneMore(s, run1, s1, Mark(n - 1));
        run, t := run1 + [Mark(n - 1)], Step(s1, Mark(n - 1));
      }
      MarkedOneMore(s, s1, n - 1, t);
    }
  }

  /** The clients that hold an index release it, which wakes a deletion that waits for it. */
  lemma {:induction false} ReleaseAll(s: State, k: Key) returns (run: seq<Event>, t: State)
    requires s.rcHolder.None? && RefCount(s, k) == s.held[k] &&
      (k in s.queue ==> s.queue[k] < |s.deletes| && k in s.held)
    ensures Leads(s, run, t)
    ensures t == s.(held := s.held[k := 0], refCounts := t.refCounts, queue := t.queue, deletes := t.deletes)
    ensures RefCount(t, k) == 0 && k !in t.queue
    ensures t.deletes == if k in s.queue then s.deletes[s.queue[k] := Woken(k)] else s.deletes
    decreases s.held[k]
  {
    if s.held[k] == 0 {
      Stay(s);
      run, t := [], s;
      assert s.held[k := 0] == s.held;
    } else {
      var s' := Step(s, Release(k));
      Stay(s);
      OneMore(s, [], s, Release(k));
      assert s'.held == s.held[k := s.held[k] - 1];
      var rest;
      rest, t := ReleaseAll(s', k);
      Then(s, [] + [Release(k)], s', rest, t);
      run := [] + [Release(k)] + rest;
      assert s'.held[k := 0] == s.held[k := 0];
    }
  }

  lemma {:induction false} OneStep(s: State, e: Event)
    requires Enabled(s, e) && Careful(s, e)
    ensures Leads(s, [e], Step(s, e))
  {
    Stay(s);
    OneMore(s, [], s, e);
    assert [] + [e] == [e];
  }

  /** A deletion that waits for an index which a lookup has found: the clients release it, the lookup retains it, and
      the deletion removes it. */
  lemma {:induction false} QueuedRemovesHeld(s: State, d: nat) returns (run: seq<Event>, t: State)
    requires s.rcHolder.None? && s.leaked == 0 && d < |s.deletes| && s.deletes[d].Queued?
    requires var k := s.deletes[d].key;
      k in s.queue && s.queue[k] == d && k in s.held && RefCount(s, k) == s.held[k] && k in s.lookups
    ensures Leads(s, run, t) && !Safe(t)
  {
    var k := s.deletes[d].key;
    var run1, s1 := ReleaseAll(s, k);
    var run2, s2 := Drain(s1);
    Then(s, run1, s1, run2, s2);
    var run3, s3 := MarkAll(s2, |s2.deletes|);
    Then(s, run1 + run2, s2, run3, s3);
    assert s3.deletes[d] == Woken(k) && NoReaders(s3);
    t := Step(s3, Finish(d));
    OneMore(s, run1 + run2 + run3, s3, Finish(d));
    run := run1 + run2 + run3 + [Finish(d)];
    assert k in t.held && k !in t.indexes;
  }

  /** Marking an index that a lookup has found, beside another use of it, has an unsafe continuation. */
  lemma {:induction false} CarelessMarkIsUnsafe(s: State, d: nat) returns (run: seq<Event>, t: State)
    requires Inv(s) && !Deadlocked(s) && Enabled(s, Mark(d)) && !Careful(s, Mark(d))
    ensures Leads(Step(s, Mark(d)), run, t) && !Safe(t)
  {
    var k, s0 := s.deletes[d].key, Step(s, Mark(d));
    assert Guarded(s, s.deletes[d]) && RefCount(s, k) == s.held[k];
    var s1, run1 := s0, [];
    Stay(s0);
    if k !in s.held {
      s1, run1 := Step(s0, Retain(k)), [Retain(k)];
      OneStep(s0, Retain(k));
    }
    assert RefCount(s1, k) == s1.held[k] > 0 && k in s1.lookups && s1.deletes[d] == Marked(k);
    var s2 := Step(s1, Settle(d));
    OneMore(s0, run1, s1, Settle(d));
    var rest;
    rest, t := QueuedRemovesHeld(s2, d);
    Then(s0, run1 + [Settle(d)], s2, rest, t);
    run := run1 + [Settle(d)] + rest;
  }

  /** Two deletions that have marked the same index, which is in use: the second one takes the place of the first one
      in the queue. */
  lemma {:induction false} MarkedTwiceIsUnsafe(s: State, i: nat, j: nat, k: Key) returns (run: seq<Event>, t: State)
    requires s.rcHolder.None? && RefCount(s, k) > 0
    requires i < |s.deletes| && j < |s.deletes| && i != j && s.deletes[i] == s.deletes[j] == Marked(k)
    ensures Leads(s, run, t) && !Safe(t)
  {
    var s1 := Step(s, Settle(i));
    OneStep(s, Settle(i));
    t := Step(s1, Settle(j));
    OneMore(s, [Settle(i)], s1, Settle(j));
    run := [Settle(i)] + [Settle(j)];
    assert t.deletes[i] == Queued(k) && !Awaited(t, i);
  }

  /** Two deletions that have checked the same index mark it, whatever the other one does. */
  lemma {:induction false} CheckedTwiceIsUnsafe(s: State, i: nat, j: nat, k: Key) returns (run: seq<Event>, t: State)
    requires s.rcHolder.None? && s.lookups == multiset{} && RefCount(s, k) > 0
    requires i < |s.deletes| && j < |s.deletes| && i != j && s.deletes[i] == s.deletes[j] == Checked(k)
    ensures Leads(s, run, t) && !Safe(t)
  {
    var s1 := Step(s, Mark(i));
    OneStep(s, Mark(i));
    var s2 := Step(s1, Mark(j));
    OneMore(s, [Mark(i)], s1, Mark(j));
    var rest;
    rest, t := MarkedTwiceIsUnsafe(s2, i, j, k);
    Then(s, [Mark(i)] + [Mark(j)], s2, rest, t);
    run := [Mark(i)] + [Mark(j)] + rest;
  }

  /** A client finds and retains a usable index. */
  lemma {:induction false} UseIndex(s: State, k: Key) returns (run: seq<Event>, t: State)
    requires s.rcHolder.None? && s.lookups == multiset{} && k in s.indexes && StatusOf(s, k) == Ready
    ensures Leads(s, run, t) && t == s.(held := t.held, refCounts := t.refCounts)
    ensures RefCount(t, k) == RefCount(s, k) + 1
  {
    var s1 := Step(s, Find(k));
    OneStep(s, Find(k));
    t := Step(s1, Retain(k));
    OneMore(s, [Find(k)], s1, Retain(k));
    run := [Find(k)] + [Retain(k)];
    assert t.lookups == multiset{};
  }

  /** A deletion of an unused index removes it, and the index is added again. */
  lemma {:induction false} ReplaceIndex(s: State, i: nat, k: Key) returns (run: seq<Event>, t: State)
    requires Quiet(s) && RefCount(s, k) <= 0 && i < |s.deletes| && s.deletes[i] == Marked(k)
    ensures Leads(s, run, t) && Quiet(t) && k in t.indexes && StatusOf(t, k) == Ready
    ensures t.refCounts == s.refCounts && t.deletes == s.deletes[i := Done(k)]
  {
    var s1 := Step(s, Settle(i));
    OneStep(s, Settle(i));
    assert NoReaders(s1);
    var s2 := Step(s1, Remove(i));
    OneMore(s, [Settle(i)], s1, Remove(i));
    assert s2.deletes == s.deletes[i := Done(k)];
    assert NoReaders(s2);
    var rest;
    rest, t := AddUsable(s2, k);
    Then(s, [Settle(i)] + [Remove(i)], s2, rest, t);
    run := [Settle(i)] + [Remove(i)] + rest;
  }

  /** A queued deletion of an index that is usable again loses its place to another one. */
  lemma {:induction false} QueuedIsOvertaken(s: State, j: nat, k: Key) returns (run: seq<Event>, t: State)
    requires Quiet(s) && RefCount(s, k) > 0 && j < |s.deletes| && s.deletes[j] == Queued(k)
    requires k in s.indexes && StatusOf(s, k) == Ready
    ensures Leads(s, run, t) && !Safe(t)
  {
    var m := |s.deletes|;
    var s1 := Step(s, Check(k));
    OneStep(s, Check(k));
    MarkOne(s1, m);
    var s2 := Step(s1, Mark(m));
    OneMore(s, [Check(k)], s1, Mark(m));
    t := Step(s2, Settle(m));
    OneMore(s, [Check(k)] + [Mark(m)], s2, Settle(m));
    run := [Check(k)] + [Mark(m)] + [Settle(m)];
    assert t.deletes[j] == Queued(k) && !Awaited(t, j);
  }

  /** Two deletions that have marked the same index, which nobody uses: the first one removes it; the index is added
      and used again; the second one is queued, and a third one takes its place. */
  lemma {:induction false} MarkedTwiceUnusedIsUnsafe(s: State, i: nat, j: nat, k: Key)
      returns (run: seq<Event>, t: State)
    requires Quiet(s) && RefCount(s, k) == 0
    requires i < |s.deletes| && j < |s.deletes| && i != j && s.deletes[i] == s.deletes[j] == Marked(k)
    ensures Leads(s, run, t) && !Safe(t)
  {
    var run1, s1 := ReplaceIndex(s, i, k);
    var run2, s2 := UseIndex(s1, k);
    Then(s, run1, s1, run2, s2);
    var s3 := Step(s2, Settle(j));
    OneMore(s, run1 + run2, s2, Settle(j));
    assert Quiet(s3);
    var rest;
    rest, t := QueuedIsOvertaken(s3, j, k);
    Then(s, run1 + run2 + [Settle(j)], s3, rest, t);
    run := run1 + run2 + [Settle(j)] + rest;
  }

  /** While a deletion keeps rcmut and nobody looks an index up, the other deletions mark theirs, and it ends. */
  lemma {:induction false} HolderEnds(s: State, h: nat) returns (run: seq<Event>, t: State)
    requires s.lookups == multiset{} && s.leaked == 0 && s.rcHolder == Some(h)
    requires h < |s.deletes| && s.deletes[h].Removing?
    ensures Leads(s, run, t) && Quiet(t) && NoRelease(run) && t.refCounts == s.refCounts && t.held == s.held
    ensures |t.deletes| == |s.deletes| && t.deletes[h] == Done(s.deletes[h].key)
    ensures forall i | 0 <= i < |s.deletes| && i != h ::
      t.deletes[i] == if s.deletes[i].Checked? then Marked(s.deletes[i].key) else s.deletes[i]
  {
    var run1, s1 := MarkAll(s, |s.deletes|);
    assert NoReaders(s1) && s1.deletes[h] == s.deletes[h];
    t := Step(s1, Remove(h));
    OneMore(s, run1, s1, Remove(h));
    run := run1 + [Remove(h)];
    assert NoReaders(t);
  }

  /** Two deletions have checked an index while a third one keeps rcmut. */
  lemma {:induction false} CheckedTwiceBesideHolder(s: State, i: nat, j: nat, k: Key)
      returns (run: seq<Event>, t: State)
    requires s.lookups == multiset{} && s.leaked == 0 && s.rcHolder.Some? && RefCount(s, k) >= 0
    requires s.rcHolder.value < |s.deletes| && s.deletes[s.rcHolder.value].Removing?
    requires i < |s.deletes| && j < |s.deletes| && i != j && s.deletes[i] == s.deletes[j] == Checked(k)
    ensures Leads(s, run, t) && !Safe(t)
  {
    var run1, s1 := HolderEnds(s, s.rcHolder.value);
    var rest;
    if RefCount(s, k) > 0 {
      rest, t := MarkedTwiceIsUnsafe(s1, i, j, k);
    } else {
      rest, t := MarkedTwiceUnusedIsUnsafe(s1, i, j, k);
    }
    Then(s, run1, s1, rest, t);
    run := run1 + rest;
  }

  /** Two deletions have checked an index, and rcmut is free. */
  lemma {:induction false} CheckedTwiceIsUsed(s: State, i: nat, j: nat, k: Key) returns (run: seq<Event>, t: State)
    requires s.rcHolder.None? && Counted(s) && k in s.indexes && StatusOf(s, k) == Ready
    requires i < |s.deletes| && j < |s.deletes| && i != j && s.deletes[i] == s.deletes[j] == Checked(k)
    ensures Leads(s, run, t) && !Safe(t)
  {
    var run1, s1 := Drain(s);
    if RefCount(s1, k) <= 0 {
      var run2, s2 := UseIndex(s1, k);
      Then(s, run1, s1, run2, s2);
      run1, s1 := run1 + run2, s2;
    }
    var rest;
    rest, t := CheckedTwiceIsUnsafe(s1, i, j, k);
    Then(s, run1, s1, rest, t);
    run := run1 + rest;
  }

  /** Checking an index that another deletion has checked has an unsafe continuation. */
  lemma {:induction false} CarelessCheckIsUnsafe(s: State, k: Key) returns (run: seq<Event>, t: State)
    requires Inv(s) && !Deadlocked(s) && Enabled(s, Check(k)) && !Careful(s, Check(k))
    ensures Leads(Step(s, Check(k)), run, t) && !Safe(t)
  {
    var i :| 0 <= i < |s.deletes| && s.deletes[i] == Checked(k);
    var s0 := Step(s, Check(k));
    assert RefCount(s, k) == s.held[k] && StatusOf(s, k) == Ready;
    if s.rcHolder.Some? {
      run, t := CheckedTwiceBesideHolder(s0, i, |s.deletes|, k);
    } else {
      assert Counted(s0) by { assert forall x :: RefCount(s, x) == s.held[x]; }
      run, t := CheckedTwiceIsUsed(s0, i, |s.deletes|, k);
    }
  }

  /** In a deadlock nothing that is to be safe changes any more. */
  ghost predicate SafelyStuck(s: State) {
    Deadlocked(s) && Safe(s) && forall i: nat | i in s.signals :: i < |s.deletes|
  }

  lemma {:induction false} SafelyStuckStays(s: State, e: Event)
    requires SafelyStuck(s) && Enabled(s, e)
    ensures SafelyStuck(Step(s, e))
  {
    var t := Step(s, e);
    assert t.held == s.held && t.indexes >= s.indexes && t.queue == s.queue && t.refCounts == s.refCounts;
    forall i | 0 <= i < |t.deletes| && t.deletes[i].Queued? ensures Awaited(t, i) {
      assert i < |s.deletes| && s.deletes[i] == t.deletes[i];
      assert Awaited(s, i);
    }
    assert |t.deletes| >= |s.deletes| && t.signals == s.signals;
  }

  lemma {:induction false} SafelyStuckForEver(s: State, run: seq<Event>, t: State)
    requires SafelyStuck(s) && From(s, run) == Some(t)
    ensures SafelyStuck(t)
    decreases |run|
  {
    if run != [] {
      var last := |run| - 1;
      var before := From(s, run[..last]).value;
      SafelyStuckForEver(s, run[..last], before);
      SafelyStuckStays(before, run[last]);
    }
  }

  /** Whatever careful steps follow, the registry is safe. */
  ghost predicate SafeOnward(s: State) {
    forall run, t :: Leads(s, run, t) ==> Safe(t)
  }

  /** Under the lock the code takes, a step after which all careful runs are safe is exactly a careful one, or one that
      comes too late to matter: in a deadlock. */
  lemma {:induction false} StepIsSafeIff(s: State, e: Event)
    requires Inv(s) && Enabled(s, e)
    ensures SafeOnward(Step(s, e)) <==> Careful(s, e) || Deadlocked(s)
  {
    if Careful(s, e) {
      StepKeeps(s, e);
      forall run, t | Leads(Step(s, e), run, t) ensures Safe(t) {
        CarefulRunsKeep(Step(s, e), run, t);
        InvIsSafe(t);
      }
    } else if Deadlocked(s) {
      InvIsSafe(s);
      SafelyStuckStays(s, e);
      forall run, t | Leads(Step(s, e), run, t) ensures Safe(t) {
        SafelyStuckForEver(Step(s, e), run, t);
      }
    } else if e.Mark? {
      var run, t := CarelessMarkIsUnsafe(s, e.delete);
      assert Leads(Step(s, e), run, t);
    } else {
      var run, t := CarelessCheckIsUnsafe(s, e.key);
      assert Leads(Step(s, e), run, t);
    }
  }

  // ----- careless runs from the start

  lemma {:induction false} Extend(run: seq<Event>, e: Event)
    requires After(run).Some? && Enabled(After(run).value, e)
    ensures After(run + [e]) == Some(Step(After(run).value, e))
  {
    assert (run + [e])[..|run|] == run;
  }

  /** The index is ready, held once, and found by another client. */
  function FoundTwice(k: Key): State {
    Init().(indexes := {k}, statuses := map[k := Ready], refCounts := map[k := 1], held := multiset{k},
      lookups := multiset{k})
  }

  /** The index is ready, and nobody uses it. */
  function Usable(k: Key): State {
    Init().(indexes := {k}, statuses := map[k := Ready])
  }

  lemma {:induction false} UsableIsReachable(k: Key) returns (run: seq<Event>)
    ensures After(run) == Some(Usable(k))
  {
    run := [];
    Extend(run, Add(k)); run := run + [Add(k)];
    Extend(run, Created(k)); run := run + [Created(k)];
    var s := After(run).value;
    assert s.indexes == {k} && s.creating == {} && s.statuses == map[k := Ready];
  }

  lemma {:induction false} FoundTwiceIsReachable(k: Key) returns (run: seq<Event>)
    ensures After(run) == Some(FoundTwice(k))
  {
    run := UsableIsReachable(k);
    Extend(run, Find(k)); run := run + [Find(k)];
    Extend(run, Retain(k)); run := run + [Retain(k)];
    Extend(run, Find(k)); run := run + [Find(k)];
    var s := After(run).value;
    assert s.refCounts == map[k := 1];
    assert s.held == multiset{k} && s.lookups == multiset{k};
  }

  /** The deletion has marked the index and waits for the client that holds it. */
  function MarkedMeanwhile(k: Key): State {
    FoundTwice(k).(statuses := map[k := NotReady], deletes := [Queued(k)], queue := map[k := 0])
  }

  /** The index is marked, and its deletion has come this far. */
  function FoundAndMarked(k: Key, d: Delete): State {
    FoundTwice(k).(statuses := map[k := NotReady], deletes := [d])
  }

  lemma {:induction false} FoundTwiceMarked(k: Key)
    ensures var s := FoundTwice(k);
      && Enabled(s, Check(k)) && Enabled(Step(s, Check(k)), Mark(0))
      && Step(Step(s, Check(k)), Mark(0)) == FoundAndMarked(k, Marked(k))
  {
    assert Step(FoundTwice(k), Check(k)).deletes == [Checked(k)];
  }

  lemma {:induction false} FoundTwiceQueued(k: Key)
    ensures var s := FoundAndMarked(k, Marked(k));
      Enabled(s, Settle(0)) && Step(s, Settle(0)) == MarkedMeanwhile(k)
  {
    assert Step(FoundAndMarked(k, Marked(k)), Settle(0)).deletes == [Queued(k)];
  }

  lemma {:induction false} MarkedMeanwhileIsReachable(k: Key) returns (run: seq<Event>)
    ensures After(run) == Some(MarkedMeanwhile(k))
  {
    run := FoundTwiceIsReachable(k);
    FoundTwiceMarked(k);
    FoundTwiceQueued(k);
    Extend(run, Check(k)); run := run + [Check(k)];
    Extend(run, Mark(0)); run := run + [Mark(0)];
    Extend(run, Settle(0)); run := run + [Settle(0)];
  }

  /** One client holds the index and another one has found it when the deletion marks it; the first release
      wakes the deletion although the second client goes on to retain the index. */
  lemma {:induction false} RemovedWhileHeld(k: Key) returns (run: seq<Event>)
    ensures After(run).Some?
    ensures k in After(run).value.held && k !in After(run).value.indexes
  {
    run := MarkedMeanwhileIsReachable(k);
    Extend(run, Release(k)); run := run + [Release(k)];
    assert After(run).value.deletes == [Woken(k)];
    Extend(run, Retain(k)); run := run + [Retain(k)];
    assert After(run).value.lookups == multiset{};
    Extend(run, Finish(0)); run := run + [Finish(0)];
  }

  /** Two deletions that check the status of an index in use before either marks it: the second one takes the
      place of the first one in the queue, which then waits for ever. */
  lemma {:induction false} QueuePlaceTaken(k: Key) returns (run: seq<Event>)
    ensures After(run).Some? && |After(run).value.deletes| > 0
    ensures After(run).value.deletes[0].Queued? && !Awaited(After(run).value, 0)
  {
    run := FoundTwiceIsReachable(k);
    Extend(run, Check(k)); run := run + [Check(k)];
    Extend(run, Check(k)); run := run + [Check(k)];
    assert After(run).value.deletes == [Checked(k), Checked(k)];
    Extend(run, Mark(0)); run := run + [Mark(0)];
    Extend(run, Mark(1)); run := run + [Mark(1)];
    assert After(run).value.deletes == [Marked(k), Marked(k)];
    Extend(run, Settle(0)); run := run + [Settle(0)];
    assert After(run).value.deletes == [Queued(k), Marked(k)];
    Extend(run, Settle(1)); run := run + [Settle(1)];
  }

  // ----- progress

  /** The steps that bring the two together: a deletion takes rcmut to remove an index while a lookup is in progress, or
      a lookup begins while a deletion keeps rcmut. */
  predicate Collides(s: State, e: Event) {
    || (e.Settle? && e.delete < |s.deletes| && RefCount(s, s.deletes[e.delete].key) <= 0 && s.lookups != multiset{})
    || (e.Find? && s.rcHolder.Some?)
  }

  lemma {:induction false} DeadlockStays(s: State, e: Event)
    requires Deadlocked(s) && Enabled(s, e)
    ensures var s' := Step(s, e);
      Deadlocked(s') && s'.rcHolder == s.rcHolder && s'.held == s.held && s'.signals == s.signals &&
        s'.indexes == s.indexes && s'.creating == s.creating
    ensures var s' := Step(s, e);
      |s'.deletes| >= |s.deletes| && forall i | 0 <= i < |s.deletes| :: s'.deletes[i].Done? <==> s.deletes[i].Done?
  {
  }

  /** From a deadlock on, nobody obtains or releases an index, no deletion ends, no index is added, and none that is
      being created becomes usable. */
  lemma {:induction false} DeadlockIsForever(s: State, run: seq<Event>, t: State)
    requires Deadlocked(s) && From(s, run) == Some(t)
    ensures Deadlocked(t) && t.held == s.held && t.signals == s.signals && t.indexes == s.indexes
    ensures t.creating == s.creating
    ensures |t.deletes| >= |s.deletes| && forall i | 0 <= i < |s.deletes| :: t.deletes[i].Done? <==> s.deletes[i].Done?
    decreases |run|
  {
    if run != [] {
      var last := |run| - 1;
      var before := From(s, run[..last]).value;
      DeadlockIsForever(s, run[..last], before);
      DeadlockStays(before, run[last]);
    }
  }

  lemma {:induction false} StepDeadlocksIff(s: State, e: Event)
    requires !Deadlocked(s) && Enabled(s, e)
    ensures Deadlocked(Step(s, e)) <==> Collides(s, e)
  {
  }

  /** The step of the run at this position was a collision. */
  predicate CollidesAt(s: State, run: seq<Event>, i: nat) {
    i < |run| && From(s, run[..i]).Some? && Collides(From(s, run[..i]).value, run[i])
  }

  /** A run ends in a deadlock iff one of its steps was a collision. */
  lemma {:induction false} RunDeadlocksIff(s: State, run: seq<Event>, t: State)
    requires !Deadlocked(s) && From(s, run) == Some(t)
    ensures Deadlocked(t) <==> exists i :: CollidesAt(s, run, i)
    decreases |run|
  {
    if run != [] {
      var last := |run| - 1;
      var init, before := run[..last], From(s, run[..last]).value;
      RunDeadlocksIff(s, init, before);
      forall i | 0 <= i < last ensures CollidesAt(s, run, i) == CollidesAt(s, init, i) { assert run[..i] == init[..i]; }
      if Deadlocked(before) {
        DeadlockStays(before, run[last]);
        var i :| CollidesAt(s, init, i);
        assert CollidesAt(s, run, i);
      } else {
        StepDeadlocksIff(before, run[last]);
        assert CollidesAt(s, run, last) == Collides(before, run[last]);
        if i :| CollidesAt(s, run, i) {
          assert i == last || CollidesAt(s, init, i);
        }
      }
    }
  }

  /** An index is added and becomes usable. */
  lemma {:induction false} AddUsable(s: State, k: Key) returns (run: seq<Event>, t: State)
    requires Quiet(s) && k !in s.indexes
    ensures Leads(s, run, t) &&
      t == s.(indexes := s.indexes + {k}, statuses := s.statuses[k := Ready], creating := t.creating)
  {
    var s1 := Step(s, Add(k));
    OneStep(s, Add(k));
    t := Step(s1, Created(k));
    OneMore(s, [Add(k)], s1, Created(k));
    run := [Add(k)] + [Created(k)];
  }

  /** A deletion of an unused index settles while another index is looked up. */
  lemma {:induction false} LookupMeetsDeletion(s: State, j: Key, k: Key) returns (run: seq<Event>, t: State)
    requires Quiet(s) && s.deletes == [] && RefCount(s, k) <= 0 && j != k
    requires j in s.indexes && k in s.indexes && StatusOf(s, j) == StatusOf(s, k) == Ready
    ensures Leads(s, run, t) && Deadlocked(t)
  {
    var s1 := Step(s, Check(k));
    OneStep(s, Check(k));
    var s2 := Step(s1, Mark(0));
    OneMore(s, [Check(k)], s1, Mark(0));
    var s3 := Step(s2, Find(j));
    OneMore(s, [Check(k)] + [Mark(0)], s2, Find(j));
    t := Step(s3, Settle(0));
    OneMore(s, [Check(k)] + [Mark(0)] + [Find(j)], s3, Settle(0));
    run := [Check(k)] + [Mark(0)] + [Find(j)] + [Settle(0)];
  }

  /** A deadlock takes no careless step: a deletion of one index and a lookup of another are enough. */
  lemma {:induction false} DeadlockIsReachable(j: Key, k: Key) returns (run: seq<Event>, t: State)
    requires j != k
    ensures Leads(Init(), run, t) && Deadlocked(t)
  {
    var run1, s1 := AddUsable(Init(), j);
    var run2, s2 := AddUsable(s1, k);
    Then(Init(), run1, s1, run2, s2);
    var run3;
    run3, t := LookupMeetsDeletion(s2, j, k);
    Then(Init(), run1 + run2, s2, run3, t);
    run := run1 + run2 + run3;
  }

  lemma {:induction false} MarkedIsNotQueued(s: State, d: nat)
    requires Inv(s) && d < |s.deletes| && s.deletes[d].Marked?
    ensures s.deletes[d].key !in s.queue
  {
    var k := s.deletes[d].key;
    assert forall i | 0 <= i < |s.deletes| && Live(s.deletes[i]) && s.deletes[i].key == k :: i == d;
  }

  lemma {:induction false} RemovalCanEnd(s: State, d: nat) returns (run: seq<Event>, t: State)
    requires Quiet(s) && d < |s.deletes| && s.deletes[d].Marked? && RefCount(s, s.deletes[d].key) <= 0
    ensures Leads(s, run, t) && d < |t.deletes| && t.deletes[d].Done? && NoRelease(run)
  {
    var k := s.deletes[d].key;
    var s1 := Step(s, Settle(d));
    OneStep(s, Settle(d));
    forall x | x in s1.deletes ensures !x.Checked? {
      var i :| 0 <= i < |s1.deletes| && s1.deletes[i] == x;
      assert s.deletes[i] in s.deletes;
    }
    OneMore(s, [Settle(d)], s1, Remove(d));
    run, t := [Settle(d)] + [Remove(d)], Step(s1, Remove(d));
  }

  lemma {:induction false} WokenCanEnd(s: State, d: nat) returns (run: seq<Event>, t: State)
    requires Quiet(s) && d < |s.deletes| && s.deletes[d].Woken?
    ensures Leads(s, run, t) && d < |t.deletes| && t.deletes[d].Done? && NoRelease(run)
  {
    OneStep(s, Finish(d));
    run, t := [Finish(d)], Step(s, Finish(d));
  }

  /** The clients release the index of a pending deletion: it can be removed, or is woken. */
  lemma {:induction false} ReleaseQuietly(s: State, d: nat) returns (run: seq<Event>, t: State)
    requires Inv(s) && Quiet(s) && d < |s.deletes| && Live(s.deletes[d])
    ensures Leads(s, run, t) && Quiet(t) && d < |t.deletes|
    ensures
      if s.deletes[d].Marked? then t.deletes[d] == s.deletes[d] && RefCount(t, s.deletes[d].key) <= 0
      else t.deletes[d].Woken?
    ensures s.deletes[d].key !in s.held ==> NoRelease(run)
  {
    var k := s.deletes[d].key;
    assert Guarded(s, s.deletes[d]) && RefCount(s, k) == s.held[k] && !s.deletes[d].Removing?;
    if s.deletes[d].Marked? { MarkedIsNotQueued(s, d); }
    if k in s.held {
      run, t := ReleaseAll(s, k);
      CarefulRunsKeep(s, run, t);
      ReleasedIsQuiet(s, t);
    } else {
      Stay(s);
      run, t := [], s;
    }
  }

  /** In a quiet state every pending deletion can end, once the clients have released its index. */
  lemma {:induction false} QuietCanEnd(s: State, d: nat) returns (run: seq<Event>, t: State)
    requires Inv(s) && Quiet(s) && d < |s.deletes| && Live(s.deletes[d])
    ensures Leads(s, run, t) && d < |t.deletes| && t.deletes[d].Done?
    ensures s.deletes[d].key !in s.held ==> NoRelease(run)
  {
    var run1, s1 := ReleaseQuietly(s, d);
    var rest;
    if s.deletes[d].Marked? {
      rest, t := RemovalCanEnd(s1, d);
    } else {
      rest, t := WokenCanEnd(s1, d);
    }
    Then(s, run1, s1, rest, t);
    run := run1 + rest;
  }

  lemma {:induction false} ReleasedIsQuiet(s: State, t: State)
    requires Quiet(s) && t.lookups == s.lookups && t.leaked == s.leaked && t.rcHolder == s.rcHolder &&
      |t.deletes| == |s.deletes|
    requires forall i | 0 <= i < |s.deletes| :: t.deletes[i] == s.deletes[i] || t.deletes[i].Woken?
    ensures Quiet(t)
  {
    forall x | x in t.deletes ensures !x.Checked? {
      var i :| 0 <= i < |t.deletes| && t.deletes[i] == x;
      assert s.deletes[i] in s.deletes;
    }
  }

  /** Every deletion is where it was, or has marked its index, or has ended. */
  predicate Settled(s: State, t: State) {
    && |t.deletes| == |s.deletes|
    && forall i | 0 <= i < |s.deletes| ::
      && t.deletes[i].key == s.deletes[i].key && !t.deletes[i].Checked?
      && (t.deletes[i] == s.deletes[i] || t.deletes[i].Marked? || t.deletes[i].Done?)
  }

  lemma {:induction false} SettledIsQuiet(s: State, t: State)
    requires Settled(s, t) && t.lookups == multiset{} && t.leaked == 0 && t.rcHolder.None?
    ensures Quiet(t)
  {
    forall x | x in t.deletes ensures !x.Checked? {
      var i :| 0 <= i < |t.deletes| && t.deletes[i] == x;
    }
  }

  /** The clients leave their read sections, and then the deletions. */
  lemma {:induction false} ReadersCanLeave(s: State) returns (run: seq<Event>, t: State)
    requires s.rcHolder.None? && s.leaked == 0
    ensures Leads(s, run, t) && Settled(s, t) && Quiet(t) && NoRelease(run)
    ensures t.held == s.held + s.lookups
  {
    var run1, s1 := Drain(s);
    var run2, s2 := MarkAll(s1, |s1.deletes|);
    Then(s, run1, s1, run2, s2);
    run, t := run1 + run2, s2;
    SettledIsQuiet(s, t);
  }

  /** Without a deadlock all read sections can be left and rcmut given back. */
  lemma {:induction false} CanBecomeQuiet(s: State) returns (run: seq<Event>, t: State)
    requires Inv(s) && !Deadlocked(s) && s.leaked == 0
    ensures Leads(s, run, t) && Inv(t) && Settled(s, t) && Quiet(t) && NoRelease(run)
    ensures t.held == s.held + s.lookups
  {
    if s.rcHolder.Some? {
      run, t := HolderEnds(s, s.rcHolder.value);
      assert t.held == s.held + s.lookups;
      SettledIsQuiet(s, t);
    } else {
      run, t := ReadersCanLeave(s);
    }
    CarefulRunsKeep(s, run, t);
  }

  /** The deletion can be brought to its end by careful steps. */
  ghost predicate CanEnd(s: State, d: nat) {
    exists run, t :: Leads(s, run, t) && d < |t.deletes| && t.deletes[d].Done?
  }

  /** A pending deletion can end, without a release by anybody if nobody uses its index. */
  lemma {:induction false} PendingCanEnd(s: State, d: nat) returns (run: seq<Event>, t: State)
    requires Inv(s) && !Deadlocked(s) && d < |s.deletes| && !s.deletes[d].Done?
    ensures Leads(s, run, t) && d < |t.deletes| && t.deletes[d].Done?
    ensures s.deletes[d].key !in s.held && s.deletes[d].key !in s.lookups ==> NoRelease(run)
  {
    assert Guarded(s, s.deletes[d]);
    run, t := CanBecomeQuiet(s);
    if !t.deletes[d].Done? {
      var rest, u := QuietCanEnd(t, d);
      Then(s, run, t, rest, u);
      run, t := run + rest, u;
    }
  }

  /** A pending deletion can end iff the registry is not deadlocked. */
  lemma {:induction false} PendingCanEndIff(s: State, d: nat)
    requires Inv(s) && d < |s.deletes| && !s.deletes[d].Done?
    ensures CanEnd(s, d) <==> !Deadlocked(s)
  {
    if Deadlocked(s) {
      forall run, t | Leads(s, run, t) ensures d < |t.deletes| && !t.deletes[d].Done? {
        DeadlockIsForever(s, run, t);
      }
    } else {
      var run, t := PendingCanEnd(s, d);
    }
  }

  // ----- a lock that is never released

  predicate Disabled(s: State) {
    s.indexes == {} && s.leaked > 0
  }

  lemma {:induction false} DisabledStays(s: State, e: Event)
    requires Disabled(s) && Enabled(s, e)
    ensures Disabled(Step(s, e))
  {
  }

  /** Deleting from an empty registry leaves its read lock behind: no index can be added ever again. */
  lemma {:induction false} EmptyStaysEmpty(s: State, run: seq<Event>, s': State)
    requires s.indexes == {} && From(Step(s, DeleteFromNothing), run) == Some(s')
    ensures Disabled(s')
  {
    DisabledForever(Step(s, DeleteFromNothing), run, s');
  }

  lemma {:induction false} DisabledForever(s: State, run: seq<Event>, s': State)
    requires Disabled(s) && From(s, run) == Some(s')
    ensures Disabled(s')
    decreases |run|
  {
    if run != [] {
      var last := |run| - 1;
      var before := From(s, run[..last]).value;
      DisabledForever(s, run[..last], before);
      DisabledStays(before, run[last]);
    }
  }
}
