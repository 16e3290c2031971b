/** The registry as an object: the maps its methods update, tied step by step to the machine of `Registry`. */
module RegistryObject {
  import opened Values
  import opened Registry
  import ExpressionLists

  function WithoutFirst(s: seq<Key>, k: Key): (r: seq<Key>)
    ensures k !in s ==> r == s
  {
    if s == [] then [] else if s[0] == k then s[1..] else [s[0]] + WithoutFirst(s[1..], k)
  }

  /** Dropping the element at its first position. */
  lemma {:induction false} WithoutFirstAt(s: seq<Key>, k: Key, pos: nat)
    requires pos < |s| && s[pos] == k && k !in s[..pos]
    ensures WithoutFirst(s, k) == s[..pos] + s[pos + 1..]
  {
    if pos > 0 {
      assert s[0] in s[..pos];
      assert s[1..][..pos - 1] == s[..pos][1..];
      WithoutFirstAt(s[1..], k, pos - 1);
      assert s[1..][pos..] == s[pos + 1..];
    }
  }

  class IndexRegistry {
    var indexes: map<Key, seq<string>>   // the expressions of every index
    var indexOrder: seq<Key>
    var statuses: map<Key, Status>
    var refCounts: map<Key, int>
    var deleteIndexQueue: map<Key, nat>

    constructor ()
      ensures Represents(Init()) && indexes == map[] && indexOrder == []
    {
      indexes, indexOrder, statuses, refCounts, deleteIndexQueue := map[], [], map[], map[], map[];
    }

    /** The object shows the shared part of the machine state. */
    ghost predicate Represents(s: State)
      reads this
    {
      && indexes.Keys == s.indexes && statuses == s.statuses && refCounts == s.refCounts && deleteIndexQueue == s.queue
      && forall k | k in s.queue :: s.queue[k] < |s.deletes|
    }

    predicate Usable(k: Key)
      reads this`indexes, this`statuses
    {
      k in indexes && StatusIn(statuses, k) == Ready
    }

    /** The index at this place of the order can be used for these expressions. */
    predicate Fits(i: nat, db: string, exprs: seq<string>)
      requires i < |indexOrder|
      reads this`indexOrder, this`indexes, this`statuses
    {
      var k := indexOrder[i];
      Usable(k) && k.db == db && multiset(indexes[k]) <= multiset(exprs)
    }

    predicate First(i: nat, db: string, exprs: seq<string>)
      requires i < |indexOrder|
      reads this`indexOrder, this`indexes, this`statuses
    {
      Fits(i, db, exprs) && forall j | 0 <= j < i :: !Fits(j, db, exprs)
    }

    /** `IndexByExpression`: the first usable index whose expressions are among the given ones, retained. */
    method IndexByExpression(db: string, exprs: seq<string>, ghost s: State) returns (r: Option<Key>)
      requires Represents(s) && s.rcHolder.None?
      modifies this`refCounts
      ensures r.None? ==> refCounts == old(refCounts) && forall i | 0 <= i < |indexOrder| :: !Fits(i, db, exprs)
      ensures r.Some? ==> exists i | 0 <= i < |indexOrder| :: indexOrder[i] == r.value && First(i, db, exprs)
      ensures r.Some? ==> Enabled(s, Find(r.value)) && Represents(Step(Step(s, Find(r.value)), Retain(r.value)))
    {
      for i := 0 to |indexOrder|
        invariant refCounts == old(refCounts)
        invariant forall j | 0 <= j < i :: !Fits(j, db, exprs)
      {
        var k := indexOrder[i];
        if Usable(k) && k.db == db {
          var m := ExpressionLists.Match(indexes[k], exprs);
          if m {
            assert Fits(i, db, exprs);
            refCounts := refCounts[k := CountOf(refCounts, k) + 1];
            assert indexOrder[i] == k && First(i, db, exprs);
            return Some(k);
          }
        }
      }
      return None;
    }

    /** `ReleaseIndex`; the deletion whose channel is closed, if there is one. */
    method ReleaseIndex(k: Key, ghost s: State) returns (woken: Option<nat>)
      requires Represents(s) && Enabled(s, Release(k))
      modifies this`refCounts, this`deleteIndexQueue
      ensures Represents(Step(s, Release(k)))
      ensures woken.Some? <==> RefCount(s, k) <= 1 && k in old(deleteIndexQueue)
      ensures woken.Some? ==> woken.value == old(deleteIndexQueue)[k] && k !in deleteIndexQueue
      ensures woken.Some? ==> Step(s, Release(k)).deletes[woken.value] == Woken(k)
    {
      refCounts := refCounts[k := CountOf(refCounts, k) - 1];
      if refCounts[k] > 0 {
        return None;
      }
      if k in deleteIndexQueue {
        woken := Some(deleteIndexQueue[k]);
        deleteIndexQueue := deleteIndexQueue - {k};
        return;
      }
      return None;
    }

    /** The validation and the write section of `AddIndex`: refused iff the database has an index with this id or
        with the same expressions. */
    method AddIndex(k: Key, exprs: seq<string>, ghost s: State) returns (added: bool)
      requires Represents(s) && NoReaders(s)
      modifies this`indexes, this`indexOrder, this`statuses
      ensures added <==> !old(Conflicts(k, exprs))
      ensures added ==> indexes == old(indexes)[k := exprs] && indexOrder == old(indexOrder) + [k]
      ensures added ==> Enabled(s, Add(k)) && Represents(Step(s, Add(k)))
      ensures !added ==> indexes == old(indexes) && indexOrder == old(indexOrder) && statuses == old(statuses)
    {
      var todo := indexes.Keys;
      while todo != {}
        invariant todo <= indexes.Keys
        invariant forall i | i in indexes.Keys - todo :: !ConflictsWith(i, k, exprs)
        invariant indexes == old(indexes) && indexOrder == old(indexOrder) && statuses == old(statuses)
        decreases |todo|
      {
        var i: Key :| i in todo;
        if i.db == k.db {
          var same := ExpressionLists.Equal(indexes[i], exprs);
          if i.id == k.id || same {
            assert ConflictsWith(i, k, exprs);
            return false;
          }
        }
        assert !ConflictsWith(i, k, exprs);
        todo := todo - {i};
      }
      if k in indexes { assert ConflictsWith(k, k, exprs); }
      assert !Conflicts(k, exprs);
      statuses := statuses[k := NotReady];
      indexes := indexes[k := exprs];
      indexOrder := indexOrder + [k];
      return true;
    }

    predicate ConflictsWith(i: Key, k: Key, exprs: seq<string>)
      reads this`indexes
    {
      i in indexes && i.db == k.db && (i.id == k.id || multiset(indexes[i]) == multiset(exprs))
    }

    predicate Conflicts(k: Key, exprs: seq<string>)
      reads this`indexes
    {
      exists i | i in indexes :: ConflictsWith(i, k, exprs)
    }

    /** The read section of `DeleteIndex`: finds an index with this id, in any database, and marks it if its status
        allows that. */
    method MarkForDeletion(id: string, ghost s: State) returns (r: Option<Key>)
      requires Represents(s)
      modifies this`statuses
      ensures r.None? ==> statuses == old(statuses)
      ensures r.None? ==>
        (exists k | k in indexes :: k.id == id && StatusIn(statuses, k) == NotReady) ||
          (forall k | k in indexes :: k.id != id)
      ensures r.Some? ==> r.value.id == id && Enabled(s, Check(r.value))
      ensures r.Some? ==> var s' := Step(s, Check(r.value)); Represents(Step(s', Mark(|s.deletes|)))
    {
      var todo := indexes.Keys;
      while todo != {}
        invariant todo <= indexes.Keys
        invariant forall k | k in indexes.Keys - todo :: k.id != id
        invariant statuses == old(statuses)
        decreases |todo|
      {
        var k: Key :| k in todo;
        if k.id == id {
          if StatusIn(statuses, k) == NotReady {
            return None;
          }
          statuses := statuses[k := NotReady];
          return Some(k);
        }
        todo := todo - {k};
      }
      return None;
    }

    /** The section of `DeleteIndex` under rcmut: removes an index that is not in use at once, from the order too;
        queues the deletion otherwise. */
    method DeleteOrQueue(d: nat, k: Key, ghost s: State) returns (removed: bool)
      requires Represents(s) && NoReaders(s) && Enabled(s, Settle(d)) && s.deletes[d].key == k
      modifies this`indexes, this`indexOrder, this`deleteIndexQueue
      ensures removed <==> RefCount(s, k) <= 0
      ensures removed ==> Enabled(Step(s, Settle(d)), Remove(d)) && Represents(Step(Step(s, Settle(d)), Remove(d)))
      ensures removed ==> indexOrder == WithoutFirst(old(indexOrder), k)
      ensures !removed ==> Represents(Step(s, Settle(d))) && indexOrder == old(indexOrder)
    {
      if CountOf(refCounts, k) > 0 {
        deleteIndexQueue := deleteIndexQueue[k := d];
        return false;
      }
      indexes := indexes - {k};
      var pos := 0;
      while pos < |indexOrder| && indexOrder[pos] != k
        invariant 0 <= pos <= |indexOrder| && k !in indexOrder[..pos]
      {
        pos := pos + 1;
      }
      if pos < |indexOrder| {
        WithoutFirstAt(indexOrder, k, pos);
        indexOrder := indexOrder[..pos] + indexOrder[pos + 1..];
      } else {
        assert indexOrder[..pos] == indexOrder;
      }
      return true;
    }

    /** The goroutine of a queued deletion, once woken; the order keeps the key. */
    method FinishDelete(d: nat, k: Key, ghost s: State)
      requires Represents(s) && Enabled(s, Finish(d)) && s.deletes[d].key == k
      modifies this`indexes
      ensures Represents(Step(s, Finish(d)))
    {
      indexes := indexes - {k};
    }
  }
}
