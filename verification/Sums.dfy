/** Sums over sequences, and the multiset of a sequence of sequences. */
module Sums {

  function Sum(s: seq<nat>): nat {
    if s == [] then 0 else s[0] + Sum(s[1..])
  }

  lemma {:induction false} SumUpdate(s: seq<nat>, i: nat, v: nat)
    requires i < |s|
    ensures Sum(s[i := v]) == Sum(s) - s[i] + v
  {
    if i == 0 {
      assert s[i := v][1..] == s[1..];
    } else {
      assert s[i := v][1..] == s[1..][i - 1 := v];
      SumUpdate(s[1..], i - 1, v);
    }
  }

  lemma {:induction false} SumAppend(s: seq<nat>, v: nat)
    ensures Sum(s + [v]) == Sum(s) + v
  {
    if s == [] {
      assert (s + [v])[1..] == [];
    } else {
      assert (s + [v])[1..] == s[1..] + [v];
      SumAppend(s[1..], v);
    }
  }

  /** A positive sum has a positive element. */
  lemma {:induction false} SumPositive(s: seq<nat>) returns (i: nat)
    requires Sum(s) > 0
    ensures i < |s| && s[i] > 0
  {
    if s[0] > 0 {
      i := 0;
    } else {
      var j := SumPositive(s[1..]);
      i := j + 1;
    }
  }

  function Flatten<T>(ss: seq<seq<T>>): seq<T> {
    if ss == [] then [] else ss[0] + Flatten(ss[1..])
  }

  lemma {:induction false} FlattenAppend<T>(ss: seq<seq<T>>, s: seq<T>)
    ensures Flatten(ss + [s]) == Flatten(ss) + s
  {
    if ss == [] {
      assert (ss + [s])[1..] == [];
      assert Flatten(ss + [s]) == s + [];
    } else {
      assert (ss + [s])[1..] == ss[1..] + [s];
      FlattenAppend(ss[1..], s);
    }
  }

  /** One more element in one of two multisets is one more in both together. */
  lemma {:induction false} AddToOne<T>(a: multiset<T>, a': multiset<T>, b: multiset<T>, b': multiset<T>, x: T,
                                       first: bool, second: bool)
    requires !(first && second)
    requires a' == a + (if first then multiset{x} else multiset{})
    requires b' == b + (if second then multiset{x} else multiset{})
    ensures a' + b' == a + b + (if first || second then multiset{x} else multiset{})
  {
  }
}
