/** Bits of natural numbers, for the bit fields of SET values. */
module BitFields {

  predicate Bit(v: nat, i: nat) {
    if i == 0 then v % 2 == 1 else Bit(v / 2, i - 1)
  }

  /** `v | 1 << i`. */
  function SetBit(v: nat, i: nat): nat
    decreases i
  {
    if i == 0 then v / 2 * 2 + 1 else SetBit(v / 2, i - 1) * 2 + v % 2
  }

  lemma {:induction false} SetBitSets(v: nat, i: nat, j: nat)
    ensures Bit(SetBit(v, i), j) <==> i == j || Bit(v, j)
  {
    if i == 0 {
      if j > 0 { assert SetBit(v, i) / 2 == v / 2; }
    } else {
      var w := SetBit(v / 2, i - 1);
      assert SetBit(v, i) % 2 == v % 2 && SetBit(v, i) / 2 == w;
      if j > 0 { SetBitSets(v / 2, i - 1, j - 1); }
    }
  }

  function Pow2(n: nat): (r: nat)
    ensures r > 0
  {
    if n == 0 then 1 else 2 * Pow2(n - 1)
  }

  /** The position after the highest set bit: 64 minus the number of leading zeros. */
  function BitLength(v: nat): nat {
    if v == 0 then 0 else 1 + BitLength(v / 2)
  }

  lemma {:induction false} BitBelowLength(v: nat, i: nat)
    requires Bit(v, i)
    ensures i < BitLength(v)
  {
    if i > 0 { BitBelowLength(v / 2, i - 1); }
  }

  lemma {:induction false} TopBitSet(v: nat)
    requires v > 0
    ensures Bit(v, BitLength(v) - 1)
  {
    if v / 2 > 0 { TopBitSet(v / 2); }
  }

  /** A number is below a power of two iff all its bits are. */
  lemma {:induction false} BelowPow2(v: nat, n: nat)
    ensures v < Pow2(n) <==> BitLength(v) <= n
    decreases n
  {
    if n > 0 && v > 0 {
      BelowPow2(v / 2, n - 1);
    }
  }

  /** Numbers with the same bits are equal. */
  lemma {:induction false} SameBits(v: nat, w: nat)
    requires forall i: nat :: Bit(v, i) <==> Bit(w, i)
    ensures v == w
    decreases v + w
  {
    if v != w {
      assert Bit(v, 0) == Bit(w, 0);
      forall i: nat ensures Bit(v / 2, i) <==> Bit(w / 2, i) {
        assert Bit(v, i + 1) <==> Bit(w, i + 1);
      }
      SameBits(v / 2, w / 2);
    }
  }

  lemma {:induction false} ZeroHasNoBits(i: nat)
    ensures !Bit(0, i)
  {
    if i > 0 { ZeroHasNoBits(i - 1); }
  }
}
