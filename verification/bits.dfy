/** Bit fields over unbounded naturals: the preference bits, unbendable masks
    and town platforms of the simulation are Python integers used as bit sets. */
module Bits {

  /** 2 to the power n, i.e. the value of `1 << n`. */
  function Pow2(n: nat): (r: nat)
    ensures r >= 1
  {
    if n == 0 then 1 else 2 * Pow2(n - 1)
  }

  /** Bit b of x, i.e. the value of `(x >> b) & 1`. */
  function Bit(x: nat, b: nat): (r: nat)
    ensures r == 0 || r == 1
  {
    if b == 0 then x % 2 else Bit(x / 2, b - 1)
  }

  /** The number of set bits of x among the positions below n. */
  function CountBits(x: nat, n: nat): nat
  {
    if n == 0 then 0 else CountBits(x, n - 1) + Bit(x, n - 1)
  }

  /** The set positions of x below n, as a set. */
  function BitSet(x: nat, n: nat): set<nat>
  {
    set b | 0 <= b < n && Bit(x, b) == 1
  }

  /** A value below 2^k has no bit at position k or above. */
  lemma {:induction false} BitOfSmall(x: nat, k: nat, b: nat)
    requires x < Pow2(k) && k <= b
    ensures Bit(x, b) == 0
  {
    if b == 0 {
    } else if k == 0 {
      assert x == 0;
      BitOfZero(b);
    } else {
      BitOfSmall(x / 2, k - 1, b - 1);
    }
  }

  lemma {:induction false} BitOfZero(b: nat)
    ensures Bit(0, b) == 0
  {
    if b > 0 {
      BitOfZero(b - 1);
    }
  }

  /** Setting a clear bit d (the `|=` of the source) adds 2^d and changes only bit d. */
  lemma {:induction false} SetBit(x: nat, d: nat, b: nat)
    requires Bit(x, d) == 0
    ensures Bit(x + Pow2(d), b) == if b == d then 1 else Bit(x, b)
  {
    if d == 0 {
      if b > 0 {
        assert (x + 1) / 2 == x / 2;
      }
    } else {
      assert (x + Pow2(d)) / 2 == x / 2 + Pow2(d - 1);
      if b > 0 {
        SetBit(x / 2, d - 1, b - 1);
      }
    }
  }

  /** Setting a clear bit below n adds one to the count of set bits below n. */
  lemma {:induction false} SetBitCount(x: nat, d: nat, n: nat)
    requires Bit(x, d) == 0
    ensures CountBits(x + Pow2(d), n) == CountBits(x, n) + (if d < n then 1 else 0)
  {
    if n > 0 {
      SetBitCount(x, d, n - 1);
      SetBit(x, d, n - 1);
    }
  }

  /** Setting a clear bit below n of a value below 2^n stays below 2^n. */
  lemma {:induction false} SetBitBound(x: nat, d: nat, n: nat)
    requires x < Pow2(n) && d < n && Bit(x, d) == 0
    ensures x + Pow2(d) < Pow2(n)
  {
    assert Pow2(n) == 2 * Pow2(n - 1);
    if d == 0 {
      assert x % 2 == 0;
    } else {
      assert Pow2(d) == 2 * Pow2(d - 1);
      assert x / 2 < Pow2(n - 1);
      SetBitBound(x / 2, d - 1, n - 1);
    }
  }

  /** Setting a clear bit d below n of a value below 2^n adds d to its set
      positions, one to its count, and stays below 2^n. */
  lemma SetBitInRange(x: nat, d: nat, n: nat)
    requires x < Pow2(n) && d < n && Bit(x, d) == 0
    ensures x + Pow2(d) < Pow2(n)
    ensures BitSet(x + Pow2(d), n) == BitSet(x, n) + {d}
    ensures CountBits(x + Pow2(d), n) == CountBits(x, n) + 1
  {
    forall b ensures Bit(x + Pow2(d), b) == if b == d then 1 else Bit(x, b) {
      SetBit(x, d, b);
    }
    SetBitCount(x, d, n);
    SetBitBound(x, d, n);
  }

  /** Two values below 2^n that agree on every bit below n are equal. */
  lemma {:induction false} BitsDetermineValue(x: nat, y: nat, n: nat)
    requires x < Pow2(n) && y < Pow2(n)
    requires forall b :: 0 <= b < n ==> Bit(x, b) == Bit(y, b)
    ensures x == y
  {
    if n > 0 {
      assert Bit(x, 0) == Bit(y, 0);
      forall b | 0 <= b < n - 1
        ensures Bit(x / 2, b) == Bit(y / 2, b)
      {
        assert Bit(x, b + 1) == Bit(y, b + 1);
      }
      BitsDetermineValue(x / 2, y / 2, n - 1);
    }
  }

  /** Counting set bits is counting the set of set positions. */
  lemma {:induction false} CountBitsIsCardinality(x: nat, n: nat)
    ensures CountBits(x, n) == |BitSet(x, n)|
  {
    if n > 0 {
      CountBitsIsCardinality(x, n - 1);
      var below := BitSet(x, n - 1);
      assert n - 1 !in below;
      if Bit(x, n - 1) == 1 {
        assert BitSet(x, n) == below + {n - 1};
      } else {
        assert BitSet(x, n) == below;
      }
    }
  }
}
