/** Bit masks as the source keeps them in ints: `m | (1 << i)` and comparisons with `(1 << n) - 1`. */
module Bits {

  predicate Bit(m: nat, i: nat)
    decreases i
  {
    if i == 0 then m % 2 == 1 else Bit(m / 2, i - 1)
  }

  /** m | (1 << i) */
  function SetBit(m: nat, i: nat): nat
    decreases i
  {
    if i == 0 then m / 2 * 2 + 1 else SetBit(m / 2, i - 1) * 2 + m % 2
  }

  /** 1 << n */
  function Pow2(n: nat): (r: nat)
    ensures r >= 1
  {
    if n == 0 then 1 else 2 * Pow2(n - 1)
  }

  lemma {:induction false} Pow2Mono(a: nat, b: nat)
    requires a <= b
    ensures Pow2(a) <= Pow2(b)
    decreases b
  {
    if a < b {
      Pow2Mono(a, b - 1);
    }
  }

  lemma {:induction false} SetBitBit(m: nat, i: nat, j: nat)
    ensures Bit(SetBit(m, i), j) <==> i == j || Bit(m, j)
    decreases i
  {
    if i > 0 && j > 0 {
      SetBitBit(m / 2, i - 1, j - 1);
    }
  }

  lemma {:induction false} ZeroBits(i: nat)
    ensures !Bit(0, i)
    decreases i
  {
    if i > 0 {
      ZeroBits(i - 1);
    }
  }

  /** A number of at least 1 << k has a bit at or above k, */
  lemma {:induction false} HighBit(m: nat, k: nat) returns (i: nat)
    requires m >= Pow2(k)
    ensures i >= k && Bit(m, i)
    decreases m
  {
    if k == 0 && m % 2 == 1 {
      i := 0;
    } else {
      var j := HighBit(m / 2, if k == 0 then 0 else k - 1);
      i := j + 1;
    }
  }

  /** and a smaller one has none. */
  lemma {:induction false} NoHighBit(m: nat, k: nat, i: nat)
    requires m < Pow2(k) && i >= k
    ensures !Bit(m, i)
    decreases k
  {
    if k == 0 {
      ZeroBits(i);
    } else {
      NoHighBit(m / 2, k - 1, i - 1);
    }
  }

  predicate AllBelow(m: nat, u: nat)
    decreases u
  {
    u == 0 || (m % 2 == 1 && AllBelow(m / 2, u - 1))
  }

  lemma {:induction false} AllBelowBit(m: nat, u: nat, i: nat)
    requires AllBelow(m, u) && i < u
    ensures Bit(m, i)
    decreases i
  {
    if i > 0 {
      AllBelowBit(m / 2, u - 1, i - 1);
    }
  }

  lemma {:induction false} MissingBit(m: nat, u: nat) returns (i: nat)
    requires !AllBelow(m, u)
    ensures i < u && !Bit(m, i)
    decreases u
  {
    if m % 2 == 0 {
      i := 0;
    } else {
      var j := MissingBit(m / 2, u - 1);
      i := j + 1;
    }
  }

  /** m >= (1 << u) - 1 exactly if all bits below u are set or m has a bit at or above u. */
  lemma {:induction false} AtLeastFull(m: nat, u: nat)
    ensures m >= Pow2(u) - 1 <==> AllBelow(m, u) || m >= Pow2(u)
    decreases u
  {
    if u > 0 {
      AtLeastFull(m / 2, u - 1);
    }
  }

  /** The set a mask over n positions stands for. */
  ghost function Members(m: nat, n: nat): set<nat> {
    set i: nat | i < n && Bit(m, i)
  }

  /** Everyone below n. */
  ghost function Upto(n: nat): (s: set<nat>)
    ensures forall i: nat :: i in s <==> i < n
  {
    if n == 0 then {} else Upto(n - 1) + {n - 1}
  }

  lemma SetBitMembers(m: nat, i: nat, n: nat)
    requires i < n && m < Pow2(n)
    ensures Members(SetBit(m, i), n) == Members(m, n) + {i} && SetBit(m, i) < Pow2(n)
  {
    forall j: nat
      ensures Bit(SetBit(m, i), j) <==> i == j || Bit(m, j)
    {
      SetBitBit(m, i, j);
    }
    if SetBit(m, i) >= Pow2(n) {
      var j := HighBit(SetBit(m, i), n);
      NoHighBit(m, n, j);
    }
  }

  lemma ZeroMembers(n: nat)
    ensures Members(0, n) == {}
  {
    forall i: nat
      ensures !Bit(0, i)
    {
      ZeroBits(i);
    }
  }

  /** Comparing the mask with (1 << n) - 1 is comparing the set with everyone. */
  lemma FullMembers(m: nat, n: nat)
    requires m < Pow2(n)
    ensures m == Pow2(n) - 1 <==> Members(m, n) == Upto(n)
  {
    AtLeastFull(m, n);
    if AllBelow(m, n) {
      forall i: nat | i < n
        ensures Bit(m, i)
      {
        AllBelowBit(m, n, i);
      }
    } else {
      var i := MissingBit(m, n);
      assert i in Upto(n) && i !in Members(m, n);
    }
  }
}
