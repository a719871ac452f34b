/** Binary positions of natural numbers: shifts, bit lengths and powers of two. */
module Bits {

  /** `i >> k`. */
  function Shift(i: nat, k: nat): nat {
    if k == 0 then i else Shift(i, k - 1) / 2
  }

  /** Python's `int.bit_length`. */
  function BitLength(n: nat): nat {
    if n == 0 then 0 else 1 + BitLength(n / 2)
  }

  /** `1 << k`. */
  function Pow2(k: nat): (p: nat)
    ensures p > 0
  {
    if k == 0 then 1 else 2 * Pow2(k - 1)
  }

  /** `i ^ 1`: the other node of a pair of siblings. */
  function Sibling(i: nat): nat {
    if i % 2 == 0 then i + 1 else i - 1
  }

  lemma {:induction false} ShiftHalf(i: nat, k: nat)
    ensures Shift(i / 2, k) == Shift(i, k + 1)
  {
    if k > 0 { ShiftHalf(i, k - 1); }
  }

  lemma {:induction false} ShiftPastEnd(i: nat, k: nat)
    requires k >= BitLength(i)
    ensures Shift(i, k) == 0
  {
    if i == 0 {
      ShiftZero(k);
    } else {
      ShiftHalf(i, k - 1);
      ShiftPastEnd(i / 2, k - 1);
    }
  }

  lemma {:induction false} ShiftZero(k: nat)
    ensures Shift(0, k) == 0
  {
    if k > 0 { ShiftZero(k - 1); }
  }

  /** `i >> k` is the quotient by the k-th power of two. */
  lemma {:induction false} ShiftBounds(i: nat, k: nat)
    ensures Shift(i, k) * Pow2(k) <= i < (Shift(i, k) + 1) * Pow2(k)
  {
    if k > 0 {
      ShiftBounds(i, k - 1);
      HalveBounds(Shift(i, k - 1), Pow2(k - 1), i);
    }
  }

  lemma HalveBounds(q: nat, p: nat, i: nat)
    requires q * p <= i < (q + 1) * p
    ensures q / 2 * (2 * p) <= i < (q / 2 + 1) * (2 * p)
  {
    var r := q / 2;
    assert r * (2 * p) == 2 * r * p && (r + 1) * (2 * p) == (2 * r + 2) * p;
    if q == 2 * r {
      assert (2 * r + 2) * p == (2 * r + 1) * p + p;
    } else {
      assert (2 * r + 1) * p == 2 * r * p + p;
    }
  }

  lemma MultipleAtLeast(q: nat, c: nat, p: nat)
    ensures q >= c ==> c * p <= q * p
  {
    if q >= c {
      assert q * p == c * p + (q - c) * p;
    }
  }

  lemma ShiftSmall(i: nat, k: nat)
    requires i < Pow2(k)
    ensures Shift(i, k) == 0
  {
    hide Shift, Pow2;
    ShiftBounds(i, k);
    MultipleAtLeast(Shift(i, k), 1, Pow2(k));
  }

  lemma ShiftPow2(k: nat)
    ensures Shift(Pow2(k), k) == 1
  {
    hide Shift, Pow2;
    ShiftBounds(Pow2(k), k);
    var q, p := Shift(Pow2(k), k), Pow2(k);
    MultipleAtLeast(q, 2, p);
    MultipleAtLeast(1, q + 1, p);
  }

  lemma BitLengthBound(n: nat)
    ensures n < Pow2(BitLength(n))
  {
    ShiftBounds(n, BitLength(n));
    ShiftPastEnd(n, BitLength(n));
  }

  lemma {:induction false} BitLengthPow2(k: nat)
    ensures BitLength(Pow2(k)) == k + 1 && BitLength(Pow2(k) - 1) == k
  {
    if k > 0 {
      BitLengthPow2(k - 1);
      BitLengthDouble(Pow2(k - 1));
    }
  }

  lemma BitLengthDouble(p: nat)
    requires p > 0
    ensures BitLength(2 * p) == 1 + BitLength(p) && BitLength(2 * p - 1) == 1 + BitLength(p - 1)
  {
    assert (2 * p) / 2 == p && (2 * p - 1) / 2 == p - 1;
  }
}
