/** Powers of two and the size of an interval. */
module Arithmetic {

  function Pow2(k: nat): (r: nat)
    ensures r > 0
  {
    if k == 0 then 1 else 2 * Pow2(k - 1)
  }

  lemma {:induction false} Pow2Add(j: nat, k: nat)
    ensures Pow2(j + k) == Pow2(j) * Pow2(k)
  {
    if j > 0 {
      Pow2Add(j - 1, k);
      assert Pow2(j + k) == 2 * Pow2(j - 1 + k);
      assert Pow2(j) * Pow2(k) == 2 * (Pow2(j - 1) * Pow2(k));
    }
  }

  lemma Pow2Four()
    ensures Pow2(4) == 16
  {
  }

  /** The sizes of the two address spaces. */
  lemma Pow2Widths()
    ensures Pow2(32) == 0x1_0000_0000
    ensures Pow2(128) == 0x1_0000_0000_0000_0000_0000_0000_0000_0000
  {
    hide Pow2;
    Pow2Four();
    Pow2Add(4, 4);
    Pow2Add(8, 8);
    Pow2Add(16, 16);
    Pow2Add(32, 32);
    Pow2Add(64, 64);
  }

  function Min(a: int, b: int): int
  {
    if a < b then a else b
  }

  function Interval(lo: int, hi: int): (s: set<int>)
    ensures forall a :: a in s <==> lo <= a < hi
    ensures |s| == if lo < hi then hi - lo else 0
    decreases hi - lo
  {
    if lo >= hi then {} else {lo} + Interval(lo + 1, hi)
  }

  /** Rounding down to a multiple of m stays below every multiple of m above a. */
  lemma RoundDown(a: nat, m: nat, count: nat)
    requires m > 0 && a < m * count
    ensures 0 <= a - a % m <= a < a - a % m + m <= m * count
  {
    var q := a / m;
    assert a == m * q + a % m;
    if q >= count {
      MulMonotone(m, count, q);
    } else {
      MulMonotone(m, q + 1, count);
    }
  }

  lemma {:induction false} MulMonotone(m: nat, x: nat, y: nat)
    requires x <= y
    ensures m * x <= m * y
  {
    if x < y {
      MulMonotone(m, x, y - 1);
      assert m * y == m * (y - 1) + m;
    }
  }

  lemma {:induction false} SubsetSize<T>(a: set<T>, b: set<T>)
    requires a <= b
    ensures |a| <= |b|
  {
    if a != {} {
      var x :| x in a;
      SubsetSize(a - {x}, b - {x});
    }
  }
}
