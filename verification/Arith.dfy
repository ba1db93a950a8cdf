/** Rounding helpers of include/core/util.hh. The divisor is a power of two wherever they are used. */
module Arith {

  const PAGE_SIZE: nat := 0x1000

  function Pow2(k: nat): (p: nat)
    ensures p >= 1
  {
    if k == 0 then 1 else 2 * Pow2(k - 1)
  }

  function DivUp(a: nat, b: nat): nat
    requires b > 0
  {
    (a + b - 1) / b
  }

  function AlignUp(a: nat, b: nat): (r: nat)
    requires b > 0
    ensures a <= r < a + b
  {
    DivUpBounds(a, b);
    DivUp(a, b) * b
  }

  function AlignDown(a: nat, b: nat): (r: nat)
    requires b > 0
    ensures a - b < r <= a
  {
    assert a == a / b * b + a % b;
    a / b * b
  }

  lemma {:induction false} DivUpBounds(a: nat, b: nat)
    requires b > 0
    ensures a <= DivUp(a, b) * b < a + b
  {
    var q := (a + b - 1) / b;
    assert a + b - 1 == q * b + (a + b - 1) % b;
  }

  lemma {:induction false} MulMono(a: int, b: int, m: int)
    requires m >= 0 && a <= b
    ensures a * m <= b * m
  {
  }

  lemma {:induction false} DivModUnique(a: int, b: int, q: int, r: int)
    requires b > 0 && 0 <= r < b && a == q * b + r
    ensures a / b == q && a % b == r
  {
    var q', r' := a / b, a % b;
    assert a == q' * b + r';
    if q > q' {
      assert (q' + 1) * b == q' * b + b;
      MulMono(q' + 1, q, b);
    } else if q < q' {
      assert (q + 1) * b == q * b + b;
      MulMono(q + 1, q', b);
    }
  }

  lemma {:induction false} MulIsMultiple(q: int, b: int)
    requires b > 0
    ensures (q * b) % b == 0
  {
    DivModUnique(q * b, b, q, 0);
  }

  lemma {:induction false} ModShift(a: int, q: int, b: int)
    requires b > 0
    ensures (a + q * b) % b == a % b
  {
    assert a == a / b * b + a % b;
    assert a + q * b == (a / b + q) * b + a % b;
    DivModUnique(a + q * b, b, a / b + q, a % b);
  }

  lemma {:induction false} ModOffset(base: int, d: int, b: int)
    requires b > 0 && base % b == 0
    ensures (base + d) % b == d % b
  {
    ModShift(d, base / b, b);
    assert base == base / b * b;
  }

  /** Two numbers with equal remainders differ by a multiple. */
  lemma {:induction false} SameModDiff(a: int, c: int, b: int) returns (q: int)
    requires b > 0 && a % b == c % b
    ensures a - c == q * b
  {
    q := a / b - c / b;
    assert a == a / b * b + a % b;
    assert c == c / b * b + c % b;
  }

  lemma {:induction false} NextMultiple(x: nat, m: nat, b: nat)
    requires b > 0 && x % b == 0 && m % b == 0 && m < x
    ensures m + b <= x
  {
    var q := SameModDiff(x, m, b);
    if q <= 0 {
      MulMono(q, 0, b);
    } else {
      MulMono(1, q, b);
    }
  }

  /** `align_up` is the least multiple of `b` not below `a`. */
  lemma {:induction false} AlignUpIsLeast(a: nat, b: nat)
    requires b > 0
    ensures AlignUp(a, b) % b == 0 && a <= AlignUp(a, b) < a + b
    ensures forall m: nat :: m % b == 0 && a <= m ==> AlignUp(a, b) <= m
    ensures a % b == 0 <==> AlignUp(a, b) == a
  {
    MulIsMultiple(DivUp(a, b), b);
    forall m: nat | m % b == 0 && a <= m ensures AlignUp(a, b) <= m {
      if m < AlignUp(a, b) {
        NextMultiple(AlignUp(a, b), m, b);
      }
    }
  }

  lemma {:induction false} AlignDownBounds(a: nat, b: nat)
    requires b > 0
    ensures AlignDown(a, b) % b == 0 && AlignDown(a, b) <= a < AlignDown(a, b) + b
    ensures a == AlignDown(a, b) + a % b
  {
    MulIsMultiple(a / b, b);
    assert a == a / b * b + a % b;
  }

  /** `align_up` moves two cursors by the same amount exactly when they agree modulo the alignment. */
  lemma {:induction false} AlignUpTogether(a: nat, c: nat, b: nat)
    requires b > 0
    ensures AlignUp(a, b) - a == AlignUp(c, b) - c <==> a % b == c % b
  {
    AlignUpIsLeast(a, b);
    AlignUpIsLeast(c, b);
    var a', c' := AlignUp(a, b), AlignUp(c, b);
    if a % b == c % b {
      var q := SameModDiff(a, c, b);
      ModShift(a', -q, b);
      assert a' + -q * b == a' - (a - c);
      ModShift(c', q, b);
      assert c' + q * b == c' + (a - c);
    } else if a' - a == c' - c {
      var q := SameModDiff(a', c', b);
      ModShift(c, q, b);
    }
  }

  /** A multiple of the page size is a multiple of every smaller power of two. */
  lemma {:induction false} PageMultiple(a: nat, k: nat)
    requires k <= 12 && a % PAGE_SIZE == 0
    ensures a % Pow2(k) == 0
  {
    Pow2Divides(k, 12);
    assert Pow2(12) == PAGE_SIZE by { Pow2Twelve(); }
    var d :| Pow2(12) == d * Pow2(k);
    assert a == a / PAGE_SIZE * (d * Pow2(k)) == (a / PAGE_SIZE * d) * Pow2(k);
    MulIsMultiple(a / PAGE_SIZE * d, Pow2(k));
  }

  lemma {:induction false} Pow2Twelve()
    ensures Pow2(12) == 0x1000
  {
    assert Pow2(4) == 16;
    assert Pow2(8) == 16 * Pow2(4);
    assert Pow2(12) == 16 * Pow2(8);
  }

  lemma {:induction false} Pow2Divides(k: nat, n: nat)
    requires k <= n
    ensures exists d: nat :: Pow2(n) == d * Pow2(k)
    decreases n - k
  {
    if k == n {
      assert Pow2(n) == 1 * Pow2(k);
    } else {
      Pow2Divides(k, n - 1);
      var d: nat :| Pow2(n - 1) == d * Pow2(k);
      assert Pow2(n) == (2 * d) * Pow2(k);
    }
  }
}
