/** Bit operations on unbounded natural numbers, as Python integers have them. */
module Bits {
  import opened Positional

  function Pow2(k: nat): (p: nat)
    ensures p > 0
  {
    if k == 0 then 1 else 2 * Pow2(k - 1)
  }

  /** Python's `n << k`. */
  function Shl(n: nat, k: nat): nat {
    n * Pow2(k)
  }

  /** Python's `n >> k`. */
  function Shr(n: nat, k: nat): nat {
    QuotientIsNat(n, Pow2(k));
    n / Pow2(k)
  }

  lemma QuotientIsNat(n: nat, p: nat)
    requires p > 0
    ensures n / p >= 0
  {
  }

  /** Python's `n & ((1 << k) - 1)`. */
  function Low(n: nat, k: nat): nat {
    n % Pow2(k)
  }

  /** Python's `a ^ b` on non-negative integers. */
  function Xor(a: nat, b: nat): (r: nat)
    decreases a + b
  {
    if a == 0 then b
    else if b == 0 then a
    else 2 * Xor(a / 2, b / 2) + (if a % 2 == b % 2 then 0 else 1)
  }

  lemma {:induction false} XorBits(a: nat, b: nat)
    ensures Xor(a, b) % 2 == (if a % 2 == b % 2 then 0 else 1)
    ensures Xor(a, b) / 2 == Xor(a / 2, b / 2)
  {
    if a > 0 && b > 0 {
      TwicePlus(Xor(a / 2, b / 2), if a % 2 == b % 2 then 0 else 1);
    }
  }

  lemma TwicePlus(x: nat, bit: nat)
    requires bit < 2
    ensures (2 * x + bit) % 2 == bit && (2 * x + bit) / 2 == x
  {
  }

  lemma {:induction false} XorSelf(a: nat)
    ensures Xor(a, a) == 0
  {
    if a == 0 {
    } else {
      XorSelf(a / 2);
    }
  }

  lemma {:induction false} XorCommutes(a: nat, b: nat)
    ensures Xor(a, b) == Xor(b, a)
    decreases a + b
  {
    if a == 0 || b == 0 {
    } else {
      XorCommutes(a / 2, b / 2);
    }
  }

  /** Two numbers with the same last bit and the same other bits are equal. */
  lemma SameBits(x: nat, y: nat)
    requires x % 2 == y % 2 && x / 2 == y / 2
    ensures x == y
  {
  }

  lemma {:induction false} XorAssociates(a: nat, b: nat, c: nat)
    ensures Xor(Xor(a, b), c) == Xor(a, Xor(b, c))
    decreases a + b + c
  {
    if a == 0 || b == 0 || c == 0 {
    } else {
      XorAssociates(a / 2, b / 2, c / 2);
      XorBits(a, b);
      XorBits(b, c);
      XorBits(Xor(a, b), c);
      XorBits(a, Xor(b, c));
      SameBits(Xor(Xor(a, b), c), Xor(a, Xor(b, c)));
    }
  }

  /** Exclusive or with a fixed number loses nothing. */
  lemma XorCancels(v: nat, x: nat)
    ensures Xor(v, Xor(v, x)) == x
  {
    XorAssociates(v, v, x);
    XorSelf(v);
  }

  lemma HalfBelow(k: nat, x: nat)
    requires k > 0
    ensures x < Pow2(k) <==> x / 2 < Pow2(k - 1)
  {
  }

  lemma NoLowBits(a: nat, x: nat, b: nat, y: nat)
    requires x < Pow2(0) && y < Pow2(0)
    ensures Xor(x, y) < Pow2(0) && Xor(Join(0, a, x), Join(0, b, y)) == Join(0, Xor(a, b), Xor(x, y))
  {
    assert Pow2(0) == 1;
    assert x == 0 && y == 0 && Join(0, a, x) == a && Join(0, b, y) == b;
  }

  /** `Xor` works on the low k bits and on the rest separately. */
  lemma {:induction false} XorSplits(k: nat, a: nat, x: nat, b: nat, y: nat)
    requires x < Pow2(k) && y < Pow2(k)
    ensures Xor(x, y) < Pow2(k)
    ensures Xor(Join(k, a, x), Join(k, b, y)) == Join(k, Xor(a, b), Xor(x, y))
  {
    hide Xor, Join, Pow2;
    if k == 0 {
      NoLowBits(a, x, b, y);
    } else {
      HalfBelow(k, x);
      HalfBelow(k, y);
      XorSplits(k - 1, a, x / 2, b, y / 2);
      HalfBelow(k, Xor(x, y));
      Halve(k, a, x);
      Halve(k, b, y);
      XorBits(x, y);
      Halve(k, Xor(a, b), Xor(x, y));
      XorBits(Join(k, a, x), Join(k, b, y));
      SameBits(Xor(Join(k, a, x), Join(k, b, y)), Join(k, Xor(a, b), Xor(x, y)));
    }
  }

  /** The number whose low k bits are x and whose other bits are a. */
  function Join(k: nat, a: nat, x: nat): nat {
    a * Pow2(k) + x
  }

  lemma Halve(k: nat, a: nat, x: nat)
    requires k > 0
    ensures Join(k, a, x) / 2 == Join(k - 1, a, x / 2) && Join(k, a, x) % 2 == x % 2
  {
    assert a * Pow2(k) == 2 * (a * Pow2(k - 1));
  }

  /** Python's `a | b` on non-negative integers. */
  function Or(a: nat, b: nat): (r: nat)
    decreases a + b
  {
    if a == 0 then b
    else if b == 0 then a
    else 2 * Or(a / 2, b / 2) + (if a % 2 == 0 && b % 2 == 0 then 0 else 1)
  }

  /** A value below 2^k fills the k bits a shift left empty. */
  lemma {:induction false} OrFills(k: nat, a: nat, x: nat)
    requires x < Pow2(k)
    ensures Or(Shl(a, k), x) == Join(k, a, x)
  {
    if k == 0 || a == 0 || x == 0 {
    } else {
      Halve(k, a, 0);
      OrFills(k - 1, a, x / 2);
      Halve(k, a, x);
      MulPositive(a, Pow2(k));
      SameBits(Or(Shl(a, k), x), Join(k, a, x));
    }
  }

  lemma MulPositive(a: nat, b: nat)
    requires a > 0 && b > 0
    ensures a * b > 0
  {
  }

  lemma {:induction false} Pow2Adds(a: nat, b: nat)
    ensures Pow2(a + b) == Pow2(a) * Pow2(b)
  {
    if a == 0 {
    } else {
      Pow2Adds(a - 1, b);
      assert 2 * (Pow2(a - 1) * Pow2(b)) == (2 * Pow2(a - 1)) * Pow2(b);
    }
  }

  predicate BitAt(n: nat, k: nat) {
    if k == 0 then n % 2 == 1 else BitAt(n / 2, k - 1)
  }

  lemma {:induction false} XorBitAt(a: nat, b: nat, k: nat)
    ensures BitAt(Xor(a, b), k) == (BitAt(a, k) != BitAt(b, k))
    decreases k
  {
    XorBits(a, b);
    if k == 0 {
    } else {
      XorBitAt(a / 2, b / 2, k - 1);
    }
  }

  /** The bits below k are those of the low part. */
  lemma {:induction false} JoinBitAt(k: nat, a: nat, x: nat, j: nat)
    requires j < k
    ensures BitAt(Join(k, a, x), j) == BitAt(x, j)
    decreases j
  {
    Halve(k, a, x);
    if j == 0 {
    } else {
      JoinBitAt(k - 1, a, x / 2, j - 1);
    }
  }

  /** A k-bit number is its bits. */
  lemma {:induction false} EqualBits(k: nat, m: nat, n: nat)
    requires m < Pow2(k) && n < Pow2(k)
    requires forall j :: 0 <= j < k ==> BitAt(m, j) == BitAt(n, j)
    ensures m == n
    decreases k
  {
    if k == 0 {
    } else {
      assert BitAt(m, 0) == BitAt(n, 0);
      forall j | 0 <= j < k - 1
        ensures BitAt(m / 2, j) == BitAt(n / 2, j)
      {
        assert BitAt(m, j + 1) == BitAt(n, j + 1);
      }
      EqualBits(k - 1, m / 2, n / 2);
      SameBits(m, n);
    }
  }

  lemma {:induction false} ShrBit(n: nat, k: nat)
    ensures Low(Shr(n, k), 1) != 0 <==> BitAt(n, k)
    decreases k
  {
    assert Pow2(1) == 2;
    if k == 0 {
    } else {
      ShrBit(n / 2, k - 1);
      HalveFirst(n, k);
    }
  }

  lemma HalveFirst(n: nat, k: nat)
    requires k > 0
    ensures Shr(n, k) == Shr(n / 2, k - 1)
  {
    DivDiv(n, 2, Pow2(k - 1));
  }
}
