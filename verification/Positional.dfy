/** Big-endian positional numbers: the arithmetic behind base 58, byte strings and bit regrouping. */
module Positional {
  function Pow(base: nat, k: nat): (p: nat)
    ensures base > 0 ==> p > 0
  {
    if k == 0 then 1 else
      Positive(base, Pow(base, k - 1));
      Pow(base, k - 1) * base
  }

  lemma Positive(a: nat, b: nat)
    ensures a > 0 && b > 0 ==> b * a > 0
  {
  }

  predicate IsDigits(base: nat, digits: seq<nat>) {
    forall i :: 0 <= i < |digits| ==> digits[i] < base
  }

  function Value(base: nat, digits: seq<nat>): nat {
    if digits == [] then 0
    else Value(base, digits[..|digits| - 1]) * base + digits[|digits| - 1]
  }

  /** The last `length` digits of v. */
  function Fixed(base: nat, length: nat, v: nat): (digits: seq<nat>)
    requires base > 0
    ensures |digits| == length
  {
    if length == 0 then [] else Fixed(base, length - 1, v / base) + [v % base]
  }

  /** The digits of v without leading zeros. */
  function Minimal(base: nat, v: nat): (digits: seq<nat>)
    requires base > 1
    ensures v > 0 ==> |digits| > 0
  {
    if v == 0 then [] else
      Quotient(base, v);
      Minimal(base, v / base) + [v % base]
  }

  /** Decimal digits as text. */
  function DigitText(digits: seq<nat>): (t: string)
    requires IsDigits(10, digits)
    ensures |t| == |digits| && forall i :: 0 <= i < |t| ==> '0' <= t[i] <= '9'
  {
    seq(|digits|, i requires 0 <= i < |digits| => (digits[i] + 48) as char)
  }

  /** The decimal digits of v, a single zero for zero. */
  function Decimals(v: nat): (digits: seq<nat>)
    ensures digits != [] && IsDigits(10, digits)
  {
    if v < 10 then [v] else Decimals(v / 10) + [v % 10]
  }

  lemma ValueOfAppend(base: nat, digits: seq<nat>, d: nat)
    ensures Value(base, digits + [d]) == Value(base, digits) * base + d
  {
    assert (digits + [d])[..|digits|] == digits;
  }

  /** Quotient and remainder are the only pair with their defining property. */
  lemma DivModUnique(base: nat, q: nat, d: nat, k: nat, r: nat)
    requires d < base && r < base && q * base + d == k * base + r
    ensures q == k && d == r
  {
    if q < k {
      MulMonotone(q + 1, k, base);
      assert false;
    } else if k < q {
      MulMonotone(k + 1, q, base);
      assert false;
    }
  }

  lemma DivisionTheorem(base: nat, v: nat)
    requires base > 0
    ensures v == v / base * base + v % base
  {
  }

  lemma DivMod(q: nat, base: nat, d: nat)
    requires d < base
    ensures (q * base + d) / base == q && (q * base + d) % base == d
  {
    var n := q * base + d;
    DivisionTheorem(base, n);
    DivModUnique(base, q, d, n / base, n % base);
  }

  lemma Quotient(base: nat, v: nat)
    requires base > 0
    ensures v == v / base * base + v % base
    ensures v > 0 && base > 1 ==> v / base < v
  {
    DivisionTheorem(base, v);
    if v > 0 && base > 1 && v / base >= v {
      MulMonotone(2, base, v / base);
      assert false;
    }
  }

  lemma Distribute(y: nat, p: nat, s: nat, f: nat)
    ensures (y * p + s) * f == y * (p * f) + s * f
  {
    assert y * p * f == y * (p * f);
  }

  lemma RemainderBelow(s: nat, p: nat, f: nat, r: nat)
    requires s < p && r < f
    ensures s * f + r < p * f
  {
    MulMonotone(s + 1, p, f);
    assert (s + 1) * f == s * f + f;
  }

  /** Dividing twice is dividing by the product. */
  lemma DivDiv(n: nat, f: nat, p: nat)
    requires f > 0 && p > 0
    ensures p * f > 0
    ensures n / (p * f) == n / f / p
  {
    var x, r := n / f, n % f;
    var y, s := x / p, x % p;
    DivisionTheorem(f, n);
    DivisionTheorem(p, x);
    Distribute(y, p, s, f);
    RemainderBelow(s, p, f, r);
    DivMod(y, p * f, s * f + r);
  }

  /** Scaling dividend and divisor scales the remainder. */
  lemma ScaledRemainder(n: nat, p: nat, q: nat)
    requires p > 0 && q > 0
    ensures p * q > 0
    ensures n * q % (p * q) == n % p * q
  {
    var k, r := n / p, n % p;
    DivisionTheorem(p, n);
    Distribute(k, p, r, q);
    RemainderBelow(r, p, q, 0);
    DivMod(k, p * q, r * q);
  }

  lemma QuotientBelow(base: nat, v: nat, p: nat)
    requires base > 0 && v < p * base
    ensures v / base < p
  {
    Quotient(base, v);
    if v / base >= p {
      MulMonotone(p, v / base, base);
      assert false;
    }
  }

  lemma MulMonotone(a: nat, b: nat, c: nat)
    requires a <= b
    ensures a * c <= b * c
  {
  }

  lemma {:induction false} ValueBounded(base: nat, digits: seq<nat>)
    requires IsDigits(base, digits)
    ensures Value(base, digits) < Pow(base, |digits|)
  {
    if digits == [] {
    } else {
      var init := digits[..|digits| - 1];
      ValueBounded(base, init);
      RemainderBelow(Value(base, init), Pow(base, |init|), base, digits[|digits| - 1]);
    }
  }

  /** Writing the value of a digit string with its own length gives it back. */
  lemma {:induction false} FixedOfValue(base: nat, digits: seq<nat>)
    requires base > 0 && IsDigits(base, digits)
    ensures Fixed(base, |digits|, Value(base, digits)) == digits
  {
    if digits == [] {
    } else {
      var init, last := digits[..|digits| - 1], digits[|digits| - 1];
      FixedOfValue(base, init);
      DivMod(Value(base, init), base, last);
    }
  }

  lemma {:induction false} ValueOfFixed(base: nat, length: nat, v: nat)
    requires base > 0 && v < Pow(base, length)
    ensures Value(base, Fixed(base, length, v)) == v
    ensures IsDigits(base, Fixed(base, length, v))
  {
    if length == 0 {
    } else {
      QuotientBelow(base, v, Pow(base, length - 1));
      Quotient(base, v);
      ValueOfFixed(base, length - 1, v / base);
      ValueOfAppend(base, Fixed(base, length - 1, v / base), v % base);
    }
  }

  lemma {:induction false} ValueOfMinimal(base: nat, v: nat)
    requires base > 1
    ensures Value(base, Minimal(base, v)) == v
    ensures IsDigits(base, Minimal(base, v))
    ensures v > 0 ==> Minimal(base, v)[0] > 0
  {
    if v == 0 {
    } else {
      var q := v / base;
      Quotient(base, v);
      ValueOfMinimal(base, q);
      ValueOfAppend(base, Minimal(base, q), v % base);
      assert Minimal(base, v) == Minimal(base, q) + [v % base];
    }
  }

  lemma {:induction false} MinimalOfValue(base: nat, digits: seq<nat>)
    requires base > 1 && IsDigits(base, digits)
    requires digits != [] ==> digits[0] > 0
    ensures Minimal(base, Value(base, digits)) == digits
    ensures digits != [] ==> Value(base, digits) > 0
  {
    if digits == [] {
    } else {
      var init, last := digits[..|digits| - 1], digits[|digits| - 1];
      MinimalOfValue(base, init);
      DivMod(Value(base, init), base, last);
      Positive(base, Value(base, init));
    }
  }

  lemma {:induction false} ValueOfDecimals(v: nat)
    ensures Value(10, Decimals(v)) == v
  {
    if v < 10 {
      assert Decimals(v)[..0] == [];
    } else {
      ValueOfDecimals(v / 10);
      ValueOfAppend(10, Decimals(v / 10), v % 10);
    }
  }

  lemma {:induction false} LeadingZeros(base: nat, n: nat, digits: seq<nat>)
    ensures Value(base, Zeros(n) + digits) == Value(base, digits)
  {
    var all := Zeros(n) + digits;
    if digits == [] {
      assert all == Zeros(n);
      if n > 0 {
        assert Zeros(n)[..n - 1] == Zeros(n - 1) + [];
        LeadingZeros(base, n - 1, []);
      }
    } else {
      assert all[..|all| - 1] == Zeros(n) + digits[..|digits| - 1];
      LeadingZeros(base, n, digits[..|digits| - 1]);
    }
  }

  function Zeros(n: nat): (z: seq<nat>)
    ensures |z| == n && forall i :: 0 <= i < n ==> z[i] == 0
  {
    seq(n, i => 0)
  }
}
