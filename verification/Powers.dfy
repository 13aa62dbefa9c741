/** Powers of two, and shifting and masking as division and remainder. */
module Powers {
  function Pow2(n: nat): (r: nat)
    ensures r > 0
  {
    if n == 0 then 1 else 2 * Pow2(n - 1)
  }

  /** `(w >> shift) & ((1 << width) - 1)`. */
  function Field(w: nat, shift: nat, width: nat): nat {
    w / Pow2(shift) % Pow2(width)
  }

  lemma {:induction false} Pow2Sum(a: nat, b: nat)
    ensures Pow2(a + b) == Pow2(a) * Pow2(b)
    decreases b
  {
    if b > 0 {
      Pow2Sum(a, b - 1);
      assert Pow2(a + b) == 2 * (Pow2(a) * Pow2(b - 1)) == Pow2(a) * (2 * Pow2(b - 1));
    }
  }

  lemma Pow2Of32()
    ensures Pow2(32) == 0x1_0000_0000
  {
    assert Pow2(4) == 16;
    Pow2Sum(4, 4);
    Pow2Sum(8, 8);
    Pow2Sum(16, 16);
  }

  lemma {:induction false} Pow2Monotone(a: nat, b: nat)
    requires a <= b
    ensures Pow2(a) <= Pow2(b)
    decreases b - a
  {
    if a < b {
      Pow2Monotone(a, b - 1);
    }
  }

  lemma MulAtLeast(k: int, d: nat)
    requires k >= 1
    ensures k * d >= d
  {
    assert k * d == d + (k - 1) * d;
  }

  lemma MulShift(s: nat, w: nat, r: nat, h: nat)
    ensures s * (w * r) * h == s * (w * (r * h))
  {
    assert (w * r) * h == w * (r * h);
  }

  /** Quotients are determined by their remainder's range. */
  lemma DivUnique(x: int, d: int, q: int, r: int)
    requires d > 0 && x == q * d + r && 0 <= r < d
    ensures x / d == q && x % d == r
  {
    var k := x / d - q;
    assert x == x / d * d + x % d;
    SmallFactor(k, d);
  }

  lemma SmallFactor(k: int, d: int)
    requires -d < k * d < d
    ensures k == 0
  {
    assert (k - 1) * d == k * d - d && (k + 1) * d == k * d + d;
    assert k >= 1 ==> (k - 1) * d >= 0;
    assert k <= -1 ==> (k + 1) * d <= 0;
  }

  lemma MixedDigits(a: nat, b: nat, u: nat, v: nat, q: nat, r: nat)
    requires v < a && u == q * b + r && r < b
    ensures u * a + v == q * (a * b) + (r * a + v) && r * a + v < a * b
  {
    MulAtLeast(b - r, a);
    assert (b - r) * a == b * a - r * a;
    assert (q * b) * a == q * (a * b);
  }

  lemma ModMul(x: nat, a: nat, b: nat)
    requires a > 0 && b > 0
    ensures a * b > 0 && x / (a * b) == x / a / b && x % (a * b) == x / a % b * a + x % a
  {
    var u, v := x / a, x % a;
    var q, r := u / b, u % b;
    MixedDigits(a, b, u, v, q, r);
    DivUnique(x, a * b, q, r * a + v);
  }

  lemma DivDiv(x: nat, a: nat, b: nat)
    requires a > 0 && b > 0
    ensures a * b > 0 && x / (a * b) == x / a / b
  {
    ModMul(x, a, b);
  }

  /** Whole multiples of the divisor come out of a quotient. */
  lemma DivAdd(x: nat, d: nat, k: nat)
    requires d > 0
    ensures (x + d * k) / d == x / d + k && (x + d * k) % d == x % d
  {
    assert x + d * k == (x / d + k) * d + x % d;
    DivUnique(x + d * k, d, x / d + k, x % d);
  }

  lemma DropHigh(low: nat, s: nat, w: nat, rest: nat, high: nat)
    requires s > 0 && w > 0
    ensures (low + s * (w * rest) * high) / s % w == low / s % w
  {
    MulShift(s, w, rest, high);
    DivAdd(low, s, w * (rest * high));
    DivAdd(low / s, w, rest * high);
  }

  /** A field within the low `n` bits does not see what lies above them. */
  lemma FieldIgnoresHigh(low: nat, high: nat, n: nat, shift: nat, width: nat)
    requires shift + width <= n
    ensures Field(low + Pow2(n) * high, shift, width) == Field(low, shift, width)
  {
    Pow2Sum(shift, n - shift);
    Pow2Sum(width, n - shift - width);
    DropHigh(low, Pow2(shift), Pow2(width), Pow2(n - shift - width), high);
  }

  lemma DropLow(low: nat, high: nat, m: nat, s: nat)
    requires low < m && s > 0
    ensures m * s > 0 && (low + m * high) / (m * s) == high / s
  {
    DivDiv(low + m * high, m, s);
    DivUnique(low + m * high, m, high, low);
  }

  /** A field above the low `n` bits is a field of what lies above them. */
  lemma FieldAbove(low: nat, high: nat, n: nat, shift: nat, width: nat)
    requires low < Pow2(n)
    ensures Field(low + Pow2(n) * high, n + shift, width) == Field(high, shift, width)
  {
    Pow2Sum(n, shift);
    DropLow(low, high, Pow2(n), Pow2(shift));
  }

  /** Adjacent fields concatenate. */
  lemma FieldConcat(w: nat, shift: nat, lowWidth: nat, highWidth: nat)
    ensures Field(w, shift, lowWidth + highWidth)
         == Field(w, shift + lowWidth, highWidth) * Pow2(lowWidth) + Field(w, shift, lowWidth)
  {
    Pow2Sum(shift, lowWidth);
    Pow2Sum(lowWidth, highWidth);
    ConcatNumbers(w, Pow2(shift), Pow2(lowWidth), Pow2(highWidth));
  }

  lemma ConcatNumbers(w: nat, s: nat, a: nat, b: nat)
    requires s > 0 && a > 0 && b > 0
    ensures s * a > 0 && a * b > 0 && w / s % (a * b) == w / (s * a) % b * a + w / s % a
  {
    DivDiv(w, s, a);
    ModMul(w / s, a, b);
  }
}
