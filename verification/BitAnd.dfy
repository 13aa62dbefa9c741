/** Bitwise and of natural numbers, and aligning with a mask. */
module BitAnd {
  import opened Powers

  function And(a: nat, b: nat): nat {
    if a == 0 || b == 0 then 0
    else 2 * And(a / 2, b / 2) + if a % 2 == 1 && b % 2 == 1 then 1 else 0
  }

  ghost predicate PowerOfTwo(g: nat) {
    exists k: nat :: g == Pow2(k)
  }

  lemma {:induction false} AndOnes(x: nat, a: nat)
    requires x < Pow2(a)
    ensures And(x, Pow2(a) - 1) == x
    decreases a
  {
    if x != 0 {
      assert (Pow2(a) - 1) / 2 == Pow2(a - 1) - 1 && (Pow2(a) - 1) % 2 == 1;
      AndOnes(x / 2, a - 1);
    }
  }

  /** Masking off the low `k` bits. */
  lemma {:induction false} AndClearsLow(x: nat, a: nat, k: nat)
    requires x < Pow2(a) && k <= a
    ensures Pow2(k) <= Pow2(a) && And(x, Pow2(a) - Pow2(k)) == x - x % Pow2(k)
    decreases k
  {
    if k == 0 {
      AndOnes(x, a);
    } else {
      AndClearsLow(x / 2, a - 1, k - 1);
      assert (Pow2(a) - Pow2(k)) / 2 == Pow2(a - 1) - Pow2(k - 1);
      ModMul(x, 2, Pow2(k - 1));
    }
  }

  lemma {:induction false} AndComplement(z: nat, a: nat)
    requires z < Pow2(a)
    ensures And(Pow2(a) - 1 - z, z) == 0
    decreases a
  {
    if a > 0 {
      assert (Pow2(a) - 1 - z) / 2 == Pow2(a - 1) - 1 - z / 2;
      AndComplement(z / 2, a - 1);
    }
  }

  lemma {:induction false} AndOfAnd(x: nat, y: nat, z: nat)
    requires And(y, z) == 0
    ensures And(And(x, y), z) == 0
    decreases x
  {
    if x != 0 && y != 0 && z != 0 {
      AndOfAnd(x / 2, y / 2, z / 2);
      assert And(x, y) / 2 == And(x / 2, y / 2);
    }
  }

  /** The classical test: a positive number is a power of two exactly when it shares no bit with its
      predecessor. */
  lemma {:induction false} PowerOfTwoTest(g: nat)
    requires g > 0
    ensures And(g, g - 1) == 0 <==> PowerOfTwo(g)
    decreases g
  {
    if g == 1 {
      assert 1 == Pow2(0);
    } else if g % 2 == 0 {
      assert (g - 1) / 2 == g / 2 - 1;
      PowerOfTwoTest(g / 2);
      if PowerOfTwo(g / 2) {
        var k: nat :| g / 2 == Pow2(k);
        assert g == Pow2(k + 1);
      }
      if PowerOfTwo(g) {
        var k: nat :| g == Pow2(k);
        assert g / 2 == Pow2(k - 1);
      }
    } else {
      assert (g - 1) / 2 == g / 2;
      AndSelf(g / 2);
      forall k: nat ensures g != Pow2(k) {
        Pow2Parity(k);
      }
    }
  }

  lemma {:induction false} Pow2Parity(k: nat)
    ensures Pow2(k) % 2 == 0 || Pow2(k) == 1
  {
    if k > 0 {
      DoubleEven(Pow2(k - 1));
    }
  }

  lemma DoubleEven(x: nat)
    ensures 2 * x % 2 == 0
  {
  }

  lemma {:induction false} AndSelf(x: nat)
    ensures And(x, x) == x
  {
    if x != 0 {
      AndSelf(x / 2);
    }
  }

  /** The low `t` bits are clear. */
  predicate LowClear(y: nat, t: nat)
    decreases t
  {
    t == 0 || (y % 2 == 0 && LowClear(y / 2, t - 1))
  }

  lemma {:induction false} LowClearIsMultiple(y: nat, t: nat)
    ensures LowClear(y, t) <==> y % Pow2(t) == 0
    decreases t
  {
    if t > 0 {
      LowClearIsMultiple(y / 2, t - 1);
      ModMul(y, 2, Pow2(t - 1));
    }
  }

  /** Low bits that are clear in one operand are clear in the result. */
  lemma {:induction false} AndLowClear(x: nat, y: nat, t: nat)
    requires LowClear(y, t)
    ensures LowClear(And(x, y), t)
    decreases t
  {
    if t > 0 && x != 0 && y != 0 {
      AndLowClear(x / 2, y / 2, t - 1);
      assert And(x, y) / 2 == And(x / 2, y / 2);
    } else {
      ZeroLowClear(t);
    }
  }

  lemma {:induction false} ZeroLowClear(t: nat)
    ensures LowClear(0, t)
    decreases t
  {
    if t > 0 {
      ZeroLowClear(t - 1);
    }
  }
}
