/** Bitwise exclusive-or on naturals, shared by the field arithmetic and the key-space metric. */
module Bits {

  function Xor(a: nat, b: nat): nat
    decreases a + b
  {
    if a == 0 && b == 0 then 0
    else 2 * Xor(a / 2, b / 2) + if a % 2 == b % 2 then 0 else 1
  }

  function Pow2(n: nat): (p: nat)
    ensures p >= 1
  {
    if n == 0 then 1 else 2 * Pow2(n - 1)
  }

  /** Exclusive-or one bit at a time, for numbers written as 2u + x and 2w + y. */
  lemma XorLow(u: nat, x: nat, w: nat, y: nat)
    requires x < 2 && y < 2
    ensures Xor(2 * u + x, 2 * w + y) == 2 * Xor(u, w) + if x == y then 0 else 1
  {
    var a, b := 2 * u + x, 2 * w + y;
    assert a / 2 == u && a % 2 == x && b / 2 == w && b % 2 == y;
  }

  lemma {:induction false} XorZero(a: nat)
    ensures Xor(a, 0) == a && Xor(0, a) == a
  {
    if a != 0 {
      XorZero(a / 2);
    }
  }

  lemma {:induction false} XorComm(a: nat, b: nat)
    ensures Xor(a, b) == Xor(b, a)
    decreases a + b
  {
    if a != 0 || b != 0 {
      XorComm(a / 2, b / 2);
    }
  }

  lemma XorAssocStep(a: nat, x: nat, b: nat, y: nat, c: nat, z: nat)
    requires x < 2 && y < 2 && z < 2
    requires Xor(Xor(a, b), c) == Xor(a, Xor(b, c))
    ensures Xor(Xor(2 * a + x, 2 * b + y), 2 * c + z) == Xor(2 * a + x, Xor(2 * b + y, 2 * c + z))
  {
    XorLow(a, x, b, y);
    XorLow(b, y, c, z);
    XorLow(Xor(a, b), if x == y then 0 else 1, c, z);
    XorLow(a, x, Xor(b, c), if y == z then 0 else 1);
  }

  lemma {:induction false} XorAssoc(a: nat, b: nat, c: nat)
    ensures Xor(Xor(a, b), c) == Xor(a, Xor(b, c))
    decreases a + b + c
  {
    if a != 0 || b != 0 || c != 0 {
      XorAssoc(a / 2, b / 2, c / 2);
      XorAssocStep(a / 2, a % 2, b / 2, b % 2, c / 2, c % 2);
      assert 2 * (a / 2) + a % 2 == a && 2 * (b / 2) + b % 2 == b && 2 * (c / 2) + c % 2 == c;
    }
  }

  lemma {:induction false} XorSelf(a: nat)
    ensures Xor(a, a) == 0
  {
    if a != 0 {
      XorSelf(a / 2);
    }
  }

  lemma XorCancel(a: nat, b: nat, c: nat)
    ensures Xor(a, Xor(a, b)) == b
    ensures Xor(a, b) == 0 <==> a == b
    ensures Xor(a, b) == Xor(a, c) <==> b == c
  {
    XorZero(b);
    XorZero(c);
    XorZero(a);
    XorAssoc(a, a, b);
    XorAssoc(a, a, c);
    XorSelf(a);
  }

  lemma {:induction false} XorRegroup(a: nat, b: nat, c: nat, d: nat)
    ensures Xor(Xor(a, b), Xor(c, d)) == Xor(Xor(a, c), Xor(b, d))
  {
    XorAssoc(a, b, Xor(c, d));
    XorAssoc(b, c, d);
    XorComm(b, c);
    XorAssoc(c, b, d);
    XorAssoc(a, c, Xor(b, d));
  }

  /** The top bit of an exclusive-or of two (n+1)-bit numbers. */
  lemma {:induction false} XorTopBit(a: nat, b: nat, n: nat)
    requires a < Pow2(n + 1) && b < Pow2(n + 1)
    ensures Xor(a, b) < Pow2(n + 1)
    ensures Xor(a, b) >= Pow2(n) <==> (a >= Pow2(n)) != (b >= Pow2(n))
  {
    if n > 0 {
      XorTopBit(a / 2, b / 2, n - 1);
    }
  }

  lemma XorDouble(a: nat, b: nat)
    ensures Xor(2 * a, 2 * b) == 2 * Xor(a, b)
  {
    XorLow(a, 0, b, 0);
  }

  /** a shifted left by n bits. */
  function Shl(a: nat, n: nat): nat {
    if n == 0 then a else 2 * Shl(a, n - 1)
  }

  lemma {:induction false} ShlIsTimes(a: nat, n: nat)
    ensures Shl(a, n) == a * Pow2(n)
  {
    if n > 0 {
      ShlIsTimes(a, n - 1);
    }
  }

  lemma XorSplitStep(ap: nat, b: nat, cp: nat, d: nat, xp: nat)
    requires Xor(ap + b / 2, cp + d / 2) == xp + Xor(b / 2, d / 2)
    ensures Xor(2 * ap + b, 2 * cp + d) == 2 * xp + Xor(b, d)
  {
    var u, x, w, y := b / 2, b % 2, d / 2, d % 2;
    assert b == 2 * u + x && d == 2 * w + y;
    XorLow(ap + u, x, cp + w, y);
    XorLow(u, x, w, y);
  }

  /** Exclusive-or of high and low parts separately. */
  lemma {:induction false} XorSplit(a: nat, b: nat, c: nat, d: nat, n: nat)
    requires b < Pow2(n) && d < Pow2(n)
    ensures Xor(Shl(a, n) + b, Shl(c, n) + d) == Shl(Xor(a, c), n) + Xor(b, d)
  {
    if n == 0 {
      XorZero(0);
    } else {
      XorSplit(a, b / 2, c, d / 2, n - 1);
      XorSplitBit(a, b, c, d, n);
    }
  }

  lemma XorSplitBit(a: nat, b: nat, c: nat, d: nat, n: nat)
    requires n > 0
    requires Xor(Shl(a, n - 1) + b / 2, Shl(c, n - 1) + d / 2) == Shl(Xor(a, c), n - 1) + Xor(b / 2, d / 2)
    ensures Xor(Shl(a, n) + b, Shl(c, n) + d) == Shl(Xor(a, c), n) + Xor(b, d)
  {
    XorSplitStep(Shl(a, n - 1), b, Shl(c, n - 1), d, Shl(Xor(a, c), n - 1));
  }

  /** Numbers between two of one aligned block of 2^j are in that block. */
  lemma {:induction false} BlockIsConvex(u: nat, v: nat, w: nat, j: nat)
    requires u <= v <= w && Xor(u, w) < Pow2(j)
    ensures Xor(u, v) < Pow2(j)
  {
    if j == 0 {
      XorCancel(u, w, 0);
      XorSelf(u);
    } else {
      BlockIsConvex(u / 2, v / 2, w / 2, j - 1);
    }
  }
}
