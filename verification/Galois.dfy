/** Arithmetic in GF(2^8) by logarithm and exponential tables, for the polynomial
    x^8 + x^4 + x^3 + x^2 + 1 (0x11D).

    `PolyMul` is the reference: shift-and-add multiplication of polynomials over GF(2), reduced
    modulo 0x11D after every shift. Everything about the tables is derived from two facts about it:
    multiplication by x is linear and commutes with it, and x has multiplicative order 255. */
module Galois {
  import opened Bits
  import opened Sets

  type Byte = x: nat | x < 256

  const POLY: nat := 0x11D

  // ---- the reference: polynomials modulo 0x11D ---------------------------------------------

  /** Multiplication by x: the step of the table builder, shift left and subtract on overflow. */
  function XTime(a: Byte): (r: Byte) {
    if 2 * a >= 256 then
      XorTopBit(2 * a, POLY, 8);
      assert Pow2(9) == 512 && Pow2(8) == 256;
      Xor(2 * a, POLY)
    else 2 * a
  }

  /** Addition and subtraction. */
  function Add(a: Byte, b: Byte): (r: Byte) {
    assert Pow2(8) == 256;
    XorTopBit(a, b, 7);
    Xor(a, b)
  }

  function PolyMul(a: Byte, b: nat): Byte
    decreases b
  {
    if b == 0 then 0
    else Add(if b % 2 == 1 then a else 0, PolyMul(XTime(a), b / 2))
  }

  /** x^n modulo 0x11D. */
  function XPow(n: nat): Byte {
    if n == 0 then 1 else XTime(XPow(n - 1))
  }

  lemma XTimeAdd(a: Byte, b: Byte)
    ensures XTime(Add(a, b)) == Add(XTime(a), XTime(b))
  {
    XorDouble(a, b);
    assert Pow2(7) == 128 && Pow2(8) == 256;
    XorTopBit(a, b, 7);
    XorAssoc(2 * a, 2 * b, POLY);
    XorAssoc(2 * a, POLY, 2 * b);
    XorComm(POLY, 2 * b);
    XorRegroup(2 * a, POLY, 2 * b, POLY);
    XorSelf(POLY);
    XorZero(Xor(2 * a, 2 * b));
  }

  lemma XTimeInjective(a: Byte, b: Byte)
    requires XTime(a) == XTime(b)
    ensures a == b
  {
    XTimeAdd(a, b);
    XorSelf(XTime(a));
    XorCancel(2 * Add(a, b), POLY, 0);
    XorCancel(a, b, 0);
  }

  // ---- multiplication by powers of x ---------------------------------------------------------

  lemma {:induction false} PolyMulXTime(a: Byte, b: nat)
    ensures PolyMul(XTime(a), b) == XTime(PolyMul(a, b))
    decreases b
  {
    if b > 0 {
      PolyMulXTime(XTime(a), b / 2);
      XTimeAdd(if b % 2 == 1 then a else 0, PolyMul(XTime(a), b / 2));
    }
  }

  lemma {:induction false} PolyMulAdd(a: Byte, a': Byte, b: nat)
    ensures PolyMul(Add(a, a'), b) == Add(PolyMul(a, b), PolyMul(a', b))
    decreases b
  {
    if b > 0 {
      XTimeAdd(a, a');
      PolyMulAdd(XTime(a), XTime(a'), b / 2);
      XorRegroup(if b % 2 == 1 then a else 0, if b % 2 == 1 then a' else 0,
                 PolyMul(XTime(a), b / 2), PolyMul(XTime(a'), b / 2));
    }
  }

  lemma {:induction false} OneTimes(b: Byte)
    ensures PolyMul(1, b) == b
  {
    if b > 0 {
      var h, x := b / 2, b % 2;
      var low: Byte := if x == 1 then 1 else 0;
      calc {
        PolyMul(1, b);
        Add(low, PolyMul(XTime(1), h));
        { PolyMulXTime(1, h); OneTimes(h); }
        Add(low, XTime(h));
        { assert XTime(h) == 2 * h; }
        Xor(2 * 0 + x, 2 * h + 0);
        { XorLow(0, x, h, 0); XorZero(h); }
        b;
      }
    }
  }

  lemma {:induction false} XPowAdd(i: nat, j: nat)
    ensures PolyMul(XPow(i), XPow(j)) == XPow(i + j)
  {
    if i == 0 {
      OneTimes(XPow(j));
    } else {
      XPowAdd(i - 1, j);
      PolyMulXTime(XPow(i - 1), XPow(j));
    }
  }

  // ---- x has order exactly 255 ---------------------------------------------------------------

  /** A byte as its eight coefficients, on which the powers of x can be written out. */
  datatype Poly = Poly(c7: bool, c6: bool, c5: bool, c4: bool, c3: bool, c2: bool, c1: bool, c0: bool) {
    function Shift(): Poly {
      Poly(c6, c5, c4, c3 != c7, c2 != c7, c1 != c7, c0, c7)
    }

    /** Squaring is linear over GF(2): x^i goes to x^(2i), reduced. */
    function Square(): Poly {
      Poly(c6, c3 != (c5 != c6), c5, (c2 != c4) != (c5 != c7), c4 != c6, (c1 != c4) != (c5 != c6), c7,
           (c0 != c4) != (c6 != c7))
    }

    function Value(): nat {
      Append3(Append3(Append3(0, false, c7, c6), c5, c4, c3), c2, c1, c0)
    }
  }

  function Append(n: nat, bit: bool): nat {
    2 * n + if bit then 1 else 0
  }

  function Append3(n: nat, x: bool, y: bool, z: bool): nat {
    Append(Append(Append(n, x), y), z)
  }

  lemma XorAppend(n: nat, x: bool, m: nat, y: bool)
    ensures Xor(Append(n, x), Append(m, y)) == Append(Xor(n, m), x != y)
  {
    XorLow(n, if x then 1 else 0, m, if y then 1 else 0);
  }

  lemma XorAppend3(n: nat, x: bool, y: bool, z: bool, m: nat, x': bool, y': bool, z': bool)
    ensures Xor(Append3(n, x, y, z), Append3(m, x', y', z')) == Append3(Xor(n, m), x != x', y != y', z != z')
  {
    XorAppend(n, x, m, x');
    XorAppend(Append(n, x), y, Append(m, x'), y');
    XorAppend(Append(Append(n, x), y), z, Append(Append(m, x'), y'), z');
  }

  lemma XorAppend3Lit(n: nat, x: bool, y: bool, z: bool, m: nat, x': bool, y': bool, z': bool, lit: nat)
    requires lit == Append3(m, x', y', z')
    ensures Xor(Append3(n, x, y, z), lit) == Append3(Xor(n, m), x != x', y != y', z != z')
  {
    XorAppend3(n, x, y, z, m, x', y', z');
  }

  lemma ShiftOverflows(c6: bool, c5: bool, c4: bool, c3: bool, c2: bool, c1: bool, c0: bool, high: nat, mid: nat)
    requires high == Append3(0, true, c6, c5)
    requires mid == Append3(high, c4, c3, c2)
    ensures Xor(Append3(mid, c1, c0, false), POLY)
            == Append3(Append3(Append3(0, false, c6, c5), c4, !c3, !c2), !c1, c0, true)
  {
    XorAppend3Lit(mid, c1, c0, false, 35, true, false, true, POLY);
    XorAppend3Lit(high, c4, c3, c2, 4, false, true, true, 35);
    XorAppend3Lit(0, true, c6, c5, 0, true, false, false, 4);
    assert Xor(0, 0) == 0;
  }

  lemma ValueParts(p: Poly)
    ensures p.Value() < 256
    ensures p.c7 <==> p.Value() >= 128
    ensures 2 * p.Value() == Append3(Append3(Append3(0, p.c7, p.c6, p.c5), p.c4, p.c3, p.c2), p.c1, p.c0, false)
  {
  }

  /** On coefficients, multiplication by x is a shift that feeds the top one back into four places. */
  lemma ShiftIsXTime(p: Poly)
    ensures p.Value() < 256
    ensures p.Shift().Value() == XTime(p.Value())
  {
    ValueParts(p);
    if p.c7 {
      var high := Append3(0, true, p.c6, p.c5);
      ShiftOverflows(p.c6, p.c5, p.c4, p.c3, p.c2, p.c1, p.c0, high, Append3(high, p.c4, p.c3, p.c2));
    } else {
      ValueParts(p.Shift());
    }
  }

  lemma {:induction false} XPowShifts(n: nat) returns (p: Poly)
    ensures p.Value() == XPow(n)
    ensures p == Shifts(n)
  {
    p := Poly(false, false, false, false, false, false, false, true);
    if n > 0 {
      var q := XPowShifts(n - 1);
      ShiftIsXTime(q);
      p := q.Shift();
    }
  }

  function Shifts(n: nat): Poly {
    if n == 0 then Poly(false, false, false, false, false, false, false, true) else Shifts(n - 1).Shift()
  }


  lemma {:induction false} ShiftsDouble(n: nat)
    ensures Shifts(2 * n) == Shifts(n).Square()
    ensures Shifts(2 * n + 1) == Shifts(n).Square().Shift()
  {
    if n > 0 {
      ShiftsDouble(n - 1);
      SquareShift(Shifts(n - 1));
      assert Shifts(2 * n - 1) == Shifts(2 * n - 2).Shift();
    }
  }

  lemma SquareShift(p: Poly)
    ensures p.Shift().Square() == p.Square().Shift().Shift()
  {
  }

  // The powers of x that decide its order, by repeated squaring.

  lemma Shifts17()
    ensures Shifts(17) == Poly(true, false, false, true, true, false, false, false)
  {
    ShiftsDouble(0);
    assert Shifts(1) == Poly(false, false, false, false, false, false, true, false);
    ShiftsDouble(1);
    assert Shifts(2) == Poly(false, false, false, false, false, true, false, false);
    ShiftsDouble(2);
    assert Shifts(4) == Poly(false, false, false, true, false, false, false, false);
    ShiftsDouble(4);
    assert Shifts(8) == Poly(false, false, false, true, true, true, false, true);
    ShiftsDouble(8);
  }

  lemma Shifts51()
    ensures Shifts(51) == Poly(false, false, false, false, true, false, true, false)
  {
    ShiftsDouble(0);
    assert Shifts(1) == Poly(false, false, false, false, false, false, true, false);
    ShiftsDouble(1);
    assert Shifts(3) == Poly(false, false, false, false, true, false, false, false);
    ShiftsDouble(3);
    assert Shifts(6) == Poly(false, true, false, false, false, false, false, false);
    ShiftsDouble(6);
    assert Shifts(12) == Poly(true, true, false, false, true, true, false, true);
    ShiftsDouble(12);
    assert Shifts(25) == Poly(false, false, false, false, false, false, true, true);
    ShiftsDouble(25);
  }

  lemma Shifts85()
    ensures Shifts(85) == Poly(true, true, false, true, false, true, true, false)
  {
    ShiftsDouble(0);
    assert Shifts(1) == Poly(false, false, false, false, false, false, true, false);
    ShiftsDouble(1);
    assert Shifts(2) == Poly(false, false, false, false, false, true, false, false);
    ShiftsDouble(2);
    assert Shifts(5) == Poly(false, false, true, false, false, false, false, false);
    ShiftsDouble(5);
    assert Shifts(10) == Poly(false, true, true, true, false, true, false, false);
    ShiftsDouble(10);
    assert Shifts(21) == Poly(false, true, true, true, false, true, false, true);
    ShiftsDouble(21);
    assert Shifts(42) == Poly(true, false, true, true, false, true, false, true);
    ShiftsDouble(42);
  }

  lemma Shifts255()
    ensures Shifts(255) == Poly(false, false, false, false, false, false, false, true)
  {
    ShiftsDouble(0);
    assert Shifts(1) == Poly(false, false, false, false, false, false, true, false);
    ShiftsDouble(1);
    assert Shifts(3) == Poly(false, false, false, false, true, false, false, false);
    ShiftsDouble(3);
    assert Shifts(7) == Poly(true, false, false, false, false, false, false, false);
    ShiftsDouble(7);
    assert Shifts(15) == Poly(false, false, true, false, false, true, true, false);
    ShiftsDouble(15);
    assert Shifts(31) == Poly(true, true, false, false, false, false, false, false);
    ShiftsDouble(31);
    assert Shifts(63) == Poly(true, false, true, false, false, false, false, true);
    ShiftsDouble(63);
    assert Shifts(127) == Poly(true, true, false, false, true, true, false, false);
    ShiftsDouble(127);
  }

  lemma XPow255()
    ensures XPow(255) == 1
  {
    Shifts255();
    var p := XPowShifts(255);
  }

  /** The proper divisors of 255 are not periods of x. */
  lemma XPowDivisors(d: nat)
    requires d in {1, 3, 5, 15, 17, 51, 85}
    ensures XPow(d) != 1
  {
    var p := XPowShifts(d);
    ShiftsDouble(0);
    ShiftsDouble(1);
    ShiftsDouble(2);
    ShiftsDouble(3);
    ShiftsDouble(7);
    Shifts17();
    Shifts51();
    Shifts85();
  }

  lemma {:induction false} XPowCancel(i: nat, j: nat, k: nat)
    ensures XPow(i + k) == XPow(j + k) <==> XPow(i) == XPow(j)
    decreases k
  {
    if k > 0 {
      XPowCancel(i, j, k - 1);
      if XPow(i + k) == XPow(j + k) {
        XTimeInjective(XPow(i + k - 1), XPow(j + k - 1));
      }
    }
  }

  lemma {:induction false} XPowPeriod(d: nat, k: nat)
    requires XPow(d) == 1
    ensures XPow(d + k) == XPow(k)
  {
    if k > 0 {
      XPowPeriod(d, k - 1);
    }
  }

  lemma XPowNotOne(d: nat)
    requires 0 < d < 255
    ensures XPow(d) != 1
  {
    if XPow(d) == 1 {
      var g := LeastPeriod(d);
      XPow255();
      var q, r := PeriodRemainder(g, 255);
      DivisorsOf255(q, g);
      XPowDivisors(g);
    }
  }

  lemma {:induction false} PeriodRemainder(g: nat, n: nat) returns (q: nat, r: nat)
    requires 0 < g && XPow(g) == 1 && XPow(n) == 1
    ensures q * g + r == n && r < g && XPow(r) == 1
    decreases n
  {
    if n < g {
      q, r := 0, n;
    } else {
      XPowPeriod(g, n - g);
      var q', r' := PeriodRemainder(g, n - g);
      q, r := q' + 1, r';
      assert (q' + 1) * g == q' * g + g;
    }
  }

  lemma DivisorsOf255(q: nat, g: nat)
    requires q * g == 255 && g < 255
    ensures g in {1, 3, 5, 15, 17, 51, 85}
  {
    if g >= 16 {
      assert q == 0 || q == 1 || q == 2 || q == 3 || q == 4 || q == 5 || q == 6 || q == 7
          || q == 8 || q == 9 || q == 10 || q == 11 || q == 12 || q == 13 || q == 14 || q == 15;
    }
  }

  lemma LeastPeriod(d: nat) returns (g: nat)
    requires 0 < d && XPow(d) == 1
    ensures 0 < g <= d && XPow(g) == 1
    ensures forall e :: 0 < e < g ==> XPow(e) != 1
  {
    g := 1;
    while XPow(g) != 1
      invariant 0 < g <= d
      invariant forall e :: 0 < e < g ==> XPow(e) != 1
      decreases d - g
    {
      g := g + 1;
    }
  }

  /** The exponential table holds no value twice. */
  lemma XPowDistinct(i: nat, j: nat)
    requires i < j < 255
    ensures XPow(i) != XPow(j)
  {
    XPowCancel(0, j - i, i);
    XPowNotOne(j - i);
  }

  lemma {:induction false} XPowNonZero(n: nat)
    ensures XPow(n) != 0
  {
    if n > 0 {
      XPowNonZero(n - 1);
      assert XTime(0) == 0;
      if XPow(n) == 0 {
        XTimeInjective(XPow(n - 1), 0);
      }
    }
  }

  // ---- the tables ----------------------------------------------------------------------------

  function FindLog(a: Byte, i: nat): (r: Byte)
    requires i <= 255
    decreases 255 - i
  {
    if i == 255 || XPow(i) == a then i else FindLog(a, i + 1)
  }

  /** EXP and LOG: the tables the loop of `BuildTables` leaves behind. */
  function ExpTable(): seq<Byte> {
    seq(512, i requires 0 <= i < 512 => XPow(i))
  }

  function LogTable(): seq<Byte> {
    seq(256, a requires 0 <= a < 256 => if a == 0 then 0 else FindLog(a, 0))
  }

  function Mul(a: Byte, b: Byte): Byte {
    if a == 0 || b == 0 then 0
    else
      LogInRange(a);
      LogInRange(b);
      var i: nat := LogTable()[a];
      ExpTable()[i + LogTable()[b]]
  }

  function Inv(a: Byte): Byte
    requires a != 0
  {
    ExpTable()[255 - LogTable()[a]]
  }

  lemma {:induction false} FindLogAt(n: nat, i: nat)
    requires i <= n < 255
    ensures FindLog(XPow(n), i) == n
    decreases n - i
  {
    if i < n {
      XPowDistinct(i, n);
      FindLogAt(n, i + 1);
    }
  }

  /** The 255 distinct powers of x fill the 255 non-zero bytes. */
  lemma LogExists(a: Byte) returns (n: nat)
    requires a != 0
    ensures n < 255 && XPow(n) == a
  {
    n := LogAmong(a, 255);
  }

  lemma LogAmong(a: Byte, m: nat) returns (n: nat)
    requires a != 0 && m == 255
    ensures n < 255 && XPow(n) == a
  {
    PowersSize(m);
    PowersAre(m);
    UpToIs(m);
    if a !in Powers(m) {
      SubsetSize(Powers(m), UpTo(m) - {a});
    }
    assert IsPower(a, m);
    n :| 0 <= n < m && XPow(n) == a;
  }

  ghost function Powers(n: nat): set<nat> {
    if n == 0 then {} else Powers(n - 1) + {XPow(n - 1)}
  }

  ghost function UpTo(n: nat): set<nat> {
    if n == 0 then {} else UpTo(n - 1) + {n}
  }

  ghost predicate IsPower(x: nat, n: nat) {
    exists i :: 0 <= i < n && XPow(i) == x
  }

  lemma {:induction false} PowersAre(n: nat)
    ensures forall x :: x in Powers(n) ==> 1 <= x <= 255 && IsPower(x, n)
  {
    if n > 0 {
      PowersAre(n - 1);
      XPowNonZero(n - 1);
      forall x | x in Powers(n)
        ensures 1 <= x <= 255 && IsPower(x, n)
      {
        if x in Powers(n - 1) {
          assert IsPower(x, n - 1);
        }
      }
    }
  }

  lemma {:induction false} PowersSize(n: nat)
    requires n <= 255
    ensures |Powers(n)| == n
  {
    if n > 0 {
      PowersSize(n - 1);
      PowersAre(n - 1);
      forall i | 0 <= i < n - 1
        ensures XPow(i) != XPow(n - 1)
      {
        XPowDistinct(i, n - 1);
      }
      assert !IsPower(XPow(n - 1), n - 1);
    }
  }

  lemma {:induction false} UpToIs(n: nat)
    ensures |UpTo(n)| == n
    ensures forall x :: x in UpTo(n) <==> 1 <= x <= n
  {
    if n > 0 {
      UpToIs(n - 1);
    }
  }

  lemma LogInRange(a: Byte)
    requires a != 0
    ensures LogTable()[a] < 255 && XPow(LogTable()[a]) == a
  {
    var n := LogExists(a);
    FindLogAt(n, 0);
  }

  // ---- the field laws ------------------------------------------------------------------------

  lemma XPowWrap(k: nat)
    ensures XPow(k + 255) == XPow(k)
  {
    XPow255();
    XPowPeriod(255, k);
  }

  lemma MulPowers(i: nat, j: nat)
    requires i < 255 && j < 255
    ensures Mul(XPow(i), XPow(j)) == XPow(i + j)
  {
    XPowNonZero(i);
    XPowNonZero(j);
    FindLogAt(i, 0);
    FindLogAt(j, 0);
  }

  /** The table product is polynomial multiplication modulo 0x11D. */
  lemma MulIsPolyMul(a: Byte, b: Byte)
    ensures Mul(a, b) == PolyMul(a, b)
  {
    if a == 0 {
      PolyMulZero(b);
    } else if b != 0 {
      var i := LogExists(a);
      var j := LogExists(b);
      MulPowers(i, j);
      XPowAdd(i, j);
    }
  }

  lemma {:induction false} PolyMulZero(b: nat)
    ensures PolyMul(0, b) == 0
    decreases b
  {
    if b > 0 {
      assert XTime(0) == 0;
      PolyMulZero(b / 2);
    }
  }

  lemma MulComm(a: Byte, b: Byte)
    ensures Mul(a, b) == Mul(b, a)
  {
  }

  lemma MulOne(a: Byte)
    ensures Mul(1, a) == a && Mul(a, 1) == a
  {
    MulIsPolyMul(1, a);
    OneTimes(a);
    MulComm(1, a);
  }

  lemma MulAssoc(a: Byte, b: Byte, c: Byte)
    ensures Mul(Mul(a, b), c) == Mul(a, Mul(b, c))
  {
    if a != 0 && b != 0 && c != 0 {
      var i := LogExists(a);
      var j := LogExists(b);
      var k := LogExists(c);
      MulThree(i, j, k);
      MulThree(j, k, i);
      MulComm(a, Mul(b, c));
    }
  }

  lemma MulThree(i: nat, j: nat, k: nat)
    requires i < 255 && j < 255 && k < 255
    ensures Mul(Mul(XPow(i), XPow(j)), XPow(k)) == XPow(i + j + k)
  {
    MulPowers(i, j);
    MulReduced(i + j, k);
  }

  lemma MulReduced(n: nat, k: nat)
    requires n < 510 && k < 255
    ensures Mul(XPow(n), XPow(k)) == XPow(n + k)
  {
    if n < 255 {
      MulPowers(n, k);
    } else {
      XPowWrap(n - 255);
      XPowWrap(n - 255 + k);
      MulPowers(n - 255, k);
    }
  }

  /** Multiplication distributes over addition, because each step of `PolyMul` is linear. */
  lemma MulAdd(a: Byte, b: Byte, c: Byte)
    ensures Mul(Add(a, b), c) == Add(Mul(a, c), Mul(b, c))
  {
    MulIsPolyMul(Add(a, b), c);
    MulIsPolyMul(a, c);
    MulIsPolyMul(b, c);
    PolyMulAdd(a, b, c);
  }

  lemma MulNonZero(a: Byte, b: Byte)
    requires a != 0 && b != 0
    ensures Mul(a, b) != 0
  {
    var i := LogExists(a);
    var j := LogExists(b);
    MulPowers(i, j);
    XPowNonZero(i + j);
  }

  lemma MulInv(a: Byte)
    requires a != 0
    ensures Inv(a) != 0 && Mul(a, Inv(a)) == 1
  {
    LogInRange(a);
    var i: nat := LogTable()[a];
    XPowNonZero(255 - i);
    MulReduced(255 - i, i);
    XPow255();
    MulComm(a, Inv(a));
  }

  // ---- building the tables -------------------------------------------------------------------

  /** The table builder: no index leaves the tables, and no logarithm is overwritten. */
  method BuildTables() returns (exp: array<Byte>, log: array<Byte>)
    ensures exp[..] == ExpTable() && log[..] == LogTable()
  {
    exp := new Byte[512](_ => 0);
    log := new Byte[256](_ => 0);
    FillPowers(exp, log);
    RepeatPowers(exp);
  }

  method RepeatPowers(exp: array<Byte>)
    requires exp.Length == 512 && PowersUpTo(exp[..], 255)
    modifies exp
    ensures exp[..] == ExpTable()
  {
    var j := 255;
    while j < 512
      invariant 255 <= j <= 512 && PowersUpTo(exp[..], j)
    {
      PowersStep(exp[..], j);
      exp[j] := exp[j - 255];
      j := j + 1;
    }
  }

  ghost predicate PowersUpTo(exp: seq<Byte>, j: nat) {
    |exp| == 512 && forall k :: 0 <= k < j && k < 512 ==> exp[k] == XPow(k)
  }

  lemma PowersStep(exp: seq<Byte>, j: nat)
    requires 255 <= j < 512 && PowersUpTo(exp, j)
    ensures PowersUpTo(exp[j := exp[j - 255]], j + 1)
  {
    XPowWrap(j - 255);
  }

  method FillPowers(exp: array<Byte>, log: array<Byte>)
    requires exp.Length == 512 && log.Length == 256 && exp != log && log[0] == 0
    modifies exp, log
    ensures forall j :: 0 <= j < 255 ==> exp[j] == XPow(j)
    ensures log[..] == LogTable()
  {
    var x := 1;
    var i := 0;
    while i < 255
      invariant 0 <= i <= 255 && x == XPow(i)
      invariant forall j :: 0 <= j < i ==> exp[j] == XPow(j)
      invariant LogsUpTo(log[..], i)
    {
      ghost var before := log[..];
      LogsStep(before, i);
      exp[i] := x;
      log[x] := i;
      assert log[..] == before[x := i];
      x := XShift(x);
      i := i + 1;
    }
    LogsComplete(log[..]);
  }

  /** The logarithms of the first i powers are in place, and the one of zero is untouched. */
  ghost predicate LogsUpTo(log: seq<Byte>, i: nat) {
    |log| == 256 && log[0] == 0 && forall j :: 0 <= j < i ==> log[XPow(j)] == j
  }

  lemma LogsStep(log: seq<Byte>, i: Byte)
    requires i < 255 && LogsUpTo(log, i)
    ensures LogsUpTo(log[XPow(i) := i], i + 1)
  {
    XPowNonZero(i);
    forall j | 0 <= j < i
      ensures XPow(j) != XPow(i)
    {
      XPowDistinct(j, i);
    }
  }

  lemma LogsComplete(log: seq<Byte>)
    requires LogsUpTo(log, 255)
    ensures log == LogTable()
  {
    forall a | 1 <= a < 256
      ensures log[a] == FindLog(a, 0)
    {
      var n := LogExists(a);
      FindLogAt(n, 0);
    }
  }

  /** The builder's step on a 16-bit word: shift, then subtract the polynomial if bit 8 is set. */
  method XShift(x: nat) returns (y: nat)
    requires x < 256
    ensures y == XTime(x)
  {
    y := 2 * x;
    if y >= 256 {
      y := Xor(y, POLY);
    }
  }
}
