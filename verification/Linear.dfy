/** Vectors and linear combinations over GF(2^8): the row operations of the coder, spans, and the
    bound on how many independent vectors a span can hold. */
module Linear {
  import opened Bits
  import opened Galois

  type Vec = seq<Byte>

  function Zero(n: nat): (r: Vec)
    ensures |r| == n
  {
    seq(n, _ => 0)
  }

  /** dst + c * src, the row operation. */
  function Axpy(dst: Vec, src: Vec, c: Byte): (r: Vec)
    requires |dst| == |src|
    ensures |r| == |dst|
  {
    seq(|dst|, i requires 0 <= i < |dst| => Add(dst[i], Mul(c, src[i])))
  }

  function Scale(v: Vec, c: Byte): (r: Vec)
    ensures |r| == |v|
  {
    seq(|v|, i requires 0 <= i < |v| => Mul(c, v[i]))
  }

  function Dot(a: Vec, b: Vec): Byte
    requires |a| == |b|
  {
    if |a| == 0 then 0
    else
      var n := |a| - 1;
      Add(Dot(a[..n], b[..n]), Mul(a[n], b[n]))
  }

  predicate IsMatrix(rows: seq<Vec>, n: nat) {
    forall i :: 0 <= i < |rows| ==> |rows[i]| == n
  }

  /** The linear combination c[0] * rows[0] + c[1] * rows[1] + ... of vectors of length n. */
  function Comb(c: Vec, rows: seq<Vec>, n: nat): (r: Vec)
    requires |c| == |rows| && IsMatrix(rows, n)
    ensures |r| == n
  {
    if |c| == 0 then Zero(n)
    else
      var m := |c| - 1;
      Axpy(Comb(c[..m], rows[..m], n), rows[m], c[m])
  }

  // ---- one coordinate at a time ----------------------------------------------------------------

  lemma AddZero(a: Byte)
    ensures Add(a, 0) == a && Add(0, a) == a && Add(a, a) == 0
  {
    XorZero(a);
    XorSelf(a);
  }

  lemma MulAddRight(a: Byte, b: Byte, c: Byte)
    ensures Mul(c, Add(a, b)) == Add(Mul(c, a), Mul(c, b))
  {
    MulAdd(a, b, c);
    MulComm(c, Add(a, b));
    MulComm(c, a);
    MulComm(c, b);
  }

  /** (x + c r) + a (y + d r) == (x + a y) + (c + a d) r */
  lemma StepLinear(x: Byte, y: Byte, r: Byte, a: Byte, c: Byte, d: Byte)
    ensures Add(Add(x, Mul(c, r)), Mul(a, Add(y, Mul(d, r)))) == Add(Add(x, Mul(a, y)), Mul(Add(c, Mul(a, d)), r))
  {
    MulAddRight(y, Mul(d, r), a);
    MulAssoc(a, d, r);
    MulAdd(c, Mul(a, d), r);
    XorRegroup(x, Mul(c, r), Mul(a, y), Mul(a, Mul(d, r)));
  }

  // ---- linear combinations ---------------------------------------------------------------------

  lemma AxpyAxpy(x: Vec, y: Vec, r: Vec, a: Byte, c: Byte, d: Byte)
    requires |x| == |y| == |r|
    ensures Axpy(Axpy(x, r, c), Axpy(y, r, d), a) == Axpy(Axpy(x, y, a), r, Add(c, Mul(a, d)))
  {
    forall i | 0 <= i < |x|
      ensures Axpy(Axpy(x, r, c), Axpy(y, r, d), a)[i] == Axpy(Axpy(x, y, a), r, Add(c, Mul(a, d)))[i]
    {
      StepLinear(x[i], y[i], r[i], a, c, d);
    }
  }

  /** A combination is linear in its coefficients. */
  lemma {:induction false} CombLinear(c: Vec, d: Vec, a: Byte, rows: seq<Vec>, n: nat)
    requires |c| == |d| == |rows| && IsMatrix(rows, n)
    ensures Comb(Axpy(c, d, a), rows, n) == Axpy(Comb(c, rows, n), Comb(d, rows, n), a)
  {
    if |c| == 0 {
      AddZero(0);
    } else {
      var m := |c| - 1;
      assert Axpy(c, d, a)[..m] == Axpy(c[..m], d[..m], a);
      CombLinear(c[..m], d[..m], a, rows[..m], n);
      AxpyAxpy(Comb(c[..m], rows[..m], n), Comb(d[..m], rows[..m], n), rows[m], a, c[m], d[m]);
    }
  }

  lemma {:induction false} CombZero(rows: seq<Vec>, n: nat)
    requires IsMatrix(rows, n)
    ensures Comb(Zero(|rows|), rows, n) == Zero(n)
  {
    if |rows| > 0 {
      var m := |rows| - 1;
      assert Zero(|rows|)[..m] == Zero(m);
      CombZero(rows[..m], n);
      AxpyZero(Zero(n), rows[m]);
    }
  }

  lemma AxpyZero(v: Vec, w: Vec)
    requires |v| == |w|
    ensures Axpy(v, w, 0) == v
    ensures Axpy(v, Zero(|v|), 1) == v
    ensures Axpy(Zero(|v|), v, 1) == v
    ensures Axpy(v, v, 1) == Zero(|v|)
    ensures forall c: Byte :: Scale(v, c) == Axpy(Zero(|v|), v, c)
  {
    forall i | 0 <= i < |v|
      ensures Add(v[i], 0) == v[i] == Add(0, v[i]) == Mul(1, v[i]) && Add(v[i], v[i]) == 0
    {
      AddZero(v[i]);
      MulOne(v[i]);
    }
    forall c: Byte, i | 0 <= i < |v| {
      AddZero(Mul(c, v[i]));
    }
  }

  /** Combinations of combinations: the coefficients multiply like matrices. */
  lemma {:induction false} CombComb(c: Vec, m: seq<Vec>, rows: seq<Vec>, combined: seq<Vec>, n: nat)
    requires |c| == |m| == |combined| && IsMatrix(m, |rows|) && IsMatrix(rows, n) && IsMatrix(combined, n)
    requires forall i :: 0 <= i < |m| ==> combined[i] == Comb(m[i], rows, n)
    ensures Comb(c, combined, n) == Comb(Comb(c, m, |rows|), rows, n)
  {
    if |c| == 0 {
      CombZero(rows, n);
    } else {
      var k := |c| - 1;
      CombComb(c[..k], m[..k], rows, combined[..k], n);
      CombLinear(Comb(c[..k], m[..k], |rows|), m[k], c[k], rows, n);
    }
  }

  function Unit(n: nat, i: nat): (r: Vec)
    requires i < n
    ensures |r| == n
  {
    seq(n, j => if j == i then 1 else 0)
  }

  lemma {:induction false} CombUnit(rows: seq<Vec>, i: nat, n: nat)
    requires i < |rows| && IsMatrix(rows, n)
    ensures Comb(Unit(|rows|, i), rows, n) == rows[i]
  {
    var k := |rows| - 1;
    if i == k {
      assert Unit(|rows|, i)[..k] == Zero(k);
      CombZero(rows[..k], n);
      AxpyZero(rows[k], rows[k]);
    } else {
      assert Unit(|rows|, i)[..k] == Unit(k, i);
      CombUnit(rows[..k], i, n);
      AxpyZero(rows[i], rows[k]);
    }
  }

  // ---- spans -----------------------------------------------------------------------------------

  ghost predicate InSpan(v: Vec, rows: seq<Vec>) {
    IsMatrix(rows, |v|) && exists c: Vec :: |c| == |rows| && Comb(c, rows, |v|) == v
  }

  lemma SpanIntro(c: Vec, rows: seq<Vec>, n: nat)
    requires |c| == |rows| && IsMatrix(rows, n)
    ensures InSpan(Comb(c, rows, n), rows)
  {
  }

  lemma SpanZero(rows: seq<Vec>, n: nat)
    requires IsMatrix(rows, n)
    ensures InSpan(Zero(n), rows)
  {
    CombZero(rows, n);
  }

  lemma SpanMember(rows: seq<Vec>, i: nat, n: nat)
    requires i < |rows| && IsMatrix(rows, n)
    ensures InSpan(rows[i], rows)
  {
    CombUnit(rows, i, n);
  }

  lemma SpanAxpy(v: Vec, w: Vec, a: Byte, rows: seq<Vec>)
    requires |v| == |w| && InSpan(v, rows) && InSpan(w, rows)
    ensures InSpan(Axpy(v, w, a), rows)
  {
    var c: Vec :| |c| == |rows| && Comb(c, rows, |v|) == v;
    var d: Vec :| |d| == |rows| && Comb(d, rows, |v|) == w;
    CombLinear(c, d, a, rows, |v|);
    SpanIntro(Axpy(c, d, a), rows, |v|);
  }

  lemma SpanScale(v: Vec, a: Byte, rows: seq<Vec>)
    requires InSpan(v, rows)
    ensures InSpan(Scale(v, a), rows)
  {
    SpanZero(rows, |v|);
    SpanAxpy(Zero(|v|), v, a, rows);
    AxpyZero(v, v);
  }

  ghost predicate AllInSpan(vs: seq<Vec>, rows: seq<Vec>) {
    forall i :: 0 <= i < |vs| ==> InSpan(vs[i], rows)
  }

  /** The span of vectors of a span stays inside it. */
  lemma SpanTransitive(v: Vec, vs: seq<Vec>, rows: seq<Vec>)
    requires InSpan(v, vs) && AllInSpan(vs, rows) && IsMatrix(rows, |v|)
    ensures InSpan(v, rows)
  {
    var c: Vec :| |c| == |vs| && Comb(c, vs, |v|) == v;
    var m := Coefficients(vs, rows, |v|);
    CombComb(c, m, rows, vs, |v|);
    SpanIntro(Comb(c, m, |rows|), rows, |v|);
  }

  lemma {:induction false} Coefficients(vs: seq<Vec>, rows: seq<Vec>, n: nat) returns (m: seq<Vec>)
    requires AllInSpan(vs, rows) && IsMatrix(vs, n) && IsMatrix(rows, n)
    ensures |m| == |vs| && IsMatrix(m, |rows|)
    ensures forall i :: 0 <= i < |m| ==> Comb(m[i], rows, n) == vs[i]
  {
    m := [];
    if |vs| > 0 {
      var k := |vs| - 1;
      var before := Coefficients(vs[..k], rows, n);
      assert InSpan(vs[k], rows);
      var c: Vec :| |c| == |rows| && Comb(c, rows, n) == vs[k];
      m := before + [c];
    }
  }

  ghost predicate SameSpan(vs: seq<Vec>, ws: seq<Vec>, n: nat) {
    && IsMatrix(vs, n) && IsMatrix(ws, n)
    && forall v: Vec {:trigger InSpan(v, vs)} {:trigger InSpan(v, ws)} ::
         |v| == n ==> (InSpan(v, vs) <==> InSpan(v, ws))
  }

  lemma SameSpanBy(vs: seq<Vec>, ws: seq<Vec>, n: nat)
    requires IsMatrix(vs, n) && IsMatrix(ws, n) && AllInSpan(vs, ws) && AllInSpan(ws, vs)
    ensures SameSpan(vs, ws, n)
  {
    forall v: Vec | |v| == n
      ensures InSpan(v, vs) <==> InSpan(v, ws)
    {
      if InSpan(v, vs) {
        SpanTransitive(v, vs, ws);
      }
      if InSpan(v, ws) {
        SpanTransitive(v, ws, vs);
      }
    }
  }

  /** Adding a generator. */
  lemma SpanMore(v: Vec, rows: seq<Vec>, extra: Vec)
    requires InSpan(v, rows) && |extra| == |v|
    ensures InSpan(v, rows + [extra])
  {
    var c: Vec :| |c| == |rows| && Comb(c, rows, |v|) == v;
    assert (c + [0])[..|c|] == c && (rows + [extra])[..|rows|] == rows;
    AxpyZero(v, extra);
    SpanIntro(c + [0], rows + [extra], |v|);
  }

  lemma SameSpanTransitive(us: seq<Vec>, vs: seq<Vec>, ws: seq<Vec>, n: nat)
    requires SameSpan(us, vs, n) && SameSpan(vs, ws, n)
    ensures SameSpan(us, ws, n)
  {
  }

  /** Equal spans stay equal when both gain the same generator. */
  lemma SameSpanExtend(vs: seq<Vec>, ws: seq<Vec>, v: Vec, n: nat)
    requires SameSpan(vs, ws, n) && |v| == n
    ensures SameSpan(vs + [v], ws + [v], n)
  {
    ExtendInSpan(vs, ws, v, n);
    ExtendInSpan(ws, vs, v, n);
    SameSpanBy(vs + [v], ws + [v], n);
  }

  lemma ExtendInSpan(vs: seq<Vec>, ws: seq<Vec>, v: Vec, n: nat)
    requires SameSpan(vs, ws, n) && |v| == n
    ensures AllInSpan(vs + [v], ws + [v])
  {
    forall i | 0 <= i < |vs|
      ensures InSpan(vs[i], ws + [v])
    {
      SpanMember(vs, i, n);
      SpanMore(vs[i], ws, v);
    }
    SpanMember(ws + [v], |ws|, n);
  }

  lemma AllInOwnSpan(vs: seq<Vec>, n: nat)
    requires IsMatrix(vs, n)
    ensures AllInSpan(vs, vs)
  {
    forall i | 0 <= i < |vs|
      ensures InSpan(vs[i], vs)
    {
      SpanMember(vs, i, n);
    }
  }

  lemma AllInWiderSpan(vs: seq<Vec>, v: Vec, n: nat)
    requires IsMatrix(vs, n) && |v| == n
    ensures AllInSpan(vs, vs + [v])
  {
    forall i | 0 <= i < |vs|
      ensures InSpan(vs[i], vs + [v])
    {
      SpanMember(vs + [v], i, n);
    }
  }

  lemma AllInSpanAppend(vs: seq<Vec>, v: Vec, rows: seq<Vec>)
    requires AllInSpan(vs, rows) && InSpan(v, rows)
    ensures AllInSpan(vs + [v], rows)
  {
    forall i | 0 <= i < |vs + [v]|
      ensures InSpan((vs + [v])[i], rows)
    {
      if i < |vs| {
        assert InSpan(vs[i], rows);
      }
    }
  }

  /** A generator that is already in the span adds nothing. */
  lemma SameSpanAbsorb(vs: seq<Vec>, v: Vec, n: nat)
    requires IsMatrix(vs, n) && |v| == n && InSpan(v, vs)
    ensures SameSpan(vs + [v], vs, n)
  {
    AllInOwnSpan(vs, n);
    AllInSpanAppend(vs, v, vs);
    AllInWiderSpan(vs, v, n);
    SameSpanBy(vs + [v], vs, n);
  }

  /** Adding multiples of one vector of a span to others keeps them in the span. */
  lemma AllAxpyInSpan(vs: seq<Vec>, w: Vec, q: Vec, sums: seq<Vec>, rows: seq<Vec>, n: nat)
    requires |vs| == |q| == |sums| && IsMatrix(vs, n) && |w| == n
    requires AllInSpan(vs, rows) && InSpan(w, rows)
    requires forall i :: 0 <= i < |vs| ==> sums[i] == Axpy(vs[i], w, q[i])
    ensures AllInSpan(sums, rows)
  {
    forall i | 0 <= i < |vs|
      ensures InSpan(sums[i], rows)
    {
      SpanAxpy(vs[i], w, q[i], rows);
    }
  }

  lemma AxpyTwice(v: Vec, w: Vec, c: Byte)
    requires |v| == |w|
    ensures Axpy(Axpy(v, w, c), w, c) == v
  {
    forall i | 0 <= i < |v|
      ensures Add(Add(v[i], Mul(c, w[i])), Mul(c, w[i])) == v[i]
    {
      XorAssoc(v[i], Mul(c, w[i]), Mul(c, w[i]));
      AddZero(Mul(c, w[i]));
      AddZero(v[i]);
    }
  }

  lemma ScaleBack(v: Vec, a: Byte)
    requires a != 0
    ensures Scale(Scale(v, Inv(a)), a) == v
  {
    MulInv(a);
    forall i | 0 <= i < |v|
      ensures Mul(a, Mul(Inv(a), v[i])) == v[i]
    {
      MulAssoc(a, Inv(a), v[i]);
      MulOne(v[i]);
    }
  }

  // ---- independence ----------------------------------------------------------------------------

  ghost predicate Independent(vs: seq<Vec>, n: nat) {
    && IsMatrix(vs, n)
    && forall c: Vec {:trigger Comb(c, vs, n)} :: |c| == |vs| && Comb(c, vs, n) == Zero(n) ==> c == Zero(|vs|)
  }

  lemma IndependentExtend(vs: seq<Vec>, v: Vec, n: nat)
    requires Independent(vs, n) && |v| == n && !InSpan(v, vs)
    ensures Independent(vs + [v], n)
  {
    var ws := vs + [v];
    forall c: Vec | |c| == |ws| && Comb(c, ws, n) == Zero(n)
      ensures c == Zero(|ws|)
    {
      CombLast(c, vs, v, n);
      OnlyTrivial(vs, v, c[..|vs|], c[|vs|], n);
      ZeroLast(c, |vs|);
    }
  }

  lemma CombLast(c: Vec, vs: seq<Vec>, v: Vec, n: nat)
    requires |c| == |vs| + 1 && IsMatrix(vs, n) && |v| == n
    ensures Comb(c, vs + [v], n) == Axpy(Comb(c[..|vs|], vs, n), v, c[|vs|])
  {
    assert (vs + [v])[..|vs|] == vs;
  }

  lemma ZeroLast(c: Vec, k: nat)
    requires |c| == k + 1 && c[..k] == Zero(k) && c[k] == 0
    ensures c == Zero(k + 1)
  {
    assert c == c[..k] + [c[k]];
  }

  lemma OnlyTrivial(vs: seq<Vec>, v: Vec, c: Vec, a: Byte, n: nat)
    requires Independent(vs, n) && |v| == n && !InSpan(v, vs)
    requires |c| == |vs| && Axpy(Comb(c, vs, n), v, a) == Zero(n)
    ensures c == Zero(|vs|) && a == 0
  {
    var w := Comb(c, vs, n);
    if a != 0 {
      SolveFor(w, v, a);
      SpanIntro(c, vs, n);
      SpanScale(w, Inv(a), vs);
    } else {
      AxpyZero(w, v);
    }
  }

  /** w + a v == 0 with a != 0 makes v a multiple of w. */
  lemma SolveFor(w: Vec, v: Vec, a: Byte)
    requires |w| == |v| && a != 0 && Axpy(w, v, a) == Zero(|w|)
    ensures v == Scale(w, Inv(a))
  {
    MulInv(a);
    forall i | 0 <= i < |w|
      ensures v[i] == Mul(Inv(a), w[i])
    {
      assert Add(w[i], Mul(a, v[i])) == Axpy(w, v, a)[i] == 0;
      XorCancel(w[i], Mul(a, v[i]), 0);
      MulAssoc(Inv(a), a, v[i]);
      MulComm(Inv(a), a);
      MulOne(v[i]);
    }
  }

  /** More than n vectors of length n have a vanishing combination that is not trivial. */
  lemma {:induction false} Kernel(vs: seq<Vec>, n: nat) returns (c: Vec)
    requires |vs| > n && IsMatrix(vs, n)
    ensures |c| == |vs| && c != Zero(|vs|) && Comb(c, vs, n) == Zero(n)
    decreases n
  {
    if n == 0 {
      c := Unit(|vs|, 0);
      assert c[0] == 1;
    } else if j :| 0 <= j < |vs| && vs[j][n - 1] != 0 {
      c := KernelPivot(vs, n, j);
    } else {
      var cut := seq(|vs|, i requires 0 <= i < |vs| => vs[i][..n - 1]);
      c := Kernel(cut, n - 1);
      CombCut(c, vs, cut, n);
    }
  }

  /** Dropping a last column that is zero everywhere. */
  lemma {:induction false} CombCut(c: Vec, vs: seq<Vec>, cut: seq<Vec>, n: nat)
    requires n > 0 && |c| == |vs| == |cut| && IsMatrix(vs, n) && IsMatrix(cut, n - 1)
    requires forall i :: 0 <= i < |vs| ==> vs[i][n - 1] == 0 && vs[i][..n - 1] == cut[i]
    ensures Comb(c, vs, n) == Comb(c, cut, n - 1) + [0]
  {
    if |c| > 0 {
      var k := |c| - 1;
      CombCut(c[..k], vs[..k], cut[..k], n);
      assert vs[k] == cut[k] + [0];
      AddZero(0);
    }
  }

  /** Clearing the last column of the rows with multiples q of a pivot row w. */
  lemma {:induction false} ClearColumn(rows: seq<Vec>, w: Vec, n: nat)
    returns (q: Vec, cleared: seq<Vec>, cut: seq<Vec>)
    requires n > 0 && IsMatrix(rows, n) && |w| == n && w[n - 1] != 0
    ensures |rows| == |q| == |cleared| == |cut| && IsMatrix(cleared, n) && IsMatrix(cut, n - 1)
    ensures forall i :: 0 <= i < |rows| ==> cleared[i] == Axpy(rows[i], w, q[i])
    ensures forall i :: 0 <= i < |rows| ==> cleared[i][n - 1] == 0 && cleared[i][..n - 1] == cut[i]
  {
    q, cleared, cut := [], [], [];
    if |rows| > 0 {
      var k := |rows| - 1;
      var c, row := ClearRow(rows[k], w);
      q, cleared, cut := ClearColumn(rows[..k], w, n);
      q, cleared, cut := q + [c], cleared + [row], cut + [row[..n - 1]];
    }
  }

  /** The pivot row j clears the last column, and is left out of the smaller system. */
  lemma {:induction false} KernelPivot(vs: seq<Vec>, n: nat, j: nat) returns (c: Vec)
    requires |vs| > n > 0 && IsMatrix(vs, n) && j < |vs| && vs[j][n - 1] != 0
    ensures |c| == |vs| && c != Zero(|vs|) && Comb(c, vs, n) == Zero(n)
    decreases n, 0
  {
    var w, rest := vs[j], vs[..j] + vs[j + 1..];
    var q, cleared, cut := ClearColumn(rest, w, n);
    var d := Kernel(cut, n - 1);
    var a := Dot(d, q);
    assert Axpy(Comb(d, rest, n), w, a) == Zero(n) by {
      CombCut(d, cleared, cut, n);
      CombAxpyRows(d, rest, w, q, cleared, n);
    }
    CombInsert(d, rest, j, a, w, n);
    assert rest[..j] + [w] + rest[j..] == vs;
    NonZeroInsert(d, j, a);
    c := d[..j] + [a] + d[j..];
  }

  lemma NonZeroInsert(d: Vec, j: nat, a: Byte)
    requires j <= |d| && d != Zero(|d|)
    ensures d[..j] + [a] + d[j..] != Zero(|d| + 1)
  {
    var c := d[..j] + [a] + d[j..];
    var i :| 0 <= i < |d| && d[i] != 0;
    assert c[if i < j then i else i + 1] == d[i];
  }

  lemma ClearRow(v: Vec, w: Vec) returns (c: Byte, row: Vec)
    requires |v| == |w| > 0 && w[|w| - 1] != 0
    ensures row == Axpy(v, w, c) && row[|w| - 1] == 0
  {
    c := Clears(v[|w| - 1], w[|w| - 1]);
    row := Axpy(v, w, c);
  }

  lemma Clears(x: Byte, p: Byte) returns (c: Byte)
    requires p != 0
    ensures Add(x, Mul(c, p)) == 0
  {
    c := Mul(x, Inv(p));
    MulInv(p);
    MulAssoc(x, Inv(p), p);
    MulComm(Inv(p), p);
    MulOne(x);
    AddZero(x);
  }

  /** Adding multiples of w to every row adds one multiple of w to the combination. */
  lemma {:induction false} CombAxpyRows(d: Vec, rows: seq<Vec>, w: Vec, q: Vec, sums: seq<Vec>, n: nat)
    requires |d| == |rows| == |q| == |sums| && |w| == n && IsMatrix(rows, n) && IsMatrix(sums, n)
    requires forall i :: 0 <= i < |rows| ==> sums[i] == Axpy(rows[i], w, q[i])
    ensures Comb(d, sums, n) == Axpy(Comb(d, rows, n), w, Dot(d, q))
  {
    if |d| == 0 {
      AxpyZero(Zero(n), w);
    } else {
      var k := |d| - 1;
      CombAxpyRows(d[..k], rows[..k], w, q[..k], sums[..k], n);
      AxpyAxpy(Comb(d[..k], rows[..k], n), rows[k], w, d[k], Dot(d[..k], q[..k]), q[k]);
    }
  }

  lemma AxpySwap(v: Vec, x: Vec, a: Byte, y: Vec, b: Byte)
    requires |v| == |x| == |y|
    ensures Axpy(Axpy(v, x, a), y, b) == Axpy(Axpy(v, y, b), x, a)
  {
    forall i | 0 <= i < |v|
      ensures Add(Add(v[i], Mul(a, x[i])), Mul(b, y[i])) == Add(Add(v[i], Mul(b, y[i])), Mul(a, x[i]))
    {
      XorAssoc(v[i], Mul(a, x[i]), Mul(b, y[i]));
      XorAssoc(v[i], Mul(b, y[i]), Mul(a, x[i]));
      XorComm(Mul(a, x[i]), Mul(b, y[i]));
    }
  }

  function WithRow(rows: seq<Vec>, j: nat, w: Vec): seq<Vec>
    requires j <= |rows|
  {
    rows[..j] + [w] + rows[j..]
  }

  function WithCoefficient(d: Vec, j: nat, a: Byte): Vec
    requires j <= |d|
  {
    d[..j] + [a] + d[j..]
  }

  /** Inserting one more term anywhere adds that term. */
  lemma {:induction false} CombInsert(d: Vec, rows: seq<Vec>, j: nat, a: Byte, w: Vec, n: nat)
    requires j <= |d| == |rows| && |w| == n && IsMatrix(rows, n)
    ensures IsMatrix(WithRow(rows, j, w), n)
    ensures Comb(WithCoefficient(d, j, a), WithRow(rows, j, w), n) == Axpy(Comb(d, rows, n), w, a)
  {
    var c, vs := WithCoefficient(d, j, a), WithRow(rows, j, w);
    if j == |d| {
      assert c[..j] == d && vs[..j] == rows;
    } else {
      var k := |d| - 1;
      CombInsert(d[..k], rows[..k], j, a, w, n);
      assert c[..k + 1] == WithCoefficient(d[..k], j, a);
      assert vs[..k + 1] == WithRow(rows[..k], j, w);
      AxpySwap(Comb(d[..k], rows[..k], n), w, a, rows[k], d[k]);
    }
  }

  /** A span of r vectors holds at most r independent ones. */
  lemma IndependentBound(vs: seq<Vec>, rows: seq<Vec>, n: nat)
    requires Independent(vs, n) && IsMatrix(rows, n) && AllInSpan(vs, rows)
    ensures |vs| <= |rows|
  {
    if |vs| > |rows| {
      var m := Coefficients(vs, rows, n);
      var c := Kernel(m, |rows|);
      CombComb(c, m, rows, vs, n);
      CombZero(rows, n);
    }
  }
}
