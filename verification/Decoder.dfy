/** The progressive Gauss-Jordan decoder. */
module Decoder {
  import opened Bits
  import opened Galois
  import opened Linear
  import opened RowOps
  import opened Coder
  import opened Sorting

  // ---- reduced rows ----------------------------------------------------------------------------

  /** Every pivot column is a unit column: 1 in its own row, 0 in every other. */
  ghost predicate Reduced(rows: seq<Vec>, pivots: seq<nat>, k: nat) {
    && |rows| == |pivots| && IsMatrix(rows, k)
    && (forall r :: 0 <= r < |pivots| ==> pivots[r] < k)
    && (forall r, s :: 0 <= r < |rows| && 0 <= s < |rows| ==>
          rows[r][pivots[s]] == if r == s then 1 else 0)
  }

  /** The coefficients a vector must have over reduced rows: its own entries in the pivot columns. */
  function Selected(v: Vec, pivots: seq<nat>): (c: Vec)
    requires forall r :: 0 <= r < |pivots| ==> pivots[r] < |v|
    ensures |c| == |pivots|
  {
    seq(|pivots|, r requires 0 <= r < |pivots| => v[pivots[r]])
  }

  lemma {:induction false} CombAtPivot(c: Vec, rows: seq<Vec>, pivots: seq<nat>, k: nat, m: nat, s: nat)
    requires Reduced(rows, pivots, k) && |c| == |rows| && m <= |rows| && s < |rows|
    ensures Comb(c[..m], rows[..m], k)[pivots[s]] == if s < m then c[s] else 0
  {
    if m > 0 {
      var p := m - 1;
      assert c[..m][..p] == c[..p] && rows[..m][..p] == rows[..p];
      CombAtPivot(c, rows, pivots, k, p, s);
      AddZero(if s < p then c[s] else 0);
      AddZero(c[p]);
      MulOne(c[p]);
    }
  }

  function Residual(v: Vec, rows: seq<Vec>, pivots: seq<nat>, k: nat): (r: Vec)
    requires |v| == k && |rows| == |pivots| && IsMatrix(rows, k)
    requires forall r :: 0 <= r < |pivots| ==> pivots[r] < k
    ensures |r| == k
  {
    Axpy(v, Comb(Selected(v, pivots), rows, k), 1)
  }

  lemma ResidualAtPivot(v: Vec, rows: seq<Vec>, pivots: seq<nat>, k: nat, s: nat)
    requires Reduced(rows, pivots, k) && |v| == k && s < |rows|
    ensures Residual(v, rows, pivots, k)[pivots[s]] == 0
  {
    var c := Selected(v, pivots);
    assert c[..|c|] == c && rows[..|c|] == rows;
    CombAtPivot(c, rows, pivots, k, |c|, s);
    MulOne(c[s]);
    AddZero(c[s]);
  }

  lemma AxpyOneZero(v: Vec, w: Vec)
    requires |v| == |w|
    ensures Axpy(v, w, 1) == Zero(|v|) <==> v == w
  {
    AxpyZero(v, v);
    if Axpy(v, w, 1) == Zero(|v|) {
      forall i | 0 <= i < |v|
        ensures v[i] == w[i]
      {
        assert Add(v[i], Mul(1, w[i])) == Axpy(v, w, 1)[i];
        MulOne(w[i]);
        XorCancel(v[i], w[i], 0);
      }
    }
  }

  /** Over reduced rows, membership in the span is decided by the residual. */
  lemma ResidualDecides(v: Vec, rows: seq<Vec>, pivots: seq<nat>, k: nat)
    requires Reduced(rows, pivots, k) && |v| == k
    ensures InSpan(v, rows) <==> Residual(v, rows, pivots, k) == Zero(k)
  {
    var c := Selected(v, pivots);
    AxpyOneZero(v, Comb(c, rows, k));
    if InSpan(v, rows) {
      var d: Vec :| |d| == |rows| && Comb(d, rows, k) == v;
      forall s | 0 <= s < |rows|
        ensures d[s] == c[s]
      {
        assert d[..|d|] == d && rows[..|d|] == rows;
        CombAtPivot(d, rows, pivots, k, |d|, s);
      }
      assert c == d;
    }
  }

  // ---- pieces as rows --------------------------------------------------------------------------

  function PieceAxpy(p: CodedPiece, q: CodedPiece, c: Byte): CodedPiece
    requires |p.vector| == |q.vector| && |p.data| == |q.data|
  {
    CodedPiece(Axpy(p.vector, q.vector, c), Axpy(p.data, q.data, c))
  }

  function PieceScale(p: CodedPiece, c: Byte): CodedPiece {
    CodedPiece(Scale(p.vector, c), Scale(p.data, c))
  }

  lemma HonestAxpy(p: CodedPiece, q: CodedPiece, c: Byte, sources: seq<Vec>, n: nat)
    requires Honest(p, sources, n) && Honest(q, sources, n)
    ensures Honest(PieceAxpy(p, q, c), sources, n)
  {
    CombLinear(p.vector, q.vector, c, sources, n);
  }

  lemma HonestScale(p: CodedPiece, c: Byte, sources: seq<Vec>, n: nat)
    requires Honest(p, sources, n)
    ensures Honest(PieceScale(p, c), sources, n)
  {
    CombZero(sources, n);
    CombLinear(Zero(|sources|), p.vector, c, sources, n);
    AxpyZero(p.vector, p.vector);
    AxpyZero(p.data, p.data);
  }

  /** Subtract from a piece the combination of the rows that clears every pivot column. */
  function Reduce(piece: CodedPiece, rows: seq<CodedPiece>, pivots: seq<nat>, k: nat, n: nat): CodedPiece
    requires |piece.vector| == k && |piece.data| == n && SameShape(rows, k, n) && |rows| == |pivots|
    requires forall r :: 0 <= r < |pivots| ==> pivots[r] < k
  {
    PieceAxpy(piece, Mix(rows, Selected(piece.vector, pivots), k, n), 1)
  }

  /** The rows after a reduced piece u with u.vector[p] != 0 joins them with pivot column p. */
  function Absorb(rows: seq<CodedPiece>, u: CodedPiece, p: nat): (r: seq<CodedPiece>)
    requires p < |u.vector| && u.vector[p] != 0 && SameShape(rows, |u.vector|, |u.data|)
    ensures |r| == |rows| + 1 && SameShape(r, |u.vector|, |u.data|)
  {
    var w := PieceScale(u, Inv(u.vector[p]));
    seq(|rows|, i requires 0 <= i < |rows| => PieceAxpy(rows[i], w, rows[i].vector[p])) + [w]
  }

  /** What the new row w = u / u[p] looks like in the pivot columns. */
  lemma NewRow(rows: seq<Vec>, pivots: seq<nat>, k: nat, u: Vec, p: nat)
    requires Reduced(rows, pivots, k) && |u| == k && p < k && u[p] != 0
    requires forall s :: 0 <= s < |pivots| ==> u[pivots[s]] == 0
    ensures Scale(u, Inv(u[p]))[p] == 1
    ensures forall s :: 0 <= s < |pivots| ==> Scale(u, Inv(u[p]))[pivots[s]] == 0 && pivots[s] != p
  {
    MulInv(u[p]);
    MulComm(u[p], Inv(u[p]));
  }

  lemma AbsorbReduced(rows: seq<CodedPiece>, pivots: seq<nat>, k: nat, u: CodedPiece, p: nat)
    requires |u.vector| == k && p < k && u.vector[p] != 0 && SameShape(rows, k, |u.data|)
    requires Reduced(Vectors(rows), pivots, k)
    requires forall s :: 0 <= s < |pivots| ==> u.vector[pivots[s]] == 0
    ensures Reduced(Vectors(Absorb(rows, u, p)), pivots + [p], k)
  {
    var w := Scale(u.vector, Inv(u.vector[p]));
    NewRow(Vectors(rows), pivots, k, u.vector, p);
    forall r, s | 0 <= r < |rows| && 0 <= s < |rows|
      ensures Axpy(rows[r].vector, w, rows[r].vector[p])[pivots[s]] == if r == s then 1 else 0
    {
      assert Vectors(rows)[r][pivots[s]] == rows[r].vector[pivots[s]];
      AddZero(rows[r].vector[pivots[s]]);
    }
    forall r | 0 <= r < |rows|
      ensures Axpy(rows[r].vector, w, rows[r].vector[p])[p] == 0
    {
      MulOne(rows[r].vector[p]);
      AddZero(rows[r].vector[p]);
    }
  }

  /** The new rows and the old rows with the offered vector generate each other. Here u is the
      reduced vector, w the new row u / a, and q the multiples of w added to the old rows. */
  lemma AbsorbSpan(rows: seq<Vec>, v: Vec, c: Vec, u: Vec, a: Byte, w: Vec, q: Vec,
                   sums: seq<Vec>, k: nat)
    requires IsMatrix(rows, k) && |v| == k && |c| == |rows| == |q| == |sums| && IsMatrix(sums, k)
    requires u == Axpy(v, Comb(c, rows, k), 1) && a != 0 && w == Scale(u, Inv(a))
    requires forall i :: 0 <= i < |rows| ==> sums[i] == Axpy(rows[i], w, q[i])
    ensures SameSpan(sums + [w], rows + [v], k)
  {
    AbsorbForward(rows, v, c, u, a, w, q, sums, k);
    AbsorbBackward(rows, v, c, u, a, w, q, sums, k);
    SameSpanBy(sums + [w], rows + [v], k);
  }

  lemma AbsorbForward(rows: seq<Vec>, v: Vec, c: Vec, u: Vec, a: Byte, w: Vec, q: Vec,
                      sums: seq<Vec>, k: nat)
    requires IsMatrix(rows, k) && |v| == k && |c| == |rows| == |q| == |sums| && IsMatrix(sums, k)
    requires u == Axpy(v, Comb(c, rows, k), 1) && a != 0 && w == Scale(u, Inv(a))
    requires forall i :: 0 <= i < |rows| ==> sums[i] == Axpy(rows[i], w, q[i])
    ensures AllInSpan(sums + [w], rows + [v])
  {
    var wider := rows + [v];
    assert InSpan(w, wider) by {
      SpanMember(wider, |rows|, k);
      SpanIntro(c, rows, k);
      SpanMore(Comb(c, rows, k), rows, v);
      SpanAxpy(v, Comb(c, rows, k), 1, wider);
      SpanScale(u, Inv(a), wider);
    }
    AllInWiderSpan(rows, v, k);
    AllAxpyInSpan(rows, w, q, sums, wider, k);
    AllInSpanAppend(sums, w, wider);
  }

  lemma AbsorbBackward(rows: seq<Vec>, v: Vec, c: Vec, u: Vec, a: Byte, w: Vec, q: Vec,
                       sums: seq<Vec>, k: nat)
    requires IsMatrix(rows, k) && |v| == k && |c| == |rows| == |q| == |sums| && IsMatrix(sums, k)
    requires u == Axpy(v, Comb(c, rows, k), 1) && a != 0 && w == Scale(u, Inv(a))
    requires forall i :: 0 <= i < |rows| ==> sums[i] == Axpy(rows[i], w, q[i])
    ensures AllInSpan(rows + [v], sums + [w])
  {
    var after := sums + [w];
    SpanMember(after, |sums|, k);
    AllInWiderSpan(sums, w, k);
    forall i | 0 <= i < |rows|
      ensures rows[i] == Axpy(sums[i], w, q[i])
    {
      AxpyTwice(rows[i], w, q[i]);
    }
    AllAxpyInSpan(sums, w, q, rows, after, k);
    assert InSpan(v, after) by {
      SpanScale(w, a, after);
      ScaleBack(u, a);
      SpanIntro(c, rows, k);
      SpanTransitive(Comb(c, rows, k), rows, after);
      SpanAxpy(u, Comb(c, rows, k), 1, after);
      AxpyTwice(v, Comb(c, rows, k), 1);
    }
    AllInSpanAppend(rows, v, after);
  }

  // ---- the decoder's invariant -----------------------------------------------------------------

  /** The decoder's rows and pivots, with the pieces offered so far and the vectors that raised the rank. */
  datatype Progress = Progress(rows: seq<CodedPiece>, pivots: seq<nat>, offered: seq<CodedPiece>,
                               accepted: seq<Vec>, k: nat, n: nat)
  {
    ghost predicate Consistent() {
      && SameShape(rows, k, n) && SameShape(offered, k, n)
      && Reduced(Vectors(rows), pivots, k)
      && SameSpan(Vectors(rows), Vectors(offered), k)
      && Ranked(accepted, Vectors(offered), |rows|, k)
      && Faithful(rows, offered, n)
    }

    predicate WellShaped() {
      && SameShape(rows, k, n) && |rows| == |pivots| && (forall r :: 0 <= r < |pivots| ==> pivots[r] < k)
    }

    function Offer(piece: CodedPiece): Progress {
      this.(offered := offered + [piece])
    }

    /** An independent piece, reduced to u, takes the pivot column p. */
    function Accept(piece: CodedPiece, u: CodedPiece, p: nat): Progress
      requires p < |u.vector| && u.vector[p] != 0 && SameShape(rows, |u.vector|, |u.data|)
    {
      Progress(Absorb(rows, u, p), pivots + [p], offered + [piece], accepted + [piece.vector], k, n)
    }
  }

  /** As many independent vectors among the offered ones as the rank says. */
  ghost predicate Ranked(accepted: seq<Vec>, offered: seq<Vec>, rank: nat, k: nat) {
    && Independent(accepted, k) && |accepted| == rank
    && (forall i :: 0 <= i < |accepted| ==> accepted[i] in offered)
  }

  /** For any sources at all: if the offered pieces told the truth about them, so do the rows. */
  ghost predicate Faithful(rows: seq<CodedPiece>, offered: seq<CodedPiece>, n: nat) {
    forall sources: seq<Vec> :: AllHonest(offered, sources, n) ==> AllHonest(rows, sources, n)
  }

  lemma AcceptedInSpan(accepted: seq<Vec>, offered: seq<Vec>, rows: seq<Vec>, rank: nat, k: nat)
    requires Ranked(accepted, offered, rank, k) && SameSpan(rows, offered, k)
    ensures AllInSpan(accepted, rows)
  {
    AllInOwnSpan(offered, k);
    forall i | 0 <= i < |accepted|
      ensures InSpan(accepted[i], rows)
    {
      var j :| 0 <= j < |offered| && offered[j] == accepted[i];
      assert InSpan(offered[j], offered);
    }
  }

  /** k independent vectors of length k leave nothing outside their span. */
  lemma FullSpan(vs: seq<Vec>, v: Vec, k: nat)
    requires Independent(vs, k) && |vs| >= k && |v| == k
    ensures InSpan(v, vs)
  {
    if !InSpan(v, vs) {
      IndependentExtend(vs, v, k);
      var c := Kernel(vs + [v], k);
    }
  }

  /** The rank is bounded, and reaches k exactly when k independent pieces were offered. */
  lemma RankIsDimension(d: Progress)
    requires d.Consistent()
    ensures |d.rows| <= d.k
    ensures forall vs: seq<Vec> :: Independent(vs, d.k) && AllInSpan(vs, Vectors(d.offered)) ==> |vs| <= |d.rows|
  {
    if |d.rows| > d.k {
      var c := Kernel(d.accepted, d.k);
    }
    forall vs: seq<Vec> | Independent(vs, d.k) && AllInSpan(vs, Vectors(d.offered))
      ensures |vs| <= |d.rows|
    {
      IndependentBound(vs, Vectors(d.rows), d.k);
    }
  }

  /** A complete decoder spans everything. */
  lemma CompleteSpans(d: Progress, v: Vec)
    requires d.Consistent() && |d.rows| == d.k && |v| == d.k
    ensures InSpan(v, Vectors(d.offered)) && InSpan(v, Vectors(d.rows))
  {
    AcceptedInSpan(d.accepted, Vectors(d.offered), Vectors(d.rows), |d.rows|, d.k);
    FullSpan(d.accepted, v, d.k);
    SpanTransitive(v, d.accepted, Vectors(d.rows));
  }

  lemma VectorsAppend(ps: seq<CodedPiece>, p: CodedPiece)
    ensures Vectors(ps + [p]) == Vectors(ps) + [p.vector]
  {
  }

  /** One offer: the rank rises exactly when the vector lies outside the span of the offers so far. */
  ghost predicate Offered(d: Progress, e: Progress, piece: CodedPiece, rose: bool) {
    && e.k == d.k && e.n == d.n && e.offered == d.offered + [piece]
    && |e.rows| == |d.rows| + (if rose then 1 else 0)
    && (rose <==> !InSpan(piece.vector, Vectors(d.offered)))
  }

  /** A dependent piece changes nothing but the list of offers. */
  lemma OfferDependent(d: Progress, piece: CodedPiece)
    requires d.Consistent() && |piece.vector| == d.k && |piece.data| == d.n
    requires InSpan(piece.vector, Vectors(d.rows))
    ensures d.Offer(piece).Consistent() && Offered(d, d.Offer(piece), piece, false)
  {
    var vs, more := Vectors(d.offered), d.offered + [piece];
    SameShapeAppend(d.offered, piece, d.k, d.n);
    VectorsAppend(d.offered, piece);
    assert SameSpan(Vectors(d.rows), Vectors(more), d.k) by {
      SameSpanAbsorb(vs, piece.vector, d.k);
      SameSpanTransitive(Vectors(d.rows), vs, Vectors(more), d.k);
    }
    RankedMore(d.accepted, vs, piece.vector, |d.rows|, d.k);
    FaithfulMore(d.rows, d.offered, piece, d.n);
  }

  lemma OfferToComplete(d: Progress, piece: CodedPiece)
    requires d.Consistent() && |piece.vector| == d.k && |piece.data| == d.n && |d.rows| == d.k
    ensures d.Offer(piece).Consistent() && Offered(d, d.Offer(piece), piece, false)
  {
    CompleteSpans(d, piece.vector);
    OfferDependent(d, piece);
  }

  lemma RankedMore(accepted: seq<Vec>, offered: seq<Vec>, v: Vec, rank: nat, k: nat)
    requires Ranked(accepted, offered, rank, k)
    ensures Ranked(accepted, offered + [v], rank, k)
  {
  }

  lemma FaithfulMore(rows: seq<CodedPiece>, offered: seq<CodedPiece>, piece: CodedPiece, n: nat)
    requires Faithful(rows, offered, n)
    ensures Faithful(rows, offered + [piece], n)
  {
    forall sources: seq<Vec> | AllHonest(offered + [piece], sources, n)
      ensures AllHonest(rows, sources, n)
    {
      HonestPrefix(offered, piece, sources, n);
    }
  }

  lemma HonestPrefix(offered: seq<CodedPiece>, piece: CodedPiece, sources: seq<Vec>, n: nat)
    requires AllHonest(offered + [piece], sources, n)
    ensures AllHonest(offered, sources, n) && Honest(piece, sources, n)
  {
    var more := offered + [piece];
    forall i | 0 <= i < |offered|
      ensures Honest(offered[i], sources, n)
    {
      assert more[i] == offered[i];
    }
    assert more[|offered|] == piece;
  }

  lemma AbsorbHonest(rows: seq<CodedPiece>, pivots: seq<nat>, piece: CodedPiece, p: nat,
                     k: nat, n: nat,
                     sources: seq<Vec>)
    requires SameShape(rows, k, n) && |piece.vector| == k && |piece.data| == n && |rows| == |pivots|
    requires forall r :: 0 <= r < |pivots| ==> pivots[r] < k
    requires AllHonest(rows, sources, n) && Honest(piece, sources, n)
    requires p < k && Reduce(piece, rows, pivots, k, n).vector[p] != 0
    ensures AllHonest(Absorb(rows, Reduce(piece, rows, pivots, k, n), p), sources, n)
  {
    var u := Reduce(piece, rows, pivots, k, n);
    var mixed := Mix(rows, Selected(piece.vector, pivots), k, n);
    var w := PieceScale(u, Inv(u.vector[p]));
    assert Honest(w, sources, n) by {
      MixHonest(rows, Selected(piece.vector, pivots), sources, n);
      HonestAxpy(piece, mixed, 1, sources, n);
      HonestScale(u, Inv(u.vector[p]), sources, n);
    }
    forall i | 0 <= i < |rows|
      ensures Honest(PieceAxpy(rows[i], w, rows[i].vector[p]), sources, n)
    {
      HonestAxpy(rows[i], w, rows[i].vector[p], sources, n);
    }
  }

  /** What the decoder knows of a piece it is about to accept: u is the reduced piece. */
  ghost predicate Fits(rows: seq<CodedPiece>, pivots: seq<nat>, piece: CodedPiece, u: CodedPiece, p: nat,
                       k: nat, n: nat)
  {
    && SameShape(rows, k, n) && |piece.vector| == k && |piece.data| == n
    && |rows| == |pivots| && (forall r :: 0 <= r < |pivots| ==> pivots[r] < k)
    && u == Reduce(piece, rows, pivots, k, n) && p < k && u.vector[p] != 0
  }

  lemma AcceptFaithful(rows: seq<CodedPiece>, pivots: seq<nat>, piece: CodedPiece, u: CodedPiece, p: nat,
                       k: nat, n: nat, offered: seq<CodedPiece>)
    requires Fits(rows, pivots, piece, u, p, k, n) && Faithful(rows, offered, n)
    ensures Faithful(Absorb(rows, u, p), offered + [piece], n)
  {
    var after := Absorb(rows, u, p);
    forall sources: seq<Vec> | AllHonest(offered + [piece], sources, n)
      ensures AllHonest(after, sources, n)
    {
      HonestPrefix(offered, piece, sources, n);
      AbsorbHonest(rows, pivots, piece, p, k, n, sources);
    }
  }

  lemma AbsorbKeepsSpan(rows: seq<CodedPiece>, v: Vec, c: Vec, u: CodedPiece, p: nat, k: nat)
    requires SameShape(rows, k, |u.data|) && |v| == k && |c| == |rows| && |u.vector| == k
    requires u.vector == Axpy(v, Comb(c, Vectors(rows), k), 1) && p < k && u.vector[p] != 0
    ensures SameSpan(Vectors(Absorb(rows, u, p)), Vectors(rows) + [v], k)
  {
    var after, w := Vectors(Absorb(rows, u, p)), Scale(u.vector, Inv(u.vector[p]));
    var q: Vec := seq(|rows|, i requires 0 <= i < |rows| && |rows[i].vector| == k => rows[i].vector[p]);
    var sums := after[..|rows|];
    assert after == sums + [w];
    AbsorbSpan(Vectors(rows), v, c, u.vector, u.vector[p], w, q, sums, k);
  }

  lemma AcceptSpan(rows: seq<CodedPiece>, pivots: seq<nat>, piece: CodedPiece, u: CodedPiece, p: nat,
                   k: nat, n: nat, offered: seq<CodedPiece>)
    requires Fits(rows, pivots, piece, u, p, k, n) && SameSpan(Vectors(rows), Vectors(offered), k)
    ensures SameSpan(Vectors(Absorb(rows, u, p)), Vectors(offered + [piece]), k)
  {
    var vs, v := Vectors(rows), piece.vector;
    AbsorbKeepsSpan(rows, v, Selected(v, pivots), u, p, k);
    SameSpanExtend(vs, Vectors(offered), v, k);
    VectorsAppend(offered, piece);
    SameSpanTransitive(Vectors(Absorb(rows, u, p)), vs + [v], Vectors(offered) + [v], k);
  }

  lemma AcceptReduced(rows: seq<CodedPiece>, pivots: seq<nat>, piece: CodedPiece, u: CodedPiece, p: nat,
                      k: nat, n: nat)
    requires Fits(rows, pivots, piece, u, p, k, n) && Reduced(Vectors(rows), pivots, k)
    ensures !InSpan(piece.vector, Vectors(rows))
    ensures Reduced(Vectors(Absorb(rows, u, p)), pivots + [p], k)
  {
    ResidualDecides(piece.vector, Vectors(rows), pivots, k);
    forall s | 0 <= s < |pivots|
      ensures u.vector[pivots[s]] == 0
    {
      ResidualAtPivot(piece.vector, Vectors(rows), pivots, k, s);
    }
    AbsorbReduced(rows, pivots, k, u, p);
  }

  lemma AcceptRanked(accepted: seq<Vec>, offered: seq<CodedPiece>, rows: seq<Vec>, piece: CodedPiece, rank: nat, k: nat)
    requires Ranked(accepted, Vectors(offered), rank, k) && SameSpan(rows, Vectors(offered), k)
    requires |piece.vector| == k && !InSpan(piece.vector, rows)
    ensures Ranked(accepted + [piece.vector], Vectors(offered + [piece]), rank + 1, k)
  {
    AcceptedInSpan(accepted, Vectors(offered), rows, rank, k);
    if InSpan(piece.vector, accepted) {
      SpanTransitive(piece.vector, accepted, rows);
    }
    IndependentExtend(accepted, piece.vector, k);
    VectorsAppend(offered, piece);
  }

  /** An independent piece joins the rows, and everything the invariant says holds of the new ones. */
  lemma AcceptIndependent(d: Progress, piece: CodedPiece, u: CodedPiece, p: nat)
    requires d.Consistent() && Fits(d.rows, d.pivots, piece, u, p, d.k, d.n)
    ensures d.Accept(piece, u, p).Consistent() && Offered(d, d.Accept(piece, u, p), piece, true)
  {
    AcceptReduced(d.rows, d.pivots, piece, u, p, d.k, d.n);
    AcceptSpan(d.rows, d.pivots, piece, u, p, d.k, d.n, d.offered);
    AcceptFaithful(d.rows, d.pivots, piece, u, p, d.k, d.n, d.offered);
    AcceptRanked(d.accepted, d.offered, Vectors(d.rows), piece, |d.rows|, d.k);
    SameShapeAppend(d.offered, piece, d.k, d.n);
  }

  lemma SameShapeAppend(ps: seq<CodedPiece>, p: CodedPiece, k: nat, n: nat)
    requires SameShape(ps, k, n) && |p.vector| == k && |p.data| == n
    ensures SameShape(ps + [p], k, n)
  {
  }

  // ---- whole runs ------------------------------------------------------------------------------

  /** The first non-zero column, or the length if there is none. */
  function FirstNonZero(v: Vec, i: nat): (p: nat)
    requires i <= |v|
    ensures i <= p <= |v| && (p < |v| ==> v[p] != 0)
    ensures forall j :: i <= j < p ==> v[j] == 0
    decreases |v| - i
  {
    if i == |v| || v[i] != 0 then i else FirstNonZero(v, i + 1)
  }

  /** The state after one more piece of the right shape. */
  function Feed(d: Progress, piece: CodedPiece): (e: Progress)
    requires d.WellShaped() && |piece.vector| == d.k && |piece.data| == d.n
    ensures e.WellShaped() && e.k == d.k && e.n == d.n && e.offered == d.offered + [piece]
  {
    if |d.rows| == d.k then d.Offer(piece)
    else
      var u := Reduce(piece, d.rows, d.pivots, d.k, d.n);
      var p := FirstNonZero(u.vector, 0);
      if p == d.k then d.Offer(piece) else d.Accept(piece, u, p)
  }

  /** The state after a whole sequence of pieces. */
  function Run(pieces: seq<CodedPiece>, k: nat, n: nat): (d: Progress)
    requires SameShape(pieces, k, n)
    ensures d.WellShaped() && d.k == k && d.n == n && d.offered == pieces
  {
    if |pieces| == 0 then Progress([], [], [], [], k, n)
    else
      var m := |pieces| - 1;
      Feed(Run(pieces[..m], k, n), pieces[m])
  }

  lemma FeedSound(d: Progress, piece: CodedPiece)
    requires d.Consistent() && |piece.vector| == d.k && |piece.data| == d.n
    ensures d.WellShaped() && Feed(d, piece).Consistent()
    ensures Offered(d, Feed(d, piece), piece, |Feed(d, piece).rows| > |d.rows|)
  {
    if |d.rows| == d.k {
      OfferToComplete(d, piece);
    } else {
      FeedSoundOpen(d, piece);
    }
  }

  /** The same, while rows are still missing. */
  lemma FeedSoundOpen(d: Progress, piece: CodedPiece)
    requires d.Consistent() && |piece.vector| == d.k && |piece.data| == d.n && |d.rows| != d.k
    ensures d.WellShaped() && Feed(d, piece).Consistent()
    ensures Offered(d, Feed(d, piece), piece, |Feed(d, piece).rows| > |d.rows|)
  {
    var u := Reduce(piece, d.rows, d.pivots, d.k, d.n);
    var p := FirstNonZero(u.vector, 0);
    if p == d.k {
      ResidualDecides(piece.vector, Vectors(d.rows), d.pivots, d.k);
      assert u.vector == Zero(d.k);
      OfferDependent(d, piece);
    } else {
      AcceptIndependent(d, piece, u, p);
    }
  }

  /** Every state a decoder reaches, whatever it was fed and in whatever order. */
  lemma {:induction false} RunSound(pieces: seq<CodedPiece>, k: nat, n: nat)
    requires SameShape(pieces, k, n)
    ensures Run(pieces, k, n).Consistent()
  {
    if |pieces| > 0 {
      var m := |pieces| - 1;
      RunSound(pieces[..m], k, n);
      FeedSound(Run(pieces[..m], k, n), pieces[m]);
    }
  }

  // ---- the loops -------------------------------------------------------------------------------

  lemma AxpyNest(v: Vec, x: Vec, r: Vec, c: Byte)
    requires |v| == |x| == |r|
    ensures Axpy(Axpy(v, x, 1), r, c) == Axpy(v, Axpy(x, r, c), 1)
  {
    forall i | 0 <= i < |v|
      ensures Add(Add(v[i], Mul(1, x[i])), Mul(c, r[i])) == Add(v[i], Mul(1, Add(x[i], Mul(c, r[i]))))
    {
      MulOne(x[i]);
      MulOne(Add(x[i], Mul(c, r[i])));
      XorAssoc(v[i], x[i], Mul(c, r[i]));
    }
  }

  /** Over reduced rows the entry read at each pivot is the original one: earlier rows do not touch it. */
  lemma PivotUntouched(v: Vec, rows: seq<Vec>, pivots: seq<nat>, k: nat, r: nat)
    requires Reduced(rows, pivots, k) && |v| == k && r < |rows|
    ensures Axpy(v, Comb(Selected(v, pivots)[..r], rows[..r], k), 1)[pivots[r]] == v[pivots[r]]
  {
    CombAtPivot(Selected(v, pivots), rows, pivots, k, r, r);
    MulOne(0);
    AddZero(v[pivots[r]]);
  }

  lemma EliminateStep(v: Vec, c: Vec, rows: seq<Vec>, r: nat, k: nat)
    requires |c| == |rows| && IsMatrix(rows, k) && |v| == k && r < |rows|
    ensures Axpy(Axpy(v, Comb(c[..r], rows[..r], k), 1), rows[r], c[r]) == Axpy(v, Comb(c[..r + 1], rows[..r + 1], k), 1)
  {
    AxpyNest(v, Comb(c[..r], rows[..r], k), rows[r], c[r]);
    assert c[..r + 1][..r] == c[..r] && rows[..r + 1][..r] == rows[..r];
  }

  /** Reduce a copy of the piece by the existing pivots, row after row, in place. */
  method Eliminate(piece: CodedPiece, rows: seq<CodedPiece>, pivots: seq<nat>, k: nat, n: nat)
    returns (vector: array<Byte>, data: array<Byte>)
    requires SameShape(rows, k, n) && Reduced(Vectors(rows), pivots, k)
    requires |piece.vector| == k && |piece.data| == n
    ensures fresh(vector) && fresh(data) && vector != data
    ensures CodedPiece(vector[..], data[..]) == Reduce(piece, rows, pivots, k, n)
  {
    ghost var sel, vs, ds := Selected(piece.vector, pivots), Vectors(rows), Datas(rows);
    vector := new Byte[k](i requires 0 <= i < k => piece.vector[i]);
    data := new Byte[n](i requires 0 <= i < n => piece.data[i]);
    assert vector[..] == piece.vector && data[..] == piece.data;
    AxpyZero(piece.vector, piece.vector);
    AxpyZero(piece.data, piece.data);
    for r := 0 to |rows|
      invariant vector[..] == Axpy(piece.vector, Comb(sel[..r], vs[..r], k), 1)
      invariant data[..] == Axpy(piece.data, Comb(sel[..r], ds[..r], n), 1)
    {
      PivotUntouched(piece.vector, vs, pivots, k, r);
      EliminateStep(piece.vector, sel, vs, r, k);
      EliminateStep(piece.data, sel, ds, r, n);
      SubtractRow(vector, data, rows[r], pivots[r]);
    }
    assert sel[..|rows|] == sel && vs[..|rows|] == vs && ds[..|rows|] == ds;
  }

  method SubtractRow(vector: array<Byte>, data: array<Byte>, row: CodedPiece, pivot: nat)
    requires vector != data && vector.Length == |row.vector| && data.Length == |row.data| && pivot < vector.Length
    modifies vector, data
    ensures vector[..] == Axpy(old(vector[..]), row.vector, old(vector[pivot]))
    ensures data[..] == Axpy(old(data[..]), row.data, old(vector[pivot]))
  {
    var c := vector[pivot];
    if c != 0 {
      AxpyInPlace(vector, row.vector, c);
      AxpyInPlace(data, row.data, c);
    } else {
      AxpyZero(vector[..], row.vector);
      AxpyZero(data[..], row.data);
    }
  }

  method FindNonZero(v: Vec) returns (p: nat)
    ensures p == FirstNonZero(v, 0)
  {
    p := 0;
    while p < |v| && v[p] == 0
      invariant p <= |v| && FirstNonZero(v, 0) == FirstNonZero(v, p)
    {
      p := p + 1;
    }
  }

  method AxpyPiece(p: CodedPiece, q: CodedPiece, c: Byte) returns (r: CodedPiece)
    requires |p.vector| == |q.vector| && |p.data| == |q.data|
    ensures r == PieceAxpy(p, q, c)
  {
    var vector := new Byte[|p.vector|](i requires 0 <= i < |p.vector| => p.vector[i]);
    var data := new Byte[|p.data|](i requires 0 <= i < |p.data| => p.data[i]);
    assert vector[..] == p.vector && data[..] == p.data;
    AxpyInPlace(vector, q.vector, c);
    AxpyInPlace(data, q.data, c);
    r := CodedPiece(vector[..], data[..]);
  }


  lemma RunReduced(pieces: seq<CodedPiece>, k: nat, n: nat)
    requires SameShape(pieces, k, n)
    ensures Reduced(Vectors(Run(pieces, k, n).rows), Run(pieces, k, n).pivots, k)
  {
    RunSound(pieces, k, n);
  }

  /** The rank rises exactly when the offered vector lies outside the span of the earlier ones. */
  lemma RankRises(pieces: seq<CodedPiece>, piece: CodedPiece, k: nat, n: nat)
    requires SameShape(pieces, k, n) && |piece.vector| == k && |piece.data| == n
    ensures SameShape(pieces + [piece], k, n)
    ensures Run(pieces + [piece], k, n) == Feed(Run(pieces, k, n), piece)
    ensures |Run(pieces + [piece], k, n).rows|
            == |Run(pieces, k, n).rows| + if InSpan(piece.vector, Vectors(pieces)) then 0 else 1
  {
    SameShapeAppend(pieces, piece, k, n);
    assert (pieces + [piece])[..|pieces|] == pieces;
    RunSound(pieces, k, n);
    FeedSound(Run(pieces, k, n), piece);
  }

  /** k vectors of length k, linearly independent and all among the offered ones. */
  ghost predicate IsBasisAmong(vs: seq<Vec>, offered: seq<Vec>, k: nat) {
    |vs| == k && Independent(vs, k) && forall i :: 0 <= i < k ==> vs[i] in offered
  }

  /** The decoder is complete exactly when k linearly independent pieces are among those offered. */
  lemma CompleteIff(pieces: seq<CodedPiece>, k: nat, n: nat)
    requires SameShape(pieces, k, n)
    ensures |Run(pieces, k, n).rows| == k <==> exists vs: seq<Vec> :: IsBasisAmong(vs, Vectors(pieces), k)
  {
    var d := Run(pieces, k, n);
    assert |d.rows| <= k && (|d.rows| == k ==> IsBasisAmong(d.accepted, Vectors(pieces), k)) by {
      RunSound(pieces, k, n);
      RankIsDimension(d);
    }
    if vs: seq<Vec> :| IsBasisAmong(vs, Vectors(pieces), k) {
      BasisCompletes(pieces, k, n, vs);
    }
  }

  lemma BasisCompletes(pieces: seq<CodedPiece>, k: nat, n: nat, vs: seq<Vec>)
    requires SameShape(pieces, k, n) && IsBasisAmong(vs, Vectors(pieces), k)
    ensures |Run(pieces, k, n).rows| >= k
  {
    RunSound(pieces, k, n);
    AmongInSpan(vs, Vectors(pieces), k);
    RankIsDimension(Run(pieces, k, n));
  }

  lemma AmongInSpan(vs: seq<Vec>, ws: seq<Vec>, k: nat)
    requires IsMatrix(ws, k) && forall i :: 0 <= i < |vs| ==> vs[i] in ws
    ensures AllInSpan(vs, ws)
  {
    AllInOwnSpan(ws, k);
    forall i | 0 <= i < |vs|
      ensures InSpan(vs[i], ws)
    {
      var j :| 0 <= j < |ws| && ws[j] == vs[i];
      assert InSpan(ws[j], ws);
    }
  }

  // ---- reading the sources off -----------------------------------------------------------------

  type Keyed = (nat, Vec)

  function ByPivot(): (Keyed, Keyed) -> bool {
    (a: Keyed, b: Keyed) => a.0 <= b.0
  }

  function Pairs(rows: seq<CodedPiece>, pivots: seq<nat>): (s: seq<Keyed>)
    requires |rows| == |pivots|
    ensures |s| == |rows|
  {
    seq(|rows|, r requires 0 <= r < |rows| => (pivots[r], rows[r].data))
  }

  /** The data of the rows, in the order of their pivots. */
  function Ordered(rows: seq<CodedPiece>, pivots: seq<nat>): (s: seq<Vec>)
    requires |rows| == |pivots|
  {
    var sorted := Sort(Pairs(rows, pivots), ByPivot());
    seq(|sorted|, i requires 0 <= i < |sorted| => sorted[i].1)
  }

  function Pivot(): Keyed -> nat {
    (x: Keyed) => x.0
  }

  ghost predicate DistinctKeys(s: seq<Keyed>) {
    Distinct(s, Pivot())
  }

  lemma {:induction false} KeysAtLeast(s: seq<Keyed>, i: nat)
    requires Sorted(s, ByPivot()) && DistinctKeys(s) && i < |s|
    ensures s[i].0 >= i
  {
    if i > 0 {
      KeysAtLeast(s, i - 1);
      assert ByPivot()(s[i - 1], s[i]) && Pivot()(s[i - 1]) != Pivot()(s[i]);
    }
  }

  lemma {:induction false} KeysAtMost(s: seq<Keyed>, i: nat)
    requires Sorted(s, ByPivot()) && DistinctKeys(s) && i < |s|
    requires forall j :: 0 <= j < |s| ==> s[j].0 < |s|
    ensures s[i].0 <= i
    decreases |s| - i
  {
    if i + 1 < |s| {
      KeysAtMost(s, i + 1);
      assert ByPivot()(s[i], s[i + 1]) && Pivot()(s[i]) != Pivot()(s[i + 1]);
    }
  }

  /** Two pivots in different rows are different columns. */
  lemma PivotsDistinct(rows: seq<Vec>, pivots: seq<nat>, k: nat, r: nat, s: nat)
    requires Reduced(rows, pivots, k) && r < |rows| && s < |rows| && r != s
    ensures pivots[r] != pivots[s]
  {
    assert rows[r][pivots[r]] == 1 && rows[r][pivots[s]] == 0;
  }

  /** In a complete decoder every column is some row's pivot, and sorting finds that row's data. */
  lemma SortedAt(rows: seq<CodedPiece>, pivots: seq<nat>, k: nat, i: nat) returns (r: nat)
    requires Reduced(Vectors(rows), pivots, k) && |rows| == k && i < k
    ensures r < k && pivots[r] == i
    ensures |Ordered(rows, pivots)| == k && Ordered(rows, pivots)[i] == rows[r].data
  {
    var pairs := Pairs(rows, pivots);
    var sorted := Sort(pairs, ByPivot());
    SortCorrect(pairs, ByPivot());
    forall j, m | 0 <= j < m < |pairs|
      ensures Pivot()(pairs[j]) != Pivot()(pairs[m])
    {
      PivotsDistinct(Vectors(rows), pivots, k, j, m);
    }
    SortKeepsDistinct(pairs, Pivot(), ByPivot());
    forall j | 0 <= j < |sorted|
      ensures sorted[j].0 < |sorted|
    {
      assert sorted[j] in pairs;
    }
    KeysAtLeast(sorted, i);
    KeysAtMost(sorted, i);
    assert sorted[i] in pairs;
    r :| 0 <= r < |pairs| && pairs[r] == sorted[i];
  }

  lemma RowIsUnit(rows: seq<CodedPiece>, pivots: seq<nat>, k: nat, r: nat)
    requires Reduced(Vectors(rows), pivots, k) && |rows| == k && r < k
    ensures rows[r].vector == Unit(k, pivots[r])
  {
    assert |Vectors(rows)[r]| == k;
    forall j | 0 <= j < k
      ensures rows[r].vector[j] == Unit(k, pivots[r])[j]
    {
      var s := SortedAt(rows, pivots, k, j);
      assert Vectors(rows)[r][pivots[s]] == rows[r].vector[j];
      if r != s {
        PivotsDistinct(Vectors(rows), pivots, k, r, s);
      }
    }
  }

  lemma OrderedAt(rows: seq<CodedPiece>, pivots: seq<nat>, k: nat, n: nat, sources: seq<Vec>, i: nat)
    requires Reduced(Vectors(rows), pivots, k) && |rows| == k && i < k
    requires |sources| == k && IsMatrix(sources, n) && AllHonest(rows, sources, n)
    ensures |Ordered(rows, pivots)| == k && Ordered(rows, pivots)[i] == sources[i]
  {
    var r := SortedAt(rows, pivots, k, i);
    RowIsUnit(rows, pivots, k, r);
    assert Honest(rows[r], sources, n);
    CombUnit(sources, i, n);
  }

  lemma OrderedExact(rows: seq<CodedPiece>, pivots: seq<nat>, k: nat, n: nat, sources: seq<Vec>)
    requires Reduced(Vectors(rows), pivots, k) && |rows| == k
    requires |sources| == k && IsMatrix(sources, n) && AllHonest(rows, sources, n)
    ensures Ordered(rows, pivots) == sources
  {
    if k > 0 {
      OrderedAt(rows, pivots, k, n, sources, 0);
    }
    forall i | 0 <= i < k
      ensures |Ordered(rows, pivots)| == k && Ordered(rows, pivots)[i] == sources[i]
    {
      OrderedAt(rows, pivots, k, n, sources, i);
    }
  }

  /** Decoding is exact: whatever honest pieces came in, in whatever order, with whatever repetition,
      a complete decoder returns the sources they were made from, in order. */
  lemma DecodeExact(pieces: seq<CodedPiece>, k: nat, n: nat, sources: seq<Vec>)
    requires SameShape(pieces, k, n) && |Run(pieces, k, n).rows| == k
    requires |sources| == k && IsMatrix(sources, n) && AllHonest(pieces, sources, n)
    ensures Ordered(Run(pieces, k, n).rows, Run(pieces, k, n).pivots) == sources
  {
    RunReduced(pieces, k, n);
    RowsHonest(pieces, k, n, sources);
    OrderedExact(Run(pieces, k, n).rows, Run(pieces, k, n).pivots, k, n, sources);
  }

  lemma RowsHonest(pieces: seq<CodedPiece>, k: nat, n: nat, sources: seq<Vec>)
    requires SameShape(pieces, k, n) && AllHonest(pieces, sources, n)
    ensures AllHonest(Run(pieces, k, n).rows, sources, n)
  {
    RunSound(pieces, k, n);
  }

  /** End to end: pieces encoded, recoded and recoded again, to any depth, decode to the sources. */
  lemma EndToEnd(origins: seq<Origin>, sources: seq<Vec>, n: nat)
    requires IsMatrix(sources, n) && forall i :: 0 <= i < |origins| ==> Legal(origins[i], |sources|)
    requires |Run(MadeAll(origins, sources, n), |sources|, n).rows| == |sources|
    ensures var d := Run(MadeAll(origins, sources, n), |sources|, n);
            Ordered(d.rows, d.pivots) == sources
  {
    MadeAllHonest(origins, sources, n);
    DecodeExact(MadeAll(origins, sources, n), |sources|, n, sources);
  }

  /** As many honest pieces as sources, with independent vectors, are enough. */
  lemma IndependentDecodes(pieces: seq<CodedPiece>, sources: seq<Vec>, n: nat)
    requires |pieces| == |sources| && IsMatrix(sources, n) && AllHonest(pieces, sources, n)
    requires Independent(Vectors(pieces), |sources|)
    ensures SameShape(pieces, |sources|, n) && |Run(pieces, |sources|, n).rows| == |sources|
    ensures Ordered(Run(pieces, |sources|, n).rows, Run(pieces, |sources|, n).pivots) == sources
  {
    assert IsBasisAmong(Vectors(pieces), Vectors(pieces), |sources|);
    CompleteIff(pieces, |sources|, n);
    DecodeExact(pieces, |sources|, n, sources);
  }

  /** Feed pieces to a decoder one after another. */
  method FeedAll(d: Decoder, pieces: seq<CodedPiece>)
    requires d.Valid() && d.offered == [] && SameShape(pieces, d.k, d.pieceLen)
    modifies d
    ensures d.Valid() && d.offered == pieces
  {
    for i := 0 to |pieces|
      invariant d.Valid() && d.offered == pieces[..i]
    {
      var added := d.AddPiece(pieces[i]);
      assert pieces[..i + 1] == pieces[..i] + [pieces[i]];
    }
    assert pieces[..|pieces|] == pieces;
  }

  ghost predicate ChosenEach(draws: seq<seq<Vec>>, vs: seq<Vec>) {
    |vs| == |draws| && forall i :: 0 <= i < |draws| ==> Chosen(draws[i], vs[i])
  }

  lemma ChosenEachUnique(draws: seq<seq<Vec>>, vs: seq<Vec>, ws: seq<Vec>)
    requires ChosenEach(draws, vs) && ChosenEach(draws, ws)
    ensures vs == ws && forall i :: 0 <= i < |draws| ==> AnyUseful(draws[i])
  {
    forall i | 0 <= i < |draws|
      ensures vs[i] == ws[i] && AnyUseful(draws[i])
    {
      ChosenUnique(draws[i], vs[i], ws[i]);
    }
  }

  /** Encode from as many streams of draws as there are sources, feed the pieces to a fresh decoder, decode: if
      the first useful draws are independent, out come the sources. */
  method RoundTrip(sources: seq<Vec>, draws: seq<seq<Vec>>, ghost chosen: seq<Vec>) returns (r: Result<seq<Vec>>)
    requires IsSourceSet(sources) && |draws| == |sources| && ChosenEach(draws, chosen)
    requires forall i :: 0 <= i < |draws| ==> IsMatrix(draws[i], |sources|)
    requires Independent(chosen, |sources|)
    ensures r == Ok(sources)
  {
    ChosenEachUnique(draws, chosen, chosen);
    var encoded := EncodeMany(sources, draws);
    var pieces := encoded.value;
    assert ChosenEach(draws, Vectors(pieces));
    ChosenEachUnique(draws, Vectors(pieces), chosen);
    IndependentDecodes(pieces, sources, |sources[0]|);
    var d := new Decoder(|sources|, |sources[0]|);
    FeedAll(d, pieces);
    r := d.Decode();
  }

  class Decoder {
    const k: nat
    const pieceLen: nat
    var rows: seq<CodedPiece>
    var pivots: seq<nat>
    ghost var offered: seq<CodedPiece>

    /** The state is the one the offered pieces lead to. */
    ghost predicate Valid()
      reads this
    {
      && SameShape(offered, k, pieceLen)
      && rows == Run(offered, k, pieceLen).rows && pivots == Run(offered, k, pieceLen).pivots
    }

    constructor (k: nat, pieceLen: nat)
      ensures Valid() && this.k == k && this.pieceLen == pieceLen && offered == []
    {
      this.k := k;
      this.pieceLen := pieceLen;
      rows, pivots, offered := [], [], [];
    }

    /** Feed one piece. The rank rises exactly when its vector is outside the span of the earlier offers. */
    method AddPiece(piece: CodedPiece) returns (r: Result<bool>)
      requires Valid()
      modifies this
      ensures Valid()
      ensures |piece.vector| != k || |piece.data| != pieceLen ==>
                r == Err(Shape(k, pieceLen)) && rows == old(rows) && pivots == old(pivots) && offered == old(offered)
      ensures |piece.vector| == k && |piece.data| == pieceLen ==>
                && offered == old(offered) + [piece]
                && r == Ok(!InSpan(piece.vector, Vectors(old(offered))))
                && |rows| == |old(rows)| + if InSpan(piece.vector, Vectors(old(offered))) then 0 else 1
    {
      if |piece.vector| != k || |piece.data| != pieceLen {
        return Err(Shape(k, pieceLen));
      }
      RankRises(offered, piece, k, pieceLen);
      if |rows| == k {
        offered := offered + [piece];
        return Ok(false);
      }
      RunReduced(offered, k, pieceLen);
      var vector, data := Eliminate(piece, rows, pivots, k, pieceLen);
      var p := FindNonZero(vector[..]);
      if p == k {
        offered := offered + [piece];
        return Ok(false);
      }
      Join(vector, data, p);
      offered := offered + [piece];
      return Ok(true);
    }

    /** Normalise the reduced piece to pivot 1, clear its column from the other rows, and push it. */
    method Join(vector: array<Byte>, data: array<Byte>, p: nat)
      requires vector != data && SameShape(rows, vector.Length, data.Length)
      requires p < vector.Length && vector[p] != 0
      modifies this`rows, this`pivots, vector, data
      ensures rows == Absorb(old(rows), old(CodedPiece(vector[..], data[..])), p)
      ensures pivots == old(pivots) + [p]
    {
      ghost var u := CodedPiece(vector[..], data[..]);
      ghost var before := rows;
      var inv := Inv(vector[p]);
      ScaleInPlace(vector, inv);
      ScaleInPlace(data, inv);
      var w := CodedPiece(vector[..], data[..]);
      ClearFromRows(w, p);
      rows := rows + [w];
      pivots := pivots + [p];
      assert rows == Absorb(before, u, p);
    }

    /** Clear the new pivot column from every row. */
    method ClearFromRows(w: CodedPiece, p: nat)
      requires SameShape(rows, |w.vector|, |w.data|) && p < |w.vector|
      modifies this`rows
      ensures |rows| == |old(rows)|
      ensures forall i :: 0 <= i < |rows| ==> rows[i] == PieceAxpy(old(rows)[i], w, old(rows)[i].vector[p])
    {
      ghost var before := rows;
      for r := 0 to |rows|
        invariant |rows| == |before|
        invariant forall i :: 0 <= i < r ==> rows[i] == PieceAxpy(before[i], w, before[i].vector[p])
        invariant forall i :: r <= i < |rows| ==> rows[i] == before[i]
      {
        var c := rows[r].vector[p];
        if c != 0 {
          var cleared := AxpyPiece(rows[r], w, c);
          rows := rows[r := cleared];
        } else {
          AxpyZero(rows[r].vector, w.vector);
          AxpyZero(rows[r].data, w.data);
        }
      }
    }

    method IsComplete() returns (r: bool)
      requires Valid()
      ensures r <==> exists vs: seq<Vec> :: IsBasisAmong(vs, Vectors(offered), k)
    {
      CompleteIff(offered, k, pieceLen);
      r := |rows| == k;
    }

    /** The sources, once complete. */
    method Decode() returns (r: Result<seq<Vec>>)
      requires Valid()
      ensures |rows| != k ==> r == Err(Incomplete(|rows|, k))
      ensures |rows| == k ==> r.Ok?
      ensures forall sources: seq<Vec> ::
                |rows| == k && |sources| == k && IsMatrix(sources, pieceLen) && AllHonest(offered, sources, pieceLen) ==>
                  r == Ok(sources)
    {
      if |rows| != k {
        return Err(Incomplete(|rows|, k));
      }
      r := Ok(Ordered(rows, pivots));
      forall sources: seq<Vec> | |sources| == k && IsMatrix(sources, pieceLen) && AllHonest(offered, sources, pieceLen)
        ensures r == Ok(sources)
      {
        DecodeExact(offered, k, pieceLen, sources);
      }
    }
  }
}
