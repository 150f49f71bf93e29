/** Exactly when the verification tags decide that a piece is a combination of the sources. */
module TagStrength {
  import opened Bits
  import opened Galois
  import opened Linear
  import opened Coder
  import opened Decoder
  import opened VTags

  ghost predicate Spans(vs: seq<Vec>, n: nat) {
    forall v: Vec {:trigger InSpan(v, vs)} :: |v| == n ==> InSpan(v, vs)
  }

  ghost predicate OrthogonalTo(e: Vec, vs: seq<Vec>) {
    forall i :: 0 <= i < |vs| ==> |vs[i]| == |e| && Dot(e, vs[i]) == 0
  }

  // ---- orthogonal vectors -------------------------------------------------------------------------------

  /** The columns of a matrix, as vectors. */
  function Columns(rows: seq<Vec>, n: nat): (cols: seq<Vec>)
    requires IsMatrix(rows, n)
    ensures |cols| == n && IsMatrix(cols, |rows|)
  {
    seq(n, j requires 0 <= j < n => seq(|rows|, r requires 0 <= r < |rows| => rows[r][j]))
  }

  lemma {:induction false} ColumnsCombine(e: Vec, rows: seq<Vec>, n: nat, m: nat, r: nat)
    requires IsMatrix(rows, n) && |e| == n && m <= n && r < |rows|
    ensures Comb(e[..m], Columns(rows, n)[..m], |rows|)[r] == Dot(e[..m], rows[r][..m])
  {
    if m > 0 {
      var cols, p := Columns(rows, n), m - 1;
      ColumnsCombine(e, rows, n, p, r);
      assert e[..m][..p] == e[..p] && cols[..m][..p] == cols[..p] && rows[r][..m][..p] == rows[r][..p];
    }
  }

  /** Fewer vectors than they are long leave a direction none of them sees. */
  lemma Unseen(rows: seq<Vec>, n: nat) returns (e: Vec)
    requires IsMatrix(rows, n) && |rows| < n
    ensures |e| == n && e != Zero(n) && OrthogonalTo(e, rows)
  {
    e := Kernel(Columns(rows, n), |rows|);
    forall r | 0 <= r < |rows|
      ensures Dot(e, rows[r]) == 0
    {
      ColumnsCombine(e, rows, n, n, r);
      assert e[..n] == e && Columns(rows, n)[..n] == Columns(rows, n) && rows[r][..n] == rows[r];
    }
  }

  lemma {:induction false} DotWithZero(c: Vec, z: Vec)
    requires |c| == |z| && forall i :: 0 <= i < |z| ==> z[i] == 0
    ensures Dot(c, z) == 0
  {
    if |c| > 0 {
      var m := |c| - 1;
      DotWithZero(c[..m], z[..m]);
      AddZero(0);
    }
  }

  lemma {:induction false} DotComm(a: Vec, b: Vec)
    requires |a| == |b|
    ensures Dot(a, b) == Dot(b, a)
  {
    if |a| > 0 {
      var m := |a| - 1;
      DotComm(a[..m], b[..m]);
      MulComm(a[m], b[m]);
    }
  }

  /** A vector orthogonal to some is orthogonal to their span. */
  lemma OrthogonalToSpan(e: Vec, vs: seq<Vec>, v: Vec)
    requires OrthogonalTo(e, vs) && |v| == |e| && InSpan(v, vs)
    ensures Dot(v, e) == 0
  {
    var c: Vec :| |c| == |vs| && Comb(c, vs, |v|) == v;
    DotComb(c, vs, e);
    forall i | 0 <= i < |vs|
      ensures CoeffPart(vs, e)[i] == 0
    {
      DotZipSame(vs[i], e);
      DotComm(vs[i], e);
    }
    DotWithZero(c, CoeffPart(vs, e));
  }

  lemma OrthogonalToAll(e: Vec, vs: seq<Vec>)
    requires OrthogonalTo(e, vs) && Spans(vs, |e|)
    ensures e == Zero(|e|)
  {
    forall j | 0 <= j < |e|
      ensures e[j] == 0
    {
      OrthogonalToSpan(e, vs, Unit(|e|, j));
      DotUnit(j, e);
    }
  }

  function AsPieces(vs: seq<Vec>): (ps: seq<CodedPiece>)
    ensures |ps| == |vs| && Vectors(ps) == vs
  {
    seq(|vs|, i requires 0 <= i < |vs| => CodedPiece(vs[i], []))
  }

  lemma RowsOf(pieces: seq<CodedPiece>, n: nat)
    requires SameShape(pieces, n, 0)
    ensures SameSpan(Vectors(Run(pieces, n, 0).rows), Vectors(pieces), n) && |Run(pieces, n, 0).rows| <= n
  {
    RunSound(pieces, n, 0);
    OfferedIs(pieces, n, 0);
    RankIsDimension(Run(pieces, n, 0));
  }

  lemma CompleteSees(pieces: seq<CodedPiece>, n: nat, v: Vec)
    requires SameShape(pieces, n, 0) && |Run(pieces, n, 0).rows| == n && |v| == n
    ensures InSpan(v, Vectors(pieces))
  {
    RunSound(pieces, n, 0);
    OfferedIs(pieces, n, 0);
    CompleteSpans(Run(pieces, n, 0), v);
  }

  /** Elimination turns vectors into rows with the same span, fewer than columns unless they span everything. */
  lemma FewerRows(vs: seq<Vec>, n: nat) returns (rows: seq<Vec>)
    requires IsMatrix(vs, n)
    ensures SameSpan(rows, vs, n) && (|rows| < n || Spans(vs, n))
  {
    var pieces := AsPieces(vs);
    RowsOf(pieces, n);
    rows := Vectors(Run(pieces, n, 0).rows);
    if |rows| == n {
      forall v: Vec | |v| == n
        ensures InSpan(v, vs)
      {
        CompleteSees(pieces, n, v);
      }
    }
  }

  /** Vectors that do not span everything leave a direction none of them sees. */
  lemma UnseenBySpan(vs: seq<Vec>, n: nat) returns (e: Vec)
    requires IsMatrix(vs, n) && !Spans(vs, n)
    ensures |e| == n && e != Zero(n) && OrthogonalTo(e, vs)
  {
    var rows := FewerRows(vs, n);
    e := Unseen(rows, n);
    forall i | 0 <= i < |vs|
      ensures Dot(e, vs[i]) == 0
    {
      UnseenMember(e, rows, vs, n, i);
    }
  }

  lemma UnseenMember(e: Vec, rows: seq<Vec>, vs: seq<Vec>, n: nat, i: nat)
    requires SameSpan(rows, vs, n) && |e| == n && OrthogonalTo(e, rows) && i < |vs|
    ensures Dot(e, vs[i]) == 0
  {
    SpanMember(vs, i, n);
    OrthogonalToSpan(e, rows, vs[i]);
    DotComm(e, vs[i]);
  }

  lemma {:induction false} OfferedIs(pieces: seq<CodedPiece>, k: nat, n: nat)
    requires SameShape(pieces, k, n)
    ensures Run(pieces, k, n).offered == pieces && Run(pieces, k, n).k == k
  {
    if |pieces| > 0 {
      OfferedIs(pieces[..|pieces| - 1], k, n);
    }
  }

  // ---- what acceptance means ----------------------------------------------------------------------------

  /** The expanded data parts of the tags. */
  function Expanded(seeds: seq<Seed>, n: nat, xof: (Seed, nat) -> Vec): (vs: seq<Vec>)
    ensures |vs| == |seeds|
  {
    seq(|seeds|, i requires 0 <= i < |seeds| => xof(seeds[i], n))
  }

  /** How far a piece's data is from the combination its vector claims. */
  function Error(piece: CodedPiece, sources: seq<Vec>, n: nat): Vec
    requires IsMatrix(sources, n) && |piece.vector| == |sources| && |piece.data| == n
  {
    Axpy(piece.data, Comb(piece.vector, sources, n), 1)
  }

  lemma SyndromeIsError(piece: CodedPiece, sources: seq<Vec>, n: nat, seed: Seed, xof: (Seed, nat) -> Vec)
    requires IsXof(xof) && IsMatrix(sources, n) && |piece.vector| == |sources| && |piece.data| == n
    ensures Syndrome(VTag(seed, CoeffPart(sources, xof(seed, n))), n, piece, xof)
            == Dot(Error(piece, sources, n), xof(seed, n))
  {
    var vd := xof(seed, n);
    DotZipSame(piece.vector, CoeffPart(sources, vd));
    DotZipSame(piece.data, vd);
    DotComb(piece.vector, sources, vd);
    DotLinear(piece.data, Comb(piece.vector, sources, n), 1, vd);
    MulOne(Dot(Comb(piece.vector, sources, n), vd));
    XorComm(Dot(piece.data, vd), Dot(Comb(piece.vector, sources, n), vd));
  }

  /** A piece is accepted exactly when the tags are of the known scheme, it has the shape of the sources, and no
      tag sees its error. */
  lemma AcceptedIff(sources: seq<Vec>, seeds: seq<Seed>, xof: (Seed, nat) -> Vec, piece: CodedPiece, scheme: nat)
    requires IsXof(xof) && IsSourceSet(sources) && |sources| < U32 && |seeds| == L
    ensures Verify(Generate(sources, seeds, xof).value.(scheme := scheme), piece, xof) <==>
            && scheme == 1 && |piece.vector| == |sources| && |piece.data| == |sources[0]|
            && OrthogonalTo(Error(piece, sources, |sources[0]|), Expanded(seeds, |sources[0]|, xof))
  {
    var n := |sources[0]|;
    var tags := Generate(sources, seeds, xof).value;
    if |piece.vector| == |sources| && |piece.data| == n {
      forall i | 0 <= i < L
        ensures Syndrome(tags.tags[i], n, piece, xof) == Dot(Error(piece, sources, n), Expanded(seeds, n, xof)[i])
      {
        SyndromeIsError(piece, sources, n, seeds[i], xof);
      }
    }
  }

  lemma HonestIff(piece: CodedPiece, sources: seq<Vec>, n: nat)
    requires IsMatrix(sources, n) && |piece.vector| == |sources| && |piece.data| == n
    ensures Honest(piece, sources, n) <==> Error(piece, sources, n) == Zero(n)
  {
    AxpyOneZero(piece.data, Comb(piece.vector, sources, n));
  }

  ghost predicate AcceptsOnlyHonest(sources: seq<Vec>, seeds: seq<Seed>, xof: (Seed, nat) -> Vec)
    requires IsSourceSet(sources) && |seeds| == L
  {
    forall piece: CodedPiece :: Verify(Generate(sources, seeds, xof).value, piece, xof) ==>
      Honest(piece, sources, |sources[0]|)
  }

  /** The piece with no coefficients and an error none of the tags sees. */
  lemma UnseenPiece(sources: seq<Vec>, seeds: seq<Seed>, xof: (Seed, nat) -> Vec, e: Vec) returns (piece: CodedPiece)
    requires IsXof(xof) && IsSourceSet(sources) && |sources| < U32 && |seeds| == L
    requires |e| == |sources[0]| && e != Zero(|e|) && OrthogonalTo(e, Expanded(seeds, |e|, xof))
    ensures Verify(Generate(sources, seeds, xof).value, piece, xof) && !Honest(piece, sources, |e|)
  {
    piece := CodedPiece(Zero(|sources|), e);
    CombZero(sources, |e|);
    AxpyZeros(e);
    AcceptedIff(sources, seeds, xof, piece, 1);
    HonestIff(piece, sources, |e|);
  }

  lemma AxpyZeros(e: Vec)
    ensures Axpy(e, Zero(|e|), 1) == e
  {
    forall i | 0 <= i < |e|
      ensures Add(e[i], Mul(1, 0)) == e[i]
    {
      MulOne(0);
      AddZero(e[i]);
    }
  }

  /** Acceptance means being a combination of the sources, for every piece, if and only if the expanded tags
      span every vector of the piece length. */
  lemma AcceptedIsHonestIff(sources: seq<Vec>, seeds: seq<Seed>, xof: (Seed, nat) -> Vec)
    requires IsXof(xof) && IsSourceSet(sources) && |sources| < U32 && |seeds| == L
    ensures AcceptsOnlyHonest(sources, seeds, xof) <==> Spans(Expanded(seeds, |sources[0]|, xof), |sources[0]|)
  {
    if Spans(Expanded(seeds, |sources[0]|, xof), |sources[0]|) {
      forall piece: CodedPiece | Verify(Generate(sources, seeds, xof).value, piece, xof)
        ensures Honest(piece, sources, |sources[0]|)
      {
        SpanningDecides(sources, seeds, xof, piece);
      }
    } else {
      var e := UnseenBySpan(Expanded(seeds, |sources[0]|, xof), |sources[0]|);
      var piece := UnseenPiece(sources, seeds, xof, e);
    }
  }

  lemma SpanningDecides(sources: seq<Vec>, seeds: seq<Seed>, xof: (Seed, nat) -> Vec, piece: CodedPiece)
    requires IsXof(xof) && IsSourceSet(sources) && |sources| < U32 && |seeds| == L
    requires Spans(Expanded(seeds, |sources[0]|, xof), |sources[0]|)
    requires Verify(Generate(sources, seeds, xof).value, piece, xof)
    ensures Honest(piece, sources, |sources[0]|)
  {
    var n := |sources[0]|;
    AcceptedIff(sources, seeds, xof, piece, 1);
    OrthogonalToAll(Error(piece, sources, n), Expanded(seeds, n, xof));
    HonestIff(piece, sources, n);
  }

  /** Which eight tags never do for pieces longer than eight bytes. */
  lemma LongPiecesAreNotDecided(sources: seq<Vec>, seeds: seq<Seed>, xof: (Seed, nat) -> Vec) returns (piece: CodedPiece)
    requires IsXof(xof) && IsSourceSet(sources) && |sources| < U32 && |seeds| == L && |sources[0]| > L
    ensures Verify(Generate(sources, seeds, xof).value, piece, xof) && !Honest(piece, sources, |sources[0]|)
  {
    var e := Unseen(Expanded(seeds, |sources[0]|, xof), |sources[0]|);
    piece := UnseenPiece(sources, seeds, xof, e);
  }
}
