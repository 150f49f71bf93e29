/** Null-space verification tags. The hash that expands a seed to a vector is a parameter `xof`;
    nothing is assumed of it but the length of what it returns. */
module VTags {
  import opened Bits
  import opened Galois
  import opened Linear
  import opened Coder

  type Seed = seq<Byte>

  const L: nat := 8
  const SCHEME_NULL_SPACE_V1: nat := 1
  const U32: nat := 0x1_0000_0000

  /** A seed for the data part v_d, and the coefficient part v_c. */
  datatype VTag = VTag(seed: Seed, coeffPart: Vec)

  datatype VTags = VTags(scheme: nat, k: nat, pieceLen: nat, tags: seq<VTag>)

  ghost predicate IsXof(xof: (Seed, nat) -> Vec) {
    forall seed: Seed, n: nat :: |xof(seed, n)| == n
  }

  /** The product over the shorter of the two lengths. */
  function DotZip(a: Vec, b: Vec): Byte {
    var m := if |a| <= |b| then |a| else |b|;
    Dot(a[..m], b[..m])
  }

  function CoeffPart(sources: seq<Vec>, vd: Vec): (c: Vec)
    ensures |c| == |sources|
  {
    seq(|sources|, i requires 0 <= i < |sources| => DotZip(sources[i], vd))
  }

  /** Publish one tag per drawn seed. The number of sources is stored in 32 bits. */
  function Generate(sources: seq<Vec>, seeds: seq<Seed>, xof: (Seed, nat) -> Vec): Result<VTags>
    requires |seeds| == L
  {
    if !IsSourceSet(sources) then Err(BadSources)
    else
      var n := |sources[0]|;
      Ok(VTags(SCHEME_NULL_SPACE_V1, |sources| % U32, n,
               seq(L, i requires 0 <= i < L => VTag(seeds[i], CoeffPart(sources, xof(seeds[i], n))))))
  }

  /** dot(c, v_c) + dot(d, v_d) for one tag. */
  function Syndrome(tag: VTag, n: nat, piece: CodedPiece, xof: (Seed, nat) -> Vec): Byte {
    Add(DotZip(piece.vector, tag.coeffPart), DotZip(piece.data, xof(tag.seed, n)))
  }

  predicate Verify(vtags: VTags, piece: CodedPiece, xof: (Seed, nat) -> Vec) {
    && vtags.scheme == SCHEME_NULL_SPACE_V1
    && |piece.vector| == vtags.k && |piece.data| == vtags.pieceLen
    && forall i :: 0 <= i < |vtags.tags| ==> Syndrome(vtags.tags[i], vtags.pieceLen, piece, xof) == 0
  }

  // ---- dot products are linear -------------------------------------------------------------------

  lemma {:induction false} DotLinear(a: Vec, b: Vec, c: Byte, v: Vec)
    requires |a| == |b| == |v|
    ensures Dot(Axpy(a, b, c), v) == Add(Dot(a, v), Mul(c, Dot(b, v)))
  {
    if |a| == 0 {
      AddZero(0);
    } else {
      var m := |a| - 1;
      assert Axpy(a, b, c)[..m] == Axpy(a[..m], b[..m], c);
      DotLinear(a[..m], b[..m], c, v[..m]);
      DotStep(Dot(a[..m], v[..m]), Dot(b[..m], v[..m]), a[m], b[m], c, v[m]);
    }
  }

  /** (x + c y) + (a + c b) v == (x + a v) + c (y + b v) */
  lemma DotStep(x: Byte, y: Byte, a: Byte, b: Byte, c: Byte, v: Byte)
    ensures Add(Add(x, Mul(c, y)), Mul(Add(a, Mul(c, b)), v)) == Add(Add(x, Mul(a, v)), Mul(c, Add(y, Mul(b, v))))
  {
    MulAdd(a, Mul(c, b), v);
    MulAssoc(c, b, v);
    MulAddRight(y, Mul(b, v), c);
    XorRegroup(x, Mul(c, y), Mul(a, v), Mul(c, Mul(b, v)));
  }

  lemma {:induction false} DotZero(v: Vec)
    ensures Dot(Zero(|v|), v) == 0
  {
    if |v| > 0 {
      var m := |v| - 1;
      assert Zero(|v|)[..m] == Zero(m);
      DotZero(v[..m]);
      AddZero(0);
    }
  }

  /** The product of a combination is the combination of the products. */
  lemma {:induction false} DotComb(c: Vec, rows: seq<Vec>, v: Vec)
    requires |c| == |rows| && IsMatrix(rows, |v|)
    ensures Dot(Comb(c, rows, |v|), v) == Dot(c, CoeffPart(rows, v))
  {
    if |c| == 0 {
      DotZero(v);
    } else {
      var m := |c| - 1;
      DotComb(c[..m], rows[..m], v);
      DotLinear(Comb(c[..m], rows[..m], |v|), rows[m], c[m], v);
      assert CoeffPart(rows, v)[..m] == CoeffPart(rows[..m], v);
      assert rows[m][..|v|] == rows[m] && v[..|v|] == v;
    }
  }

  lemma DotZipSame(a: Vec, b: Vec)
    requires |a| == |b|
    ensures DotZip(a, b) == Dot(a, b)
  {
    assert a[..|a|] == a && b[..|b|] == b;
  }

  // ---- what the tags accept ----------------------------------------------------------------------

  lemma SyndromeHonest(piece: CodedPiece, sources: seq<Vec>, n: nat, seed: Seed, xof: (Seed, nat) -> Vec)
    requires IsXof(xof) && Honest(piece, sources, n)
    ensures Syndrome(VTag(seed, CoeffPart(sources, xof(seed, n))), n, piece, xof) == 0
  {
    var vd := xof(seed, n);
    DotZipSame(piece.vector, CoeffPart(sources, vd));
    DotZipSame(piece.data, vd);
    DotComb(piece.vector, sources, vd);
    AddZero(Dot(piece.data, vd));
  }

  /** Every honest piece passes, whatever the seeds, as long as the source count fits in 32 bits;
      past that no honest piece does. */
  lemma HonestPasses(sources: seq<Vec>, seeds: seq<Seed>, xof: (Seed, nat) -> Vec, piece: CodedPiece)
    requires IsXof(xof) && IsSourceSet(sources) && |seeds| == L && Honest(piece, sources, |sources[0]|)
    ensures Verify(Generate(sources, seeds, xof).value, piece, xof) <==> |sources| < U32
  {
    var n := |sources[0]|;
    forall i | 0 <= i < L
      ensures Syndrome(VTag(seeds[i], CoeffPart(sources, xof(seeds[i], n))), n, piece, xof) == 0
    {
      SyndromeHonest(piece, sources, n, seeds[i], xof);
    }
  }

  /** The accepted pieces of any well-formed tag set form a vector space. */
  lemma AcceptedClosed(vtags: VTags, p: CodedPiece, q: CodedPiece, c: Byte, xof: (Seed, nat) -> Vec)
    requires IsXof(xof) && Verify(vtags, p, xof) && Verify(vtags, q, xof)
    requires forall i :: 0 <= i < |vtags.tags| ==> |vtags.tags[i].coeffPart| == vtags.k
    ensures Verify(vtags, CodedPiece(Axpy(p.vector, q.vector, c), Axpy(p.data, q.data, c)), xof)
  {
    var r := CodedPiece(Axpy(p.vector, q.vector, c), Axpy(p.data, q.data, c));
    forall i | 0 <= i < |vtags.tags|
      ensures Syndrome(vtags.tags[i], vtags.pieceLen, r, xof) == 0
    {
      SyndromeLinear(vtags.tags[i], vtags.pieceLen, p, q, c, xof);
      AddZero(0);
    }
  }

  lemma SyndromeLinear(tag: VTag, n: nat, p: CodedPiece, q: CodedPiece, c: Byte, xof: (Seed, nat) -> Vec)
    requires IsXof(xof) && |p.vector| == |q.vector| == |tag.coeffPart| && |p.data| == |q.data| == n
    ensures Syndrome(tag, n, CodedPiece(Axpy(p.vector, q.vector, c), Axpy(p.data, q.data, c)), xof)
            == Add(Syndrome(tag, n, p, xof), Mul(c, Syndrome(tag, n, q, xof)))
  {
    var vc, vd := tag.coeffPart, xof(tag.seed, n);
    DotZipSame(p.vector, vc);
    DotZipSame(q.vector, vc);
    DotZipSame(Axpy(p.vector, q.vector, c), vc);
    DotZipSame(p.data, vd);
    DotZipSame(q.data, vd);
    DotZipSame(Axpy(p.data, q.data, c), vd);
    DotLinear(p.vector, q.vector, c, vc);
    DotLinear(p.data, q.data, c, vd);
    MulAddRight(Dot(q.vector, vc), Dot(q.data, vd), c);
    XorRegroup(Dot(p.vector, vc), Mul(c, Dot(q.vector, vc)), Dot(p.data, vd), Mul(c, Dot(q.data, vd)));
  }

  /** Flipping the bits e of one data byte. */
  function Corrupt(piece: CodedPiece, j: nat, e: Byte): CodedPiece
    requires j < |piece.data|
  {
    piece.(data := piece.data[j := Add(piece.data[j], e)])
  }

  lemma {:induction false} DotUnit(j: nat, v: Vec)
    requires j < |v|
    ensures Dot(Unit(|v|, j), v) == v[j]
  {
    var m := |v| - 1;
    MulOne(v[m]);
    AddZero(v[j]);
    if j == m {
      assert Unit(|v|, j)[..m] == Zero(m);
      DotZero(v[..m]);
    } else {
      assert Unit(|v|, j)[..m] == Unit(m, j);
      DotUnit(j, v[..m]);
    }
  }

  lemma DotUpdate(a: Vec, j: nat, e: Byte, v: Vec)
    requires |a| == |v| && j < |a|
    ensures Dot(a[j := Add(a[j], e)], v) == Add(Dot(a, v), Mul(e, v[j]))
  {
    MulOne(e);
    forall i | 0 <= i < |a|
      ensures Add(a[i], 0) == a[i]
    {
      AddZero(a[i]);
    }
    assert a[j := Add(a[j], e)] == Axpy(a, Unit(|a|, j), e);
    DotLinear(a, Unit(|a|, j), e, v);
    DotUnit(j, v);
  }

  /** One changed data byte slips through exactly when every tag's v_d is zero at that position. */
  lemma CorruptionPassesIff(vtags: VTags, piece: CodedPiece, j: nat, e: Byte, xof: (Seed, nat) -> Vec)
    requires IsXof(xof) && Verify(vtags, piece, xof) && j < |piece.data| && e != 0
    ensures Verify(vtags, Corrupt(piece, j, e), xof) <==>
            forall i :: 0 <= i < |vtags.tags| ==> xof(vtags.tags[i].seed, vtags.pieceLen)[j] == 0
  {
    forall i | 0 <= i < |vtags.tags|
      ensures Syndrome(vtags.tags[i], vtags.pieceLen, Corrupt(piece, j, e), xof) == 0 <==>
              xof(vtags.tags[i].seed, vtags.pieceLen)[j] == 0
    {
      SyndromeCorrupt(vtags.tags[i], vtags.pieceLen, piece, j, e, xof);
    }
  }

  lemma SyndromeCorrupt(tag: VTag, n: nat, piece: CodedPiece, j: nat, e: Byte, xof: (Seed, nat) -> Vec)
    requires IsXof(xof) && |piece.data| == n && j < n && e != 0 && Syndrome(tag, n, piece, xof) == 0
    ensures Syndrome(tag, n, Corrupt(piece, j, e), xof) == 0 <==> xof(tag.seed, n)[j] == 0
  {
    var vd := xof(tag.seed, n);
    var change := Mul(e, vd[j]);
    DotZipSame(piece.data, vd);
    DotZipSame(Corrupt(piece, j, e).data, vd);
    DotUpdate(piece.data, j, e, vd);
    XorAssoc(DotZip(piece.vector, tag.coeffPart), Dot(piece.data, vd), change);
    XorZero(change);
    if vd[j] != 0 {
      MulNonZero(e, vd[j]);
    }
  }
}
