/** Random linear network coding: encoding, and recoding without decoding. Random draws are inputs. */
module Coder {
  import opened Galois
  import opened Linear
  import opened Options
  import opened RowOps

  /** One coded piece: coefficients over the sources, and the data they combine to. */
  datatype CodedPiece = CodedPiece(vector: Vec, data: Vec)

  datatype ErasureError =
    | BadSources
    | Shape(expectedK: nat, expectedLen: nat)
    | NothingToRecode
    | Incomplete(rank: nat, k: nat)

  datatype Result<T> = Ok(value: T) | Err(error: ErasureError)

  /** Non-empty source pieces of one non-zero length. */
  predicate IsSourceSet(sources: seq<Vec>) {
    |sources| > 0 && |sources[0]| > 0 && IsMatrix(sources, |sources[0]|)
  }

  method CheckSources(sources: seq<Vec>) returns (r: Result<nat>)
    ensures r.Ok? <==> IsSourceSet(sources)
    ensures r.Ok? ==> r.value == |sources[0]|
    ensures r.Err? ==> r.error == BadSources
  {
    if |sources| == 0 {
      return Err(BadSources);
    }
    var first := sources[0];
    if |first| == 0 || exists i :: 0 <= i < |sources| && |sources[i]| != |first| {
      return Err(BadSources);
    }
    return Ok(|first|);
  }

  /** The piece really is the combination of the sources that its vector claims. */
  ghost predicate Honest(p: CodedPiece, sources: seq<Vec>, n: nat) {
    IsMatrix(sources, n) && |p.vector| == |sources| && |p.data| == n && p.data == Comb(p.vector, sources, n)
  }

  predicate IsUseful(v: Vec) {
    exists i :: 0 <= i < |v| && v[i] != 0
  }

  predicate AnyUseful(draws: seq<Vec>) {
    exists i :: 0 <= i < |draws| && IsUseful(draws[i])
  }

  /** The first draw that is not all zero. */
  predicate IsFirstUseful(draws: seq<Vec>, i: nat) {
    i < |draws| && IsUseful(draws[i]) && forall j :: 0 <= j < i ==> !IsUseful(draws[j])
  }

  ghost predicate Chosen(draws: seq<Vec>, v: Vec) {
    exists i: nat :: IsFirstUseful(draws, i) && draws[i] == v
  }

  lemma ChosenUnique(draws: seq<Vec>, v: Vec, w: Vec)
    requires Chosen(draws, v) && Chosen(draws, w)
    ensures v == w
  {
    var i: nat :| IsFirstUseful(draws, i) && draws[i] == v;
    var j: nat :| IsFirstUseful(draws, j) && draws[j] == w;
    assert !(i < j) && !(j < i);
  }

  method FirstUseful(draws: seq<Vec>, k: nat) returns (v: Vec)
    requires IsMatrix(draws, k) && AnyUseful(draws)
    ensures |v| == k && Chosen(draws, v)
  {
    var i := 0;
    while !IsUseful(draws[i])
      invariant 0 <= i < |draws| && forall j :: 0 <= j < i ==> !IsUseful(draws[j])
      invariant exists j :: i <= j < |draws| && IsUseful(draws[j])
      decreases |draws| - i
    {
      i := i + 1;
    }
    assert IsFirstUseful(draws, i);
    v := draws[i];
  }

  /** Encode one piece. `draws` are the coding vectors the generator yields, resampled until useful. */
  method Encode(sources: seq<Vec>, draws: seq<Vec>) returns (r: Result<CodedPiece>)
    requires IsMatrix(draws, |sources|)
    requires |sources| > 0 ==> AnyUseful(draws)
    ensures r.Ok? <==> IsSourceSet(sources)
    ensures r.Err? ==> r.error == BadSources
    ensures r.Ok? ==> Honest(r.value, sources, |sources[0]|) && Chosen(draws, r.value.vector)
  {
    var shape := CheckSources(sources);
    if shape.Err? {
      return Err(BadSources);
    }
    var vector := FirstUseful(draws, |sources|);
    var data := CombineInto(vector, sources, shape.value);
    r := Ok(CodedPiece(vector, data));
  }

  /** Encode as many pieces as there are streams of draws; none at all is no error, whatever the sources. */
  method EncodeMany(sources: seq<Vec>, draws: seq<seq<Vec>>) returns (r: Result<seq<CodedPiece>>)
    requires forall i :: 0 <= i < |draws| ==> IsMatrix(draws[i], |sources|)
    requires |sources| > 0 ==> forall i :: 0 <= i < |draws| ==> AnyUseful(draws[i])
    ensures r.Ok? <==> |draws| == 0 || IsSourceSet(sources)
    ensures r.Err? ==> r.error == BadSources
    ensures r.Ok? ==> |r.value| == |draws|
    ensures r.Ok? && IsSourceSet(sources) ==>
              forall i :: 0 <= i < |draws| ==>
                Honest(r.value[i], sources, |sources[0]|) && Chosen(draws[i], r.value[i].vector)
  {
    var out: seq<CodedPiece> := [];
    for i := 0 to |draws|
      invariant |out| == i && (i > 0 ==> IsSourceSet(sources))
      invariant IsSourceSet(sources) ==>
                  forall j :: 0 <= j < i ==> Honest(out[j], sources, |sources[0]|) && Chosen(draws[j], out[j].vector)
    {
      var piece := Encode(sources, draws[i]);
      if piece.Err? {
        return Err(piece.error);
      }
      out := out + [piece.value];
    }
    r := Ok(out);
  }

  /** Start from zeros and add one multiple of each row. */
  method CombineInto(c: Vec, rows: seq<Vec>, n: nat) returns (out: Vec)
    requires |c| == |rows| && IsMatrix(rows, n)
    ensures out == Comb(c, rows, n)
  {
    var buffer := new Byte[n](_ => 0);
    assert buffer[..] == Zero(n);
    for i := 0 to |rows|
      invariant buffer[..] == Comb(c[..i], rows[..i], n)
    {
      assert c[..i + 1][..i] == c[..i] && rows[..i + 1][..i] == rows[..i];
      AxpyInPlace(buffer, rows[i], c[i]);
    }
    assert c[..|c|] == c && rows[..|c|] == rows;
    out := buffer[..];
  }

  function Vectors(ps: seq<CodedPiece>): (r: seq<Vec>)
    ensures |r| == |ps|
  {
    seq(|ps|, i requires 0 <= i < |ps| => ps[i].vector)
  }

  function Datas(ps: seq<CodedPiece>): (r: seq<Vec>)
    ensures |r| == |ps|
  {
    seq(|ps|, i requires 0 <= i < |ps| => ps[i].data)
  }

  predicate SameShape(held: seq<CodedPiece>, k: nat, n: nat) {
    forall i :: 0 <= i < |held| ==> |held[i].vector| == k && |held[i].data| == n
  }

  ghost predicate AllHonest(ps: seq<CodedPiece>, sources: seq<Vec>, n: nat) {
    forall i :: 0 <= i < |ps| ==> Honest(ps[i], sources, n)
  }

  /** The piece a recoder mints from the coefficients it drew. */
  function Mix(held: seq<CodedPiece>, coins: Vec, k: nat, n: nat): CodedPiece
    requires |coins| == |held| && SameShape(held, k, n)
  {
    CodedPiece(Comb(coins, Vectors(held), k), Comb(coins, Datas(held), n))
  }

  /** One pass over the held pieces, accumulating coefficients and data side by side. */
  method MixInto(held: seq<CodedPiece>, coins: Vec, k: nat, n: nat) returns (piece: CodedPiece)
    requires |coins| == |held| && SameShape(held, k, n)
    ensures piece == Mix(held, coins, k, n)
  {
    var vector, data := new Byte[k](_ => 0), new Byte[n](_ => 0);
    assert vector[..] == Zero(k) && data[..] == Zero(n);
    ghost var vs, ds := Vectors(held), Datas(held);
    for i := 0 to |held|
      invariant vector[..] == Comb(coins[..i], vs[..i], k)
      invariant data[..] == Comb(coins[..i], ds[..i], n)
    {
      assert coins[..i + 1][..i] == coins[..i] && vs[..i + 1][..i] == vs[..i] && ds[..i + 1][..i] == ds[..i];
      AxpyInPlace(vector, held[i].vector, coins[i]);
      AxpyInPlace(data, held[i].data, coins[i]);
    }
    assert coins[..|coins|] == coins && vs[..|vs|] == vs && ds[..|ds|] == ds;
    piece := CodedPiece(vector[..], data[..]);
  }

  /** Mixing honest pieces gives an honest piece, for whatever sources they were honest about. */
  lemma MixHonest(held: seq<CodedPiece>, coins: Vec, sources: seq<Vec>, n: nat)
    requires |coins| == |held| && IsMatrix(sources, n) && AllHonest(held, sources, n)
    ensures SameShape(held, |sources|, n)
    ensures Honest(Mix(held, coins, |sources|, n), sources, n)
  {
    CombComb(coins, Vectors(held), sources, Datas(held), n);
  }

  /** The piece combines the held vectors and the held data by draw i, the first whose mix is useful. */
  ghost predicate MintedFrom(held: seq<CodedPiece>, draws: seq<Vec>, i: nat, piece: CodedPiece)
    requires |held| > 0 && SameShape(held, |held[0].vector|, |held[0].data|) && IsMatrix(draws, |held|) && i < |draws|
  {
    && piece.vector == Comb(draws[i], Vectors(held), |held[0].vector|)
    && piece.data == Comb(draws[i], Datas(held), |held[0].data|)
    && forall j :: 0 <= j < i ==> !IsUseful(Comb(draws[j], Vectors(held), |held[0].vector|))
  }

  /** Recode: mint a piece from held pieces only. `draws` are the coefficient rows drawn so far, redrawn until
      the mixed vector is useful; nothing when none of them is, and the source goes on drawing. */
  method Recode(held: seq<CodedPiece>, draws: seq<Vec>) returns (r: Option<Result<CodedPiece>>)
    requires IsMatrix(draws, |held|)
    ensures |held| == 0 ==> r == Some(Err(NothingToRecode))
    ensures |held| > 0 && !SameShape(held, |held[0].vector|, |held[0].data|) ==>
              r == Some(Err(Shape(|held[0].vector|, |held[0].data|)))
    ensures |held| > 0 && SameShape(held, |held[0].vector|, |held[0].data|) ==>
              && (r.None? <==>
                  forall i :: 0 <= i < |draws| ==> !IsUseful(Comb(draws[i], Vectors(held), |held[0].vector|)))
              && (r.Some? ==> r.value.Ok? && IsUseful(r.value.value.vector)
                              && exists i :: 0 <= i < |draws| && MintedFrom(held, draws, i, r.value.value))
    ensures r.Some? && r.value.Ok? ==>
              forall sources: seq<Vec> :: |held| > 0 && AllHonest(held, sources, |held[0].data|) ==>
                Honest(r.value.value, sources, |held[0].data|)
  {
    if |held| == 0 {
      return Some(Err(NothingToRecode));
    }
    var k, n := |held[0].vector|, |held[0].data|;
    if !SameShape(held, k, n) {
      return Some(Err(Shape(k, n)));
    }
    for j := 0 to |draws|
      invariant forall i :: 0 <= i < j ==> !IsUseful(Comb(draws[i], Vectors(held), k))
    {
      var piece := MixInto(held, draws[j], k, n);
      if IsUseful(piece.vector) {
        MixAlwaysHonest(held, draws[j], k, n);
        assert MintedFrom(held, draws, j, piece);
        return Some(Ok(piece));
      }
    }
    return None;
  }

  lemma MixAlwaysHonest(held: seq<CodedPiece>, coins: Vec, k: nat, n: nat)
    requires |held| > 0 && |coins| == |held| && SameShape(held, k, n)
    ensures forall sources: seq<Vec> :: AllHonest(held, sources, n) ==> Honest(Mix(held, coins, k, n), sources, n)
  {
    forall sources: seq<Vec> | AllHonest(held, sources, n)
      ensures Honest(Mix(held, coins, k, n), sources, n)
    {
      assert Honest(held[0], sources, n);
      MixHonest(held, coins, sources, n);
    }
  }

  lemma {:induction false} CombOfZeros(c: Vec, rows: seq<Vec>, n: nat)
    requires |c| == |rows| && IsMatrix(rows, n) && forall i :: 0 <= i < |rows| ==> rows[i] == Zero(n)
    ensures Comb(c, rows, n) == Zero(n)
  {
    if |c| > 0 {
      var m := |c| - 1;
      CombOfZeros(c[..m], rows[..m], n);
      MulComm(c[m], 0);
      AddZero(0);
    }
  }

  /** Some draw makes a useful piece if and only if some held vector is useful: on held vectors that are all
      zero, redrawing never ends. */
  lemma UsefulDrawIff(held: seq<CodedPiece>, k: nat, n: nat)
    requires SameShape(held, k, n)
    ensures (exists coins: Vec :: |coins| == |held| && IsUseful(Comb(coins, Vectors(held), k)))
            <==> exists i :: 0 <= i < |held| && IsUseful(held[i].vector)
  {
    var vs := Vectors(held);
    if i :| 0 <= i < |held| && IsUseful(held[i].vector) {
      CombUnit(vs, i, k);
      assert IsUseful(Comb(Unit(|held|, i), vs, k));
    } else {
      forall i | 0 <= i < |vs|
        ensures vs[i] == Zero(k)
      {
        assert !IsUseful(held[i].vector);
      }
      forall coins: Vec | |coins| == |held|
        ensures !IsUseful(Comb(coins, vs, k))
      {
        CombOfZeros(coins, vs, k);
      }
    }
  }

  // ---- every way a piece can come about --------------------------------------------------------

  /** How a piece was made: encoded from the sources, or recoded from other pieces. */
  datatype Origin = Encoded(vector: Vec) | Recoded(parts: seq<Origin>, coins: Vec)

  predicate Legal(o: Origin, k: nat) {
    match o
    case Encoded(vector) => |vector| == k
    case Recoded(parts, coins) =>
      |parts| > 0 && |coins| == |parts| && forall i :: 0 <= i < |parts| ==> Legal(parts[i], k)
  }

  /** The piece of that origin. */
  function Made(o: Origin, sources: seq<Vec>, n: nat): (p: CodedPiece)
    requires IsMatrix(sources, n) && Legal(o, |sources|)
    ensures |p.vector| == |sources| && |p.data| == n
    decreases o
  {
    match o
    case Encoded(vector) => CodedPiece(vector, Comb(vector, sources, n))
    case Recoded(parts, coins) => Mix(MadeAll(parts, sources, n), coins, |sources|, n)
  }

  function MadeAll(os: seq<Origin>, sources: seq<Vec>, n: nat): (ps: seq<CodedPiece>)
    requires IsMatrix(sources, n) && forall i :: 0 <= i < |os| ==> Legal(os[i], |sources|)
    ensures |ps| == |os| && SameShape(ps, |sources|, n)
    decreases os
  {
    if |os| == 0 then [] else [Made(os[0], sources, n)] + MadeAll(os[1..], sources, n)
  }

  /** Encodings, recodings, and recodings of recodings to any depth are all honest. */
  lemma {:induction false} MadeHonest(o: Origin, sources: seq<Vec>, n: nat)
    requires IsMatrix(sources, n) && Legal(o, |sources|)
    ensures Honest(Made(o, sources, n), sources, n)
    decreases o
  {
    match o
    case Encoded(_) =>
    case Recoded(parts, coins) =>
      MadeAllHonest(parts, sources, n);
      MixHonest(MadeAll(parts, sources, n), coins, sources, n);
  }

  lemma {:induction false} MadeAllHonest(os: seq<Origin>, sources: seq<Vec>, n: nat)
    requires IsMatrix(sources, n) && forall i :: 0 <= i < |os| ==> Legal(os[i], |sources|)
    ensures AllHonest(MadeAll(os, sources, n), sources, n)
    decreases os
  {
    if |os| > 0 {
      MadeHonest(os[0], sources, n);
      MadeAllHonest(os[1..], sources, n);
    }
  }
}
