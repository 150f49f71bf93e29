/** The 256-bit key space under the XOR metric: byte-wise distance, its order, and bucket numbers. */
module Keys {
  import opened Bits
  import opened Options
  import opened Galois

  const WIDTH: nat := 32
  const BUCKETS: nat := 256

  type Key = k: seq<Byte> | |k| == WIDTH witness seq(WIDTH, _ => 0)

  /** Byte by byte; exclusive-or of bytes is also addition in the field. */
  function Distance(a: Key, b: Key): (d: Key)
    ensures forall i :: 0 <= i < WIDTH ==> d[i] == Add(a[i], b[i])
  {
    seq(WIDTH, i requires 0 <= i < WIDTH => Add(a[i], b[i]))
  }

  /** A byte string as a big-endian number. */
  function Value(d: seq<Byte>): nat {
    if |d| == 0 then 0 else d[0] * Pow2(8 * (|d| - 1)) + Value(d[1..])
  }

  /** Byte strings compare from the front. */
  predicate LexLess(a: seq<Byte>, b: seq<Byte>)
    requires |a| == |b|
  {
    |a| > 0 && (a[0] < b[0] || (a[0] == b[0] && LexLess(a[1..], b[1..])))
  }

  // ---- numbers ------------------------------------------------------------------------------------------

  lemma {:induction false} PowAdd(m: nat, n: nat)
    ensures Pow2(m + n) == Pow2(m) * Pow2(n)
  {
    if m > 0 {
      PowAdd(m - 1, n);
      Regroup(Pow2(m - 1), Pow2(n));
      assert m + n - 1 == (m - 1) + n;
    }
  }

  lemma Regroup(a: nat, b: nat)
    ensures 2 * (a * b) == (2 * a) * b
  {
  }

  lemma Pow8()
    ensures Pow2(8) == 256
  {
  }

  lemma OneDigit(x: nat, rest: nat, p: nat)
    requires x < 256 && rest < p
    ensures x * p <= x * p + rest < (x + 1) * p <= 256 * p
  {
    MulLe(x + 1, 256, p);
  }

  lemma MulLe(x: nat, y: nat, p: nat)
    requires x <= y
    ensures x * p <= y * p
  {
  }

  lemma {:induction false} ValueBound(d: seq<Byte>)
    ensures Value(d) < Pow2(8 * |d|)
  {
    if |d| > 0 {
      var n := |d| - 1;
      ValueBound(d[1..]);
      OneDigit(d[0], Value(d[1..]), Pow2(8 * n));
      Pow8();
      PowAdd(8, 8 * n);
      assert 8 * |d| == 8 + 8 * n;
    }
  }

  /** Comparing byte strings compares their values. */
  lemma {:induction false} LexIsValue(a: seq<Byte>, b: seq<Byte>)
    requires |a| == |b|
    ensures LexLess(a, b) <==> Value(a) < Value(b)
    ensures Value(a) == Value(b) <==> a == b
  {
    if |a| > 0 {
      var p := Pow2(8 * (|a| - 1));
      LexIsValue(a[1..], b[1..]);
      ValueBound(a[1..]);
      ValueBound(b[1..]);
      Digits(a[0], Value(a[1..]), b[0], Value(b[1..]), p);
      assert a == [a[0]] + a[1..] && b == [b[0]] + b[1..];
    }
  }

  lemma Digits(x: nat, r: nat, y: nat, s: nat, p: nat)
    requires r < p && s < p
    ensures x * p + r < y * p + s <==> x < y || (x == y && r < s)
    ensures x * p + r == y * p + s <==> x == y && r == s
  {
    if x < y {
      MulLe(x + 1, y, p);
      assert (x + 1) * p == x * p + p;
    } else if y < x {
      MulLe(y + 1, x, p);
      assert (y + 1) * p == y * p + p;
    }
  }

  // ---- the metric ---------------------------------------------------------------------------------------

  /** Distance is zero only to oneself, symmetric, and different from any one key to different keys. */
  lemma DistanceIsMetric(a: Key, b: Key, t: Key)
    ensures Value(Distance(a, b)) == 0 <==> a == b
    ensures Distance(a, b) == Distance(b, a)
    ensures Value(Distance(a, t)) == Value(Distance(b, t)) <==> a == b
  {
    var zero := Distance(a, a);
    forall i | 0 <= i < WIDTH
      ensures zero[i] == 0 && Distance(a, b)[i] == Distance(b, a)[i]
      ensures Distance(a, b)[i] == 0 <==> a[i] == b[i]
      ensures Distance(a, t)[i] == Distance(b, t)[i] <==> a[i] == b[i]
    {
      XorSelf(a[i]);
      XorComm(a[i], b[i]);
      XorComm(a[i], t[i]);
      XorComm(b[i], t[i]);
      XorCancel(a[i], b[i], a[i]);
      XorCancel(t[i], a[i], b[i]);
    }
    ZeroValue(zero);
    LexIsValue(Distance(a, b), zero);
    LexIsValue(Distance(a, t), Distance(b, t));
    if Distance(a, b) == zero || Distance(a, t) == Distance(b, t) {
      assert forall i :: 0 <= i < WIDTH ==> a[i] == b[i];
      assert a == b;
    }
  }

  lemma {:induction false} ZeroValue(d: seq<Byte>)
    requires forall i :: 0 <= i < |d| ==> d[i] == 0
    ensures Value(d) == 0
  {
    if |d| > 0 {
      ZeroValue(d[1..]);
    }
  }

  // ---- bucket numbers -----------------------------------------------------------------------------------

  /** The bucket of a distance: the position of its highest bit. */
  ghost predicate IsTop(v: nat, i: nat) {
    Pow2(i) <= v < Pow2(i + 1)
  }

  lemma {:induction false} PowGrows(m: nat, n: nat)
    requires m <= n
    ensures Pow2(m) <= Pow2(n)
  {
    if m < n {
      PowGrows(m, n - 1);
    }
  }

  lemma TopUnique(v: nat, i: nat, j: nat)
    requires IsTop(v, i) && IsTop(v, j)
    ensures i == j
  {
    if i < j {
      PowGrows(i + 1, j);
    } else if j < i {
      PowGrows(j + 1, i);
    }
  }

  function Log2(v: nat): nat
    requires v > 0
  {
    if v == 1 then 0 else 1 + Log2(v / 2)
  }

  lemma {:induction false} Log2IsTop(v: nat)
    requires v > 0
    ensures IsTop(v, Log2(v))
  {
    if v > 1 {
      Log2IsTop(v / 2);
    }
  }

  /** Bucket i holds the distances from 2^i up to 2^(i+1); a key is in no bucket of its own. */
  function BucketIndex(self: Key, other: Key): (r: Option<nat>)
    ensures r.None? <==> self == other
    ensures r.Some? ==> r.value < BUCKETS
  {
    var v := Value(Distance(self, other));
    DistanceIsMetric(self, other, self);
    if v == 0 then None else
      TopBelow(v, BUCKETS, Distance(self, other));
      Some(Log2(v))
  }

  lemma TopBelow(v: nat, n: nat, d: seq<Byte>)
    requires 0 < v == Value(d) && 8 * |d| == n
    ensures Log2(v) < n
  {
    Log2IsTop(v);
    ValueBound(d);
    if Log2(v) >= n {
      PowGrows(n, Log2(v));
    }
  }

  function LeadingZeros(x: Byte): nat
    requires x > 0
    decreases 256 - x
  {
    if x >= 128 then 0 else 1 + LeadingZeros(2 * x)
  }

  lemma {:induction false} LeadingZerosTop(x: Byte)
    requires x > 0
    ensures LeadingZeros(x) <= 7 && IsTop(x, 7 - LeadingZeros(x))
    decreases 256 - x
  {
    if x >= 128 {
      assert Pow2(7) == 128;
      Pow8();
    } else {
      LeadingZerosTop(2 * x);
      assert LeadingZeros(2 * x) != 7 by {
        assert Pow2(1) == 2;
      }
    }
  }

  lemma ShiftTop(x: nat, i: nat, n: nat, rest: nat)
    requires IsTop(x, i) && rest < Pow2(n)
    ensures IsTop(x * Pow2(n) + rest, i + n)
  {
    var p := Pow2(n);
    PowAdd(i, n);
    PowAdd(i + 1, n);
    MulLe(Pow2(i), x, p);
    MulLe(x + 1, Pow2(i + 1), p);
    assert (x + 1) * p == x * p + p;
    assert i + 1 + n == i + n + 1;
  }

  /** Leading zero bytes do not change a value, and the first other byte decides its highest bit. */
  lemma {:induction false} FirstByteDecides(d: seq<Byte>, i: nat)
    requires i < |d| && d[i] != 0 && forall j :: 0 <= j < i ==> d[j] == 0
    ensures LeadingZeros(d[i]) <= 7 && IsTop(Value(d), 8 * (|d| - i) - 1 - LeadingZeros(d[i]))
  {
    LeadingZerosTop(d[i]);
    if i == 0 {
      ValueBound(d[1..]);
      ShiftTop(d[0], 7 - LeadingZeros(d[0]), 8 * (|d| - 1), Value(d[1..]));
    } else {
      FirstByteDecides(d[1..], i - 1);
    }
  }

  /** The byte-by-byte search for the bucket finds the bucket of the numeric distance. */
  method FindBucket(self: Key, other: Key) returns (r: Option<nat>)
    ensures r == BucketIndex(self, other)
  {
    ghost var d := Distance(self, other);
    DistanceIsMetric(self, other, self);
    for i := 0 to WIDTH
      invariant forall j :: 0 <= j < i ==> d[j] == 0
    {
      var x := Add(self[i], other[i]);
      if x != 0 {
        FirstByteDecides(d, i);
        LeadingZerosTop(x);
        var msbFromTop := i * 8 + LeadingZeros(x);
        NonZero(d, i);
        Log2IsTop(Value(d));
        TopUnique(Value(d), Log2(Value(d)), 255 - msbFromTop);
        return Some(255 - msbFromTop);
      }
    }
    ZeroValue(d);
    return None;
  }

  lemma NonZero(d: seq<Byte>, i: nat)
    requires i < |d| && d[i] != 0
    ensures Value(d) > 0
  {
    var zero := seq(|d|, _ => 0);
    ZeroValue(zero);
    LexIsValue(d, zero);
    assert zero[i] == 0;
  }

  /** What a bucket number means. */
  lemma BucketIndexCorrect(self: Key, other: Key, i: nat)
    ensures BucketIndex(self, other) == Some(i) <==> Pow2(i) <= Value(Distance(self, other)) < Pow2(i + 1)
  {
    var v := Value(Distance(self, other));
    if v > 0 {
      Log2IsTop(v);
      if IsTop(v, i) {
        TopUnique(v, i, Log2(v));
      }
    }
  }

  // ---- distance as a number -----------------------------------------------------------------------------

  lemma {:induction false} ValueXor(a: seq<Byte>, b: seq<Byte>, d: seq<Byte>)
    requires |a| == |b| == |d| && forall i :: 0 <= i < |d| ==> d[i] == Add(a[i], b[i])
    ensures Value(d) == Xor(Value(a), Value(b))
  {
    if |d| > 0 {
      ValueXor(a[1..], b[1..], d[1..]);
      ValueBound(a[1..]);
      ValueBound(b[1..]);
      var n := 8 * (|d| - 1);
      XorSplit(a[0], Value(a[1..]), b[0], Value(b[1..]), n);
      ShlIsTimes(a[0], n);
      ShlIsTimes(b[0], n);
      ShlIsTimes(d[0], n);
    }
  }

  /** Distances to one target determine the distance between two keys. */
  lemma DistanceVia(a: Key, b: Key, t: Key)
    ensures Value(Distance(a, b)) == Xor(Value(Distance(a, t)), Value(Distance(b, t)))
  {
    ValueXor(a, b, Distance(a, b));
    ValueXor(a, t, Distance(a, t));
    ValueXor(b, t, Distance(b, t));
    XorRegroup(Value(a), Value(t), Value(b), Value(t));
    XorSelf(Value(t));
    XorZero(Xor(Value(a), Value(b)));
  }

  /** Two keys in one bucket of a third are nearer to each other than that third is to either. */
  lemma SameBucketIsNearer(q: Key, x: Key, y: Key, j: nat)
    requires BucketIndex(q, x) == Some(j) && BucketIndex(q, y) == Some(j)
    ensures Value(Distance(x, y)) < Pow2(j) <= Value(Distance(q, x))
  {
    BucketIndexCorrect(q, x, j);
    BucketIndexCorrect(q, y, j);
    DistanceIsMetric(q, x, q);
    DistanceIsMetric(q, y, q);
    DistanceVia(x, y, q);
    XorTopBit(Value(Distance(x, q)), Value(Distance(y, q)), j);
  }
}
