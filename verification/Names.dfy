/** The order of names: lexicographic by character. */
module Names {
  import opened Search
  import opened SortedVec

  function CompareNat(a: nat, b: nat): Ordering {
    if a < b then Less else if a == b then Equal else Greater
  }

  function CompareText(a: string, b: string): Ordering {
    if |a| == 0 && |b| == 0 then Equal
    else if |a| == 0 then Less
    else if |b| == 0 then Greater
    else
      var first := CompareNat(a[0] as nat, b[0] as nat);
      if first == Equal then CompareText(a[1..], b[1..]) else first
  }

  lemma {:induction false} TextEqual(a: string, b: string)
    ensures CompareText(a, b) == Equal <==> a == b
  {
    if |a| > 0 && |b| > 0 {
      TextEqual(a[1..], b[1..]);
      assert a == [a[0]] + a[1..] && b == [b[0]] + b[1..];
    }
  }

  lemma {:induction false} TextFlips(a: string, b: string)
    ensures CompareText(a, b) == Less <==> CompareText(b, a) == Greater
  {
    if |a| > 0 && |b| > 0 {
      TextFlips(a[1..], b[1..]);
    }
  }

  lemma {:induction false} TextTransitive(a: string, b: string, c: string)
    requires CompareText(a, b) == Less && CompareText(b, c) == Less
    ensures CompareText(a, c) == Less
  {
    if |a| > 0 && |b| > 0 && |c| > 0 && a[0] == b[0] == c[0] {
      TextTransitive(a[1..], b[1..], c[1..]);
    }
  }

  /** The names agree before position n, and there the first ends or has the smaller character. */
  predicate SmallerAt(a: string, b: string, n: nat) {
    n <= |a| && n < |b| && a[..n] == b[..n] && (n < |a| ==> a[n] < b[n])
  }

  lemma SmallerLater(a: string, b: string, n: nat)
    requires |a| > 0 && |b| > 0 && a[0] == b[0]
    ensures SmallerAt(a[1..], b[1..], n) <==> SmallerAt(a, b, n + 1)
  {
    if n + 1 <= |a| && n + 1 < |b| {
      assert a[..n + 1] == [a[0]] + a[1..][..n] && b[..n + 1] == [b[0]] + b[1..][..n];
      assert a[1..][..n] == a[..n + 1][1..] && b[1..][..n] == b[..n + 1][1..];
    }
  }

  /** Less is being a proper prefix, or smaller at the first character that differs. */
  lemma {:induction false} TextLess(a: string, b: string)
    ensures CompareText(a, b) == Less <==> exists n: nat :: SmallerAt(a, b, n)
  {
    if |a| > 0 && |b| > 0 && a[0] == b[0] {
      TextLess(a[1..], b[1..]);
      if n: nat :| SmallerAt(a[1..], b[1..], n) {
        SmallerLater(a, b, n);
      }
      if n: nat :| SmallerAt(a, b, n) {
        SmallerLater(a, b, n - 1);
      }
    } else {
      assert SmallerAt(a, b, 0) <==> CompareText(a, b) == Less;
    }
  }

  lemma TextIsOrder()
    ensures IsOrder(CompareText)
  {
    forall a: string, b: string
      ensures CompareText(a, b) == Equal <==> a == b
      ensures CompareText(a, b) == Less <==> CompareText(b, a) == Greater
    {
      TextEqual(a, b);
      TextFlips(a, b);
    }
    forall a: string, b: string, c: string | CompareText(a, b) == Less && CompareText(b, c) == Less
      ensures CompareText(a, c) == Less
    {
      TextTransitive(a, b, c);
    }
  }
}
