/** The bulk row operations, in place on byte buffers, by a 256-entry product table per coefficient. */
module RowOps {
  import opened Galois
  import opened Linear

  method MulTable(c: Byte) returns (table: array<Byte>)
    ensures fresh(table) && table.Length == 256
    ensures forall x: Byte :: table[x] == Mul(c, x)
  {
    table := new Byte[256](_ => 0);
    if c == 0 {
      return;
    }
    LogInRange(c);
    var logC: nat := LogTable()[c];
    var x := 1;
    while x < 256
      invariant 1 <= x <= 256 && table[0] == 0
      invariant forall y :: 1 <= y < x ==> table[y] == Mul(c, y)
    {
      LogInRange(x);
      table[x] := ExpTable()[logC + LogTable()[x]];
      x := x + 1;
    }
  }

  /** dst ^= c * src, with the shortcuts for c = 0 and c = 1. */
  method AxpyInPlace(dst: array<Byte>, src: Vec, c: Byte)
    requires dst.Length == |src|
    modifies dst
    ensures dst[..] == Axpy(old(dst[..]), src, c)
  {
    if c == 0 {
      AxpyZero(dst[..], src);
    } else if c == 1 {
      XorInPlace(dst, src);
    } else {
      var table := MulTable(c);
      XorTableInPlace(dst, src, c, table);
    }
  }

  method XorInPlace(dst: array<Byte>, src: Vec)
    requires dst.Length == |src|
    modifies dst
    ensures dst[..] == Axpy(old(dst[..]), src, 1)
  {
    for i := 0 to dst.Length
      invariant forall j :: 0 <= j < i ==> dst[j] == Add(old(dst[j]), src[j])
      invariant forall j :: i <= j < dst.Length ==> dst[j] == old(dst[j])
    {
      dst[i] := Add(dst[i], src[i]);
    }
    forall j | 0 <= j < dst.Length
      ensures dst[j] == Add(old(dst[j]), Mul(1, src[j]))
    {
      MulOne(src[j]);
    }
  }

  method XorTableInPlace(dst: array<Byte>, src: Vec, c: Byte, table: array<Byte>)
    requires dst.Length == |src| && table.Length == 256 && table != dst
    requires forall x: Byte :: table[x] == Mul(c, x)
    modifies dst
    ensures dst[..] == Axpy(old(dst[..]), src, c)
  {
    for i := 0 to dst.Length
      invariant forall j :: 0 <= j < i ==> dst[j] == Add(old(dst[j]), Mul(c, src[j]))
      invariant forall j :: i <= j < dst.Length ==> dst[j] == old(dst[j])
    {
      dst[i] := Add(dst[i], table[src[i]]);
    }
  }

  /** dst *= c, with the shortcut for c = 1. */
  method ScaleInPlace(dst: array<Byte>, c: Byte)
    modifies dst
    ensures dst[..] == Scale(old(dst[..]), c)
  {
    if c == 1 {
      forall i | 0 <= i < dst.Length
        ensures Mul(c, dst[i]) == dst[i]
      {
        MulOne(dst[i]);
      }
    } else {
      var table := MulTable(c);
      MapTableInPlace(dst, c, table);
    }
  }

  method MapTableInPlace(dst: array<Byte>, c: Byte, table: array<Byte>)
    requires table.Length == 256 && table != dst
    requires forall x: Byte :: table[x] == Mul(c, x)
    modifies dst
    ensures dst[..] == Scale(old(dst[..]), c)
  {
    for i := 0 to dst.Length
      invariant forall j :: 0 <= j < i ==> dst[j] == Mul(c, old(dst[j]))
      invariant forall j :: i <= j < dst.Length ==> dst[j] == old(dst[j])
    {
      dst[i] := table[dst[i]];
    }
  }

  method DotProduct(a: Vec, b: Vec) returns (acc: Byte)
    requires |a| == |b|
    ensures acc == Dot(a, b)
  {
    acc := 0;
    for i := 0 to |a|
      invariant acc == Dot(a[..i], b[..i])
    {
      assert a[..i + 1][..i] == a[..i] && b[..i + 1][..i] == b[..i];
      acc := Add(acc, Mul(a[i], b[i]));
    }
    assert a[..|a|] == a && b[..|a|] == b;
  }
}
