/** The array shape written to the metadata (src/streaming/array.cpp, make_metadata_). */
module Metadata {
  import opened Arith
  import opened Lattice
  import opened Tiling
  import opened Grid
  import opened ArraySpec

  /** Rounding up twice is rounding up once. */
  lemma CeilCeil(n: nat, a: nat, b: nat)
    requires a > 0 && b > 0
    ensures a * b > 0 && CeilDiv(CeilDiv(n, a), b) == CeilDiv(n, a * b)
  {
    MulPos(a, b);
    CeilDivCovers(n, a);
    CeilDivCovers(CeilDiv(n, a), b);
    CeilBounds(n, a, b, CeilDiv(n, a), CeilDiv(CeilDiv(n, a), b));
    CeilDivUnique(n, a * b, CeilDiv(CeilDiv(n, a), b));
  }

  lemma CeilBounds(n: nat, a: nat, b: nat, m: nat, k: nat)
    requires a > 0 && b > 0 && n <= m * a < n + a && m <= k * b < m + b
    ensures n <= k * (a * b) < n + a * b
  {
    MulMono(m, k * b, a);
    MulMono(k * b, m + b - 1, a);
    assert (m + b - 1) * a == m * a + b * a - a;
    assert k * b * a == k * (a * b) by { MulAssoc(k, b, a); }
  }

  lemma CeilStep(n: nat, sizes: seq<nat>, i: nat)
    requires i < |sizes| && sizes[i] > 0 && Size(sizes[i + 1..]) > 0
    ensures Size(sizes[i..]) > 0 && CeilDiv(CeilDiv(n, Size(sizes[i + 1..])), sizes[i]) == CeilDiv(n, Size(sizes[i..]))
  {
    SizeStep(sizes, i);
    CeilCeil(n, Size(sizes[i + 1..]), sizes[i]);
    assert Size(sizes[i..]) == Size(sizes[i + 1..]) * sizes[i];
  }

  method DivideUp(size: nat, part: nat) returns (n: nat)
    requires part > 0
    ensures n == CeilDiv(size, part)
  {
    CeilDivIs(size, part);
    n := (size + part - 1) / part;
  }

  /** Length of the append axis: one rounding-up division for each intermediate axis, innermost first. */
  method AppendSize(dims: seq<Dim>, framesWritten: nat) returns (appendSize: nat)
    requires ValidDims(dims)
    ensures InnerCount(dims) > 0 && appendSize == CeilDiv(framesWritten, InnerCount(dims))
  {
    FramePositive(dims);
    appendSize := DivideAlong(dims, framesWritten, ArraySizes(FrameDims(dims)));
  }

  method DivideAlong(dims: seq<Dim>, framesWritten: nat, ghost sizes: seq<nat>) returns (appendSize: nat)
    requires |dims| >= 3 && |sizes| == |dims| - 2
    requires forall i :: 1 <= i < |sizes| ==> sizes[i] == dims[i].size > 0
    ensures Size(sizes[1..]) > 0 && appendSize == CeilDiv(framesWritten, Size(sizes[1..]))
  {
    appendSize := framesWritten;
    var i := |dims| - 3;
    assert sizes[i + 1..] == [];
    CeilDivUnique(framesWritten, 1, framesWritten);
    while i > 0
      invariant 0 <= i <= |dims| - 3
      invariant Size(sizes[i + 1..]) > 0 && appendSize == CeilDiv(framesWritten, Size(sizes[i + 1..]))
    {
      CeilStep(framesWritten, sizes, i);
      appendSize := DivideUp(appendSize, dims[i].size);
      i := i - 1;
    }
  }

  /** Every frame written lies inside that shape, and the last append index has one. */
  lemma ShapeIsTight(dims: seq<Dim>, framesWritten: nat, f: nat)
    requires ValidDims(dims) && f < framesWritten
    ensures InnerCount(dims) > 0
    ensures f / InnerCount(dims) < CeilDiv(framesWritten, InnerCount(dims))
    ensures (framesWritten - 1) / InnerCount(dims) + 1 == CeilDiv(framesWritten, InnerCount(dims))
  {
    FramePositive(dims);
    CeilDivOf(f, framesWritten, InnerCount(dims));
    LastIndex(framesWritten, InnerCount(dims));
  }

  lemma LastIndex(n: nat, d: nat)
    requires n > 0 && d > 0
    ensures (n - 1) / d + 1 == CeilDiv(n, d)
  {
    DivModDef(n - 1, d);
    var k := (n - 1) / d;
    assert (k + 1) * d == k * d + d;
    CeilDivUnique(n, d, k + 1);
  }
}
