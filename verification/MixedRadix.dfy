/** The stride tables the program fills before it ranks or unranks. */
module Strides {
  import opened Lattice

  /** `strides[i]` is the number of points of the axes after `i`. */
  ghost predicate AreStrides(strides: seq<nat>, shape: seq<nat>) {
    |strides| == |shape| && forall i :: 0 <= i < |shape| ==> strides[i] == Size(shape[i + 1..])
  }

  method MakeStrides(shape: seq<nat>) returns (strides: seq<nat>)
    requires |shape| > 0
    ensures AreStrides(strides, shape)
  {
    strides := seq(|shape|, i => 1);
    var i := |shape| - 1;
    assert shape[i + 1..] == [];
    while i > 0
      invariant 0 <= i < |shape| == |strides|
      invariant forall j :: i <= j < |shape| ==> strides[j] == Size(shape[j + 1..])
    {
      assert shape[i..][1..] == shape[i + 1..];
      strides := strides[i - 1 := strides[i] * shape[i]];
      i := i - 1;
    }
  }

  method Product(shape: seq<nat>) returns (p: nat)
    ensures p == Size(shape)
  {
    p := 1;
    for i := 0 to |shape|
      invariant p == Size(shape[..i])
    {
      SizeSnoc(shape, i);
      p := p * shape[i];
    }
    assert shape[..|shape|] == shape;
  }
}

/**
 Mixed-radix lattices: the row-major rank of a coordinate in a box, and its inverse.
 The extent of the slowest axis never enters the rank, so an unbounded append axis
 (extent 0) is covered as well.
 */
module Lattice {
  import opened Arith

  /** Number of points of a box. */
  function Size(shape: seq<nat>): nat {
    if shape == [] then 1 else shape[0] * Size(shape[1..])
  }

  predicate AllPositive(shape: seq<nat>) {
    forall i :: 0 <= i < |shape| ==> shape[i] > 0
  }

  predicate InBox(c: seq<nat>, shape: seq<nat>) {
    |c| == |shape| && forall i :: 0 <= i < |c| ==> c[i] < shape[i]
  }

  /** Inside the box on every axis but possibly the slowest one. */
  predicate InTail(c: seq<nat>, shape: seq<nat>) {
    |c| == |shape| && forall i :: 1 <= i < |c| ==> c[i] < shape[i]
  }

  /** Row-major rank, the last axis being the fastest. */
  function Rank(c: seq<nat>, shape: seq<nat>): nat
    requires |c| == |shape|
  {
    if c == [] then 0 else c[0] * Size(shape[1..]) + Rank(c[1..], shape[1..])
  }

  /** Coordinate with a given row-major rank; the slowest axis takes whatever is left. */
  function Unrank(k: nat, shape: seq<nat>): (c: seq<nat>)
    requires |shape| > 0 ==> AllPositive(shape[1..])
    ensures |c| == |shape|
  {
    if shape == [] then [] else
      SizePositive(shape[1..]);
      [Row(k, Size(shape[1..]))] + Unrank(Col(k, Size(shape[1..])), shape[1..])
  }

  lemma {:induction false} SizePositive(shape: seq<nat>)
    requires AllPositive(shape)
    ensures Size(shape) > 0
  {
    if shape != [] {
      SizePositive(shape[1..]);
      MulPos(shape[0], Size(shape[1..]));
    }
  }

  lemma {:induction false} RankBound(c: seq<nat>, shape: seq<nat>)
    requires InBox(c, shape)
    ensures Rank(c, shape) < Size(shape)
  {
    if c != [] {
      RankBound(c[1..], shape[1..]);
      BelowProduct(c[0], shape[0], Rank(c[1..], shape[1..]), Size(shape[1..]));
    }
  }

  /** The head of a rank is its quotient, the rest its remainder. */
  lemma RankHead(c: seq<nat>, shape: seq<nat>)
    requires |c| > 0 && InTail(c, shape)
    ensures Size(shape[1..]) > 0
    ensures Row(Rank(c, shape), Size(shape[1..])) == c[0]
    ensures Col(Rank(c, shape), Size(shape[1..])) == Rank(c[1..], shape[1..])
  {
    RankBound(c[1..], shape[1..]);
    RowColOf(c[0], Size(shape[1..]), Rank(c[1..], shape[1..]));
  }

  /** Unranking inverts ranking. */
  lemma {:induction false} UnrankRank(c: seq<nat>, shape: seq<nat>)
    requires InTail(c, shape)
    ensures |shape| > 0 ==> AllPositive(shape[1..])
    ensures Unrank(Rank(c, shape), shape) == c
  {
    if c != [] {
      RankHead(c, shape);
      UnrankRank(c[1..], shape[1..]);
    }
  }

  /** Ranking inverts unranking, and the coordinate found lies in the box exactly when the rank does. */
  lemma {:induction false} RankUnrank(k: nat, shape: seq<nat>)
    requires |shape| > 0 && AllPositive(shape[1..])
    ensures InTail(Unrank(k, shape), shape)
    ensures Rank(Unrank(k, shape), shape) == k
    ensures k < Size(shape) <==> InBox(Unrank(k, shape), shape)
  {
    var rest := shape[1..];
    SizePositive(rest);
    var m := Size(rest);
    RowColDiv(k, m);
    DivLess(k, shape[0], m);
    var c := Unrank(k, shape);
    if rest == [] {
    } else {
      RankUnrank(Col(k, m), rest);
      assert c[1..] == Unrank(Col(k, m), rest);
      assert forall i :: 1 <= i < |c| ==> c[i] == c[1..][i - 1] && shape[i] == rest[i - 1];
    }
  }

  /** One digit of a rank, by the stride formula the source uses. */
  lemma {:induction false} UnrankAt(k: nat, shape: seq<nat>, i: nat)
    requires i < |shape| && AllPositive(shape[1..])
    ensures Size(shape[i + 1..]) > 0
    ensures i == 0 ==> Unrank(k, shape)[i] == k / Size(shape[1..])
    ensures i > 0 ==> Unrank(k, shape)[i] == k / Size(shape[i + 1..]) % shape[i]
  {
    SizePositive(shape[i + 1..]);
    SizePositive(shape[1..]);
    RowColDiv(k, Size(shape[1..]));
    if i > 0 {
      var rest := shape[1..];
      var m := k % Size(rest);
      assert rest[i..] == shape[i + 1..];
      UnrankAt(m, rest, i - 1);
      assert Unrank(k, shape)[i] == Unrank(m, rest)[i - 1];
      TailDigit(k, rest, i - 1);
    }
  }

  /** A digit inside the box depends on the rank only modulo the box. */
  lemma TailDigit(k: nat, shape: seq<nat>, i: nat)
    requires i < |shape| && AllPositive(shape)
    ensures Size(shape[i + 1..]) > 0 && Size(shape) > 0
    ensures k / Size(shape[i + 1..]) % shape[i] == k % Size(shape) / Size(shape[i + 1..]) % shape[i]
    ensures i == 0 ==> k / Size(shape[i + 1..]) % shape[i] == k % Size(shape) / Size(shape[i + 1..])
  {
    var inner, a, outer := Size(shape[i + 1..]), shape[i], Size(shape[..i]);
    SizePositive(shape[i + 1..]);
    SizePositive(shape);
    SizePositive(shape[..i]);
    SizeSplit(shape, i);
    assert shape[i..][1..] == shape[i + 1..];
    assert Size(shape) == outer * (a * inner);
    MulPos(a, outer);
    assert outer * (a * inner) == inner * (a * outer) by { MulRotate(outer, a, inner); }
    DivDiv(k, inner, a * outer);
    DivDiv(k / inner, a, outer);
  }

  lemma {:induction false} SizeSplit(shape: seq<nat>, i: nat)
    requires i <= |shape|
    ensures Size(shape) == Size(shape[..i]) * Size(shape[i..])
  {
    if i == 0 {
      assert shape[..0] == [] && shape[0..] == shape;
    } else {
      SizeSplit(shape[1..], i - 1);
      assert shape[1..][i - 1..] == shape[i..];
      assert shape[..i][1..] == shape[1..][..i - 1];
      assert shape[..i][0] == shape[0];
      MulAssoc(shape[0], Size(shape[1..][..i - 1]), Size(shape[i..]));
    }
  }

  /** A rank splits at any axis. */
  lemma {:induction false} RankSplit(c: seq<nat>, shape: seq<nat>, i: nat)
    requires |c| == |shape| && i <= |c|
    ensures Rank(c, shape) == Rank(c[..i], shape[..i]) * Size(shape[i..]) + Rank(c[i..], shape[i..])
  {
    if i == 0 {
      assert c[..0] == [] && c[0..] == c && shape[0..] == shape;
    } else {
      RankSplit(c[1..], shape[1..], i - 1);
      SizeSplit(shape[1..], i - 1);
      assert c[1..][i - 1..] == c[i..] && shape[1..][i - 1..] == shape[i..];
      assert c[..i][1..] == c[1..][..i - 1] && shape[..i][1..] == shape[1..][..i - 1];
      assert c[..i][0] == c[0];
      var s, t := Size(shape[1..][..i - 1]), Size(shape[i..]);
      var r := Rank(c[1..][..i - 1], shape[1..][..i - 1]);
      assert Rank(c[..i], shape[..i]) == c[0] * s + r;
      Regroup(c[0], s, t, r);
    }
  }

  lemma SizeSnoc(shape: seq<nat>, i: nat)
    requires i < |shape|
    ensures Size(shape[..i + 1]) == Size(shape[..i]) * shape[i]
  {
    SizeSplit(shape[..i + 1], i);
    assert shape[..i + 1][..i] == shape[..i] && shape[..i + 1][i..] == [shape[i]];
    assert Size([shape[i]]) == shape[i];
  }

  lemma SizeStep(shape: seq<nat>, i: nat)
    requires i < |shape|
    ensures Size(shape[i..]) == shape[i] * Size(shape[i + 1..])
  {
    assert shape[i..][1..] == shape[i + 1..];
  }

  lemma RankStep(c: seq<nat>, shape: seq<nat>, i: nat)
    requires i < |c| == |shape|
    ensures Rank(c[i..], shape[i..]) == c[i] * Size(shape[i + 1..]) + Rank(c[i + 1..], shape[i + 1..])
  {
    assert c[i..][1..] == c[i + 1..] && shape[i..][1..] == shape[i + 1..];
  }
}

/**
 A box cut into equal tiles along every axis, ragged at the far edges.  The same
 construction cuts an array into chunks and the chunk lattice into shards.
 */
module Tiling {
  import opened Arith
  import opened Lattice

  /** Index of the tile that holds each coordinate. */
  function Quotients(c: seq<nat>, tile: seq<nat>): (q: seq<nat>)
    requires |c| == |tile| && AllPositive(tile)
    ensures |q| == |c|
    ensures forall i :: 0 <= i < |c| ==> q[i] == Row(c[i], tile[i])
  {
    if c == [] then [] else [Row(c[0], tile[0])] + Quotients(c[1..], tile[1..])
  }

  /** Position inside that tile. */
  function Remainders(c: seq<nat>, tile: seq<nat>): (r: seq<nat>)
    requires |c| == |tile| && AllPositive(tile)
    ensures |r| == |c|
    ensures forall i :: 0 <= i < |c| ==> r[i] == Col(c[i], tile[i])
  {
    if c == [] then [] else [Col(c[0], tile[0])] + Remainders(c[1..], tile[1..])
  }

  /** The coordinate at position `r` of tile `q`. */
  function Combine(q: seq<nat>, tile: seq<nat>, r: seq<nat>): (c: seq<nat>)
    requires |q| == |tile| == |r|
    ensures |c| == |q|
    ensures forall i :: 0 <= i < |q| ==> c[i] == q[i] * tile[i] + r[i]
  {
    if q == [] then [] else [q[0] * tile[0] + r[0]] + Combine(q[1..], tile[1..], r[1..])
  }

  /** Number of tiles along each axis. */
  function Counts(extent: seq<nat>, tile: seq<nat>): (n: seq<nat>)
    requires |extent| == |tile| && AllPositive(tile)
    ensures |n| == |extent|
    ensures forall i :: 0 <= i < |n| ==> n[i] == CeilDiv(extent[i], tile[i])
  {
    if extent == [] then [] else [CeilDiv(extent[0], tile[0])] + Counts(extent[1..], tile[1..])
  }

  lemma {:induction false} SplitCombine(c: seq<nat>, tile: seq<nat>)
    requires |c| == |tile| && AllPositive(tile)
    ensures Combine(Quotients(c, tile), tile, Remainders(c, tile)) == c
    ensures InBox(Remainders(c, tile), tile)
  {
    if c != [] {
      SplitCombine(c[1..], tile[1..]);
      RowColDiv(c[0], tile[0]);
    }
  }

  lemma {:induction false} CombineSplit(q: seq<nat>, tile: seq<nat>, r: seq<nat>)
    requires |q| == |tile| && InBox(r, tile)
    ensures AllPositive(tile)
    ensures Quotients(Combine(q, tile, r), tile) == q
    ensures Remainders(Combine(q, tile, r), tile) == r
  {
    if q != [] {
      CombineSplit(q[1..], tile[1..], r[1..]);
      RowColOf(q[0], tile[0], r[0]);
    }
  }

  /** A coordinate of the box lies in one of the counted tiles. */
  lemma QuotientsInCounts(c: seq<nat>, extent: seq<nat>, tile: seq<nat>)
    requires |tile| == |extent| && AllPositive(tile) && InTail(c, extent)
    ensures InTail(Quotients(c, tile), Counts(extent, tile))
  {
    forall i | 1 <= i < |c| ensures Row(c[i], tile[i]) < CeilDiv(extent[i], tile[i]) {
      RowColDiv(c[i], tile[i]);
      CeilDivOf(c[i], extent[i], tile[i]);
    }
  }

  lemma CountsPositive(extent: seq<nat>, tile: seq<nat>)
    requires |tile| == |extent| > 0 && AllPositive(tile) && AllPositive(extent[1..])
    ensures AllPositive(Counts(extent, tile)[1..])
  {
    var n := Counts(extent, tile);
    forall i | 1 <= i < |extent| ensures n[i] > 0 {
      assert extent[i] == extent[1..][i - 1];
      CeilDivOf(0, extent[i], tile[i]);
    }
  }

  lemma QuotientTail(c: seq<nat>, d: seq<nat>, tile: seq<nat>)
    requires |c| == |d| == |tile| > 0 && AllPositive(tile)
    requires c[1..] == d[1..] && d[0] == 0
    ensures Quotients(c, tile)[1..] == Quotients(d, tile)[1..]
    ensures Quotients(d, tile)[0] == 0
  {
  }
}

/** Permutations of axes, and what they do to sizes, ranks and coordinates. */
module Permutation {
  import opened Arith
  import opened Lattice

  predicate Distinct(s: seq<nat>) {
    forall i, j :: 0 <= i < j < |s| ==> s[i] != s[j]
  }

  /** Every position 0..|p| named exactly once. */
  predicate IsPermutation(p: seq<nat>) {
    (forall i :: 0 <= i < |p| ==> p[i] < |p|) && Distinct(p)
  }

  /** Axis `j` of the result is axis `p[j]` of `c`. */
  function Permute(c: seq<nat>, p: seq<nat>): (d: seq<nat>)
    requires |c| == |p| && IsPermutation(p)
    ensures |d| == |c|
    ensures forall j :: 0 <= j < |d| ==> d[j] == c[p[j]]
  {
    seq(|p|, j requires 0 <= j < |p| => c[p[j]])
  }

  predicate Inverse(p: seq<nat>, q: seq<nat>) {
    |p| == |q| && IsPermutation(p) && IsPermutation(q)
    && forall j :: 0 <= j < |p| ==> q[p[j]] == j
  }

  function Elements(s: seq<nat>): (e: set<nat>)
    ensures forall x :: x in e <==> x in s
    ensures Distinct(s) ==> |e| == |s|
  {
    if s == [] then {} else
      assert s == s[..|s| - 1] + [s[|s| - 1]];
      Elements(s[..|s| - 1]) + {s[|s| - 1]}
  }

  function Below(n: nat): (e: set<nat>)
    ensures forall x: nat :: x in e <==> x < n
    ensures |e| == n
  {
    if n == 0 then {} else Below(n - 1) + {n - 1}
  }

  lemma SubsetOfSameSize<T>(a: set<T>, b: set<T>)
    requires a <= b && |a| == |b|
    ensures a == b
  {
    if x :| x in b && x !in a {
      assert a <= b - {x};
      SubsetSize(a, b - {x});
    }
  }

  lemma {:induction false} SubsetSize<T>(a: set<T>, b: set<T>)
    requires a <= b
    ensures |a| <= |b|
  {
    if x :| x in a {
      SubsetSize(a - {x}, b - {x});
    }
  }

  /** A permutation misses nothing. */
  lemma Onto(p: seq<nat>, x: nat)
    requires IsPermutation(p) && x < |p|
    ensures x in p
  {
    SubsetOfSameSize(Elements(p), Below(|p|));
  }

  lemma InverseSymmetric(p: seq<nat>, q: seq<nat>)
    requires Inverse(p, q)
    ensures Inverse(q, p)
  {
    forall i | 0 <= i < |p| ensures p[q[i]] == i {
      Onto(p, i);
      var j :| 0 <= j < |p| && p[j] == i;
    }
  }

  lemma PermuteInverse(c: seq<nat>, p: seq<nat>, q: seq<nat>)
    requires Inverse(p, q) && |c| == |p|
    ensures Permute(Permute(c, p), q) == c
  {
    InverseSymmetric(p, q);
  }

  /** Taking an axis out divides the size by its extent. */
  lemma {:induction false} SizeWithout(shape: seq<nat>, j: nat)
    requires j < |shape|
    ensures Size(shape) == shape[j] * Size(shape[..j] + shape[j + 1..])
  {
    if j == 0 {
      assert shape[..0] + shape[1..] == shape[1..];
    } else {
      var t := shape[1..];
      SizeWithout(t, j - 1);
      assert t[..j - 1] + t[j..] == (shape[..j] + shape[j + 1..])[1..];
      MulSwap(shape[0], shape[j], Size(t[..j - 1] + t[j..]));
    }
  }

  lemma MulSwap(a: int, b: int, c: int)
    ensures a * (b * c) == b * (a * c)
  {
  }

  /** A permutation without its largest element. */
  lemma WithoutLargest(p: seq<nat>, j: nat)
    requires IsPermutation(p) && j < |p| && p[j] == |p| - 1
    ensures IsPermutation(p[..j] + p[j + 1..])
  {
    var p' := p[..j] + p[j + 1..];
    assert forall i :: 0 <= i < |p'| ==> p'[i] == p[if i < j then i else i + 1];
  }

  lemma PermuteWithout(shape: seq<nat>, p: seq<nat>, j: nat)
    requires |shape| == |p| && IsPermutation(p) && j < |p| && p[j] == |p| - 1
    ensures IsPermutation(p[..j] + p[j + 1..])
    ensures Permute(shape, p)[..j] + Permute(shape, p)[j + 1..] == Permute(shape[..|p| - 1], p[..j] + p[j + 1..])
  {
    WithoutLargest(p, j);
  }

  /** Permuting the axes keeps the number of points. */
  lemma {:induction false} SizePermute(shape: seq<nat>, p: seq<nat>)
    requires |shape| == |p| && IsPermutation(p)
    ensures Size(Permute(shape, p)) == Size(shape)
    decreases |p|
  {
    if p != [] {
      var m := |p| - 1;
      Onto(p, m);
      var j :| 0 <= j < |p| && p[j] == m;
      PermuteWithout(shape, p, j);
      SizePermute(shape[..m], p[..j] + p[j + 1..]);
      SizeWithout(Permute(shape, p), j);
      SizeWithout(shape, m);
      assert shape[..m] + shape[m + 1..] == shape[..m];
    }
  }

  /** Renumber linear ids of a box when its axes are permuted. */
  function Renumber(k: nat, shape: seq<nat>, p: seq<nat>): nat
    requires |shape| == |p| > 0 && IsPermutation(p) && AllPositive(shape[1..])
  {
    Rank(Permute(Unrank(k, shape), p), Permute(shape, p))
  }

  predicate FixesAppendAxis(p: seq<nat>) {
    |p| > 0 && IsPermutation(p) && p[0] == 0
  }

  lemma PermutedTail(shape: seq<nat>, p: seq<nat>)
    requires |shape| == |p| && FixesAppendAxis(p) && AllPositive(shape[1..])
    ensures AllPositive(Permute(shape, p)[1..])
    ensures forall c | InTail(c, shape) :: InTail(Permute(c, p), Permute(shape, p))
    ensures Permute(shape, p)[0] == shape[0]
  {
    var d := Permute(shape, p);
    forall i | 1 <= i < |d| ensures d[i] > 0 {
      assert p[0] != p[i];
      assert d[i] == shape[1..][p[i] - 1];
    }
    forall c | InTail(c, shape) ensures InTail(Permute(c, p), d) {
      forall i | 1 <= i < |d| ensures c[p[i]] < d[i] {
        assert p[0] != p[i];
      }
    }
  }

  /** The tail of the permutation, renumbered to start at 0. */
  function Shifted(p: seq<nat>): (t: seq<nat>)
    requires FixesAppendAxis(p)
    ensures |t| == |p| - 1 && forall i :: 0 <= i < |t| ==> t[i] == p[i + 1] - 1
    ensures IsPermutation(t)
  {
    assert forall i :: 1 <= i < |p| ==> p[0] != p[i];
    seq(|p| - 1, i requires 0 <= i < |p| - 1 => p[i + 1] - 1)
  }

  lemma PermuteShifted(c: seq<nat>, p: seq<nat>)
    requires |c| == |p| && FixesAppendAxis(p)
    ensures Permute(c, p)[0] == c[0]
    ensures Permute(c, p)[1..] == Permute(c[1..], Shifted(p))
  {
    assert forall i :: 1 <= i < |p| ==> p[0] != p[i];
  }

  /** The append index survives renumbering; the rest is renumbered among the inner axes. */
  lemma RenumberSplits(k: nat, shape: seq<nat>, p: seq<nat>)
    requires |shape| == |p| && FixesAppendAxis(p) && AllPositive(shape[1..])
    ensures var inner := Size(shape[1..]);
            && inner > 0
            && Size(Permute(shape, p)[1..]) == inner
            && Renumber(k, shape, p) / inner == k / inner
            && (|shape| > 1 ==>
                 AllPositive(shape[2..])
                 && Renumber(k, shape, p) == k / inner * inner + Renumber(k % inner, shape[1..], Shifted(p)))
            && (|shape| == 1 ==> Renumber(k, shape, p) == k)
  {
    var inner := Size(shape[1..]);
    SizePositive(shape[1..]);
    var c, d := Unrank(k, shape), Permute(shape, p);
    RankUnrank(k, shape);
    PermutedTail(shape, p);
    PermuteShifted(shape, p);
    PermuteShifted(c, p);
    SizePermute(shape[1..], Shifted(p));
    RankHead(Permute(c, p), d);
    RowColDiv(k, inner);
    RowColDiv(Renumber(k, shape, p), inner);
    if |shape| > 1 {
      assert shape[1..][1..] == shape[2..];
    }
  }

  /** Renumbering is a bijection: the inverse permutation renumbers back. */
  lemma RenumberInverse(k: nat, shape: seq<nat>, p: seq<nat>, q: seq<nat>)
    requires |shape| == |p| && FixesAppendAxis(p) && Inverse(p, q) && AllPositive(shape[1..])
    ensures FixesAppendAxis(q) && AllPositive(Permute(shape, p)[1..])
    ensures Renumber(Renumber(k, shape, p), Permute(shape, p), q) == k
  {
    InverseSymmetric(p, q);
    assert q[p[0]] == 0;
    PermutedTail(shape, p);
    RankUnrank(k, shape);
    var c, d := Unrank(k, shape), Permute(shape, p);
    assert InTail(Permute(c, p), d);
    UnrankRank(Permute(c, p), d);
    PermuteInverse(c, p, q);
    PermuteInverse(shape, p, q);
  }
}

/** Facts about products, quotients and remainders that the lattice arithmetic needs. */
module Arith {

  /** How many parts of size `part` cover `size` units (src/streaming/zarr.common.cpp, parts_along_dimension). */
  function CeilDiv(size: nat, part: nat): nat
    requires part > 0
  {
    if size == 0 then 0 else if size <= part then 1 else 1 + CeilDiv(size - part, part)
  }

  /** The program's formula. */
  lemma CeilDivIs(size: nat, part: nat)
    requires part > 0
    ensures CeilDiv(size, part) == (size + part - 1) / part
  {
    CeilDivCovers(size, part);
    var n := CeilDiv(size, part);
    assert (n * part) + (size + part - 1 - n * part) == size + part - 1;
    DivModUnique(n, part, size + part - 1 - n * part);
  }

  /** They cover it, with less than one part to spare. */
  lemma {:induction false} CeilDivCovers(size: nat, part: nat)
    requires part > 0
    ensures size <= CeilDiv(size, part) * part < size + part
  {
    if size > part {
      CeilDivCovers(size - part, part);
      var n := CeilDiv(size - part, part);
      assert (1 + n) * part == part + n * part;
    }
  }

  lemma MulMono(a: nat, b: nat, c: nat)
    requires a <= b
    ensures a * c <= b * c
  {
  }

  lemma BelowProduct(a: nat, b: nat, r: nat, d: nat)
    requires a < b && r < d
    ensures a * d + r < b * d
  {
    MulMono(a + 1, b, d);
    assert (a + 1) * d == a * d + d;
  }

  lemma MulPos(a: nat, b: nat)
    requires a > 0 && b > 0
    ensures a * b > 0
  {
  }

  lemma MulAssoc(a: int, b: int, c: int)
    ensures a * b * c == a * (b * c)
  {
  }

  lemma MulRotate(a: int, b: int, c: int)
    ensures a * (b * c) == c * (b * a)
  {
  }

  lemma Regroup(a: int, s: int, t: int, r: int)
    ensures (a * s + r) * t == a * (s * t) + r * t
  {
  }

  /** Euclidean division is the only way to write `q * d + r` with `r < d`. */
  lemma DivModUnique(q: int, d: nat, r: nat)
    requires r < d
    ensures (q * d + r) / d == q
    ensures (q * d + r) % d == r
  {
    var k := q * d + r;
    var q' := k / d;
    var r' := k % d;
    assert k == q' * d + r';
    assert (q - q') * d == r' - r;
    if q > q' {
      MulMono(1, q - q', d);
    } else if q < q' {
      assert (q' - q) * d == r - r';
      MulMono(1, q' - q, d);
    }
  }

  lemma DivModDef(k: nat, d: nat)
    requires d > 0
    ensures k == k / d * d + k % d
    ensures k % d < d
    ensures k / d >= 0
  {
  }

  /** `x` lies below `q * d` exactly when its quotient lies below `q`. */
  lemma DivLess(x: nat, q: nat, d: nat)
    requires d > 0
    ensures x / d < q <==> x < q * d
  {
    DivModDef(x, d);
    if x / d < q {
      MulMono(x / d + 1, q, d);
    } else {
      MulMono(q, x / d, d);
    }
  }

  /** The numbers with quotient `q` are the range from `q * d` to `(q + 1) * d`. */
  lemma DivRange(x: nat, q: nat, d: nat)
    requires d > 0
    ensures q * d <= x < (q + 1) * d <==> x / d == q
    ensures forall a: nat :: q < a ==> (q + 1) * d <= a * d
  {
    DivLess(x, q, d);
    DivLess(x, q + 1, d);
    forall a: nat | q < a ensures (q + 1) * d <= a * d {
      MulMono(q + 1, a, d);
    }
  }

  lemma MulDivCancel(a: nat, b: nat)
    requires a > 0
    ensures a * b / a == b
  {
    DivModUnique(b, a, 0);
  }

  lemma DivMono(x: nat, y: nat, d: nat)
    requires d > 0 && x <= y
    ensures x / d <= y / d
  {
    DivModDef(x, d);
    DivModDef(y, d);
    if x / d > y / d {
      MulMono(y / d + 1, x / d, d);
    }
  }

  lemma DivDiv(k: nat, a: nat, b: nat)
    requires a > 0 && b > 0
    ensures a * b > 0
    ensures k / a / b == k / (a * b)
    ensures k % (a * b) == k / a % b * a + k % a
    ensures k % (a * b) / a == k / a % b
    ensures k % (a * b) % a == k % a
  {
    var q, r := k / a, k % a;
    var q2, r2 := q / b, q % b;
    DivModDef(k, a);
    DivModDef(q, b);
    DivDivParts(a, b, q2, r2, r);
  }

  lemma DivDivParts(a: nat, b: nat, q: nat, r2: nat, r: nat)
    requires r < a && r2 < b
    ensures a * b > 0
    ensures ((q * b + r2) * a + r) / (a * b) == q
    ensures ((q * b + r2) * a + r) % (a * b) == r2 * a + r
    ensures (r2 * a + r) / a == r2 && (r2 * a + r) % a == r
  {
    MulPos(a, b);
    Regroup(q, b, a, r2);
    assert q * (b * a) == q * (a * b);
    MulMono(r2 + 1, b, a);
    DivModUnique(q, a * b, r2 * a + r);
    DivModUnique(r2, a, r);
  }

  lemma SameQuotient(x: nat, y: nat, n: nat, c: nat)
    requires n > 0 && c > 0 && x / n == y / n
    ensures c * n > 0 && x / (c * n) == y / (c * n)
  {
    assert c * n == n * c;
    DivDiv(x, n, c);
    DivDiv(y, n, c);
  }

  lemma CeilDivOf(x: nat, size: nat, part: nat)
    requires part > 0 && x < size
    ensures x / part < CeilDiv(size, part)
  {
    CeilDivCovers(size, part);
    DivLess(x, CeilDiv(size, part), part);
  }

  /** The least number of parts that cover `size`. */
  lemma CeilDivLeast(size: nat, part: nat, n: nat)
    requires part > 0 && size <= n * part
    ensures CeilDiv(size, part) <= n
  {
    CeilDivCovers(size, part);
    if CeilDiv(size, part) > n {
      MulMono(n, CeilDiv(size, part) - 1, part);
    }
  }

  /** The only cover with less than one part to spare. */
  lemma CeilDivUnique(size: nat, part: nat, n: nat)
    requires part > 0 && size <= n * part < size + part
    ensures CeilDiv(size, part) == n
  {
    CeilDivLeast(size, part, n);
    CeilDivCovers(size, part);
    var m := CeilDiv(size, part);
    if m < n {
      MulMono(m + 1, n, part);
    }
  }

  /** Quotient and remainder by counting down: `Row(x, d) == x / d` and `Col(x, d) == x % d`. */
  function Row(x: nat, d: nat): nat
    requires d > 0
  {
    if x < d then 0 else 1 + Row(x - d, d)
  }

  function Col(x: nat, d: nat): (c: nat)
    requires d > 0
    ensures c < d
  {
    if x < d then x else Col(x - d, d)
  }

  lemma {:induction false} RowColOf(r: nat, d: nat, c: nat)
    requires c < d
    ensures Row(r * d + c, d) == r && Col(r * d + c, d) == c
  {
    if r > 0 {
      assert r * d + c == (r - 1) * d + c + d;
      RowColOf(r - 1, d, c);
    }
  }

  lemma RowColDiv(x: nat, d: nat)
    requires d > 0
    ensures Row(x, d) == x / d && Col(x, d) == x % d
    ensures x == Row(x, d) * d + Col(x, d)
  {
    DivModDef(x, d);
    RowColOf(x / d, d, x % d);
  }

  lemma RowBound(x: nat, q: nat, d: nat)
    requires d > 0 && x < q * d
    ensures Row(x, d) < q && x == Row(x, d) * d + Col(x, d)
  {
    RowColDiv(x, d);
    DivLess(x, q, d);
  }

  /** The numbers of row `p`. */
  lemma RowRange(x: nat, p: nat, d: nat, start: nat)
    requires d > 0 && start == p * d
    ensures start <= x < start + d ==> Row(x, d) == p && Col(x, d) == x - start
  {
    if start <= x < start + d {
      RowColOf(p, d, x - start);
    }
  }

  /** The next number is in the same row, or starts the next one. */
  lemma RowNext(n: nat, d: nat)
    requires d > 0
    ensures if Col(n, d) + 1 == d then Row(n + 1, d) == Row(n, d) + 1 && Col(n + 1, d) == 0
            else Row(n + 1, d) == Row(n, d) && Col(n + 1, d) == Col(n, d) + 1
  {
    RowColDiv(n, d);
    if Col(n, d) + 1 == d {
      assert n + 1 == (Row(n, d) + 1) * d + 0;
      RowColOf(Row(n, d) + 1, d, 0);
    } else {
      RowColOf(Row(n, d), d, Col(n, d) + 1);
    }
  }

  lemma LastStep(a: nat, n: nat, d: nat)
    requires a < n
    ensures a * d + d <= n * d
  {
    MulMono(a + 1, n, d);
  }

  lemma MulShuffle(a: int, b: int, c: int, d: int)
    ensures a * b * (c * d) == a * c * (b * d)
  {
    assert a * b * (c * d) == a * (b * (c * d));
    assert b * (c * d) == c * (b * d);
  }
}
