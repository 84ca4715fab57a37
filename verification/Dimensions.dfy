/**
 The array geometry object (src/streaming/array.dimensions.cpp, class ArrayDimensions): stride
 formulas and lookup tables, each proved to compute the placement that module Grid states.
 */
module Dimensions {
  import opened Arith
  import opened Lattice
  import opened Tiling
  import opened Grid
  import opened Strides

  /** Chunk lattice coordinate of a chunk id. */
  function ChunkCoord(dims: seq<Dim>, chunkIndex: nat): (q: seq<nat>)
    requires ValidDims(dims)
    ensures |q| == |dims| && InTail(q, ChunkCounts(dims))
  {
    GridPositive(dims);
    RankUnrank(chunkIndex, ChunkCounts(dims));
    Unrank(chunkIndex, ChunkCounts(dims))
  }

  /** One axis of a mixed-radix index: `k % strides[i-1] / strides[i]`. */
  lemma DigitByStrides(k: nat, shape: seq<nat>, i: nat)
    requires 0 < i < |shape| && AllPositive(shape[1..])
    ensures Size(shape[i + 1..]) > 0 && Size(shape[i..]) > 0
    ensures k % Size(shape[i..]) / Size(shape[i + 1..]) == Unrank(k, shape)[i]
  {
    UnrankAt(k, shape, i);
    SizeStep(shape, i);
    assert shape[i] == shape[1..][i - 1];
    StrideDigit(k, Size(shape[i + 1..]), shape[i], Size(shape[i..]));
  }

  lemma StrideDigit(k: nat, inner: nat, a: nat, outer: nat)
    requires inner > 0 && a > 0 && outer == a * inner
    ensures outer > 0 && k % outer / inner == k / inner % a
  {
    assert outer == inner * a;
    DivDiv(k, inner, a);
  }

  method ChunkLatticeIndices(dims: seq<Dim>, chunkIndex: nat) returns (strides: seq<nat>, indices: seq<nat>)
    requires ValidDims(dims)
    ensures AreStrides(strides, ChunkCounts(dims))
    ensures |indices| == |dims| && indices[0] == 0
    ensures indices[1..] == ChunkCoord(dims, chunkIndex)[1..]
  {
    GridPositive(dims);
    strides := MakeStrides(ChunkCounts(dims));
    indices := LatticeDigits(chunkIndex, strides, ChunkCounts(dims));
  }

  /** All digits of a rank but the slowest, which stays 0. */
  method LatticeDigits(k: nat, strides: seq<nat>, ghost shape: seq<nat>) returns (indices: seq<nat>)
    requires |shape| > 0 && AllPositive(shape[1..]) && AreStrides(strides, shape)
    ensures |indices| == |shape| && indices[0] == 0
    ensures indices[1..] == Unrank(k, shape)[1..]
  {
    indices := seq(|strides|, i => 0);
    var i := |strides| - 1;
    while i > 0
      invariant 0 <= i < |shape| == |indices|
      invariant indices[0] == 0
      invariant forall j :: i < j < |shape| ==> indices[j] == Unrank(k, shape)[j]
    {
      DigitByStrides(k, shape, i);
      assert strides[i - 1] == Size(shape[i..]);
      indices := indices[i := k % strides[i - 1] / strides[i]];
      i := i - 1;
    }
  }

  method ShardIndexForChunk(dims: seq<Dim>, chunkIndex: nat) returns (index: nat)
    requires ValidDims(dims)
    ensures index == ShardOf(dims, ChunkCoord(dims, chunkIndex))
  {
    var _, chunkLattice := ChunkLatticeIndices(dims, chunkIndex);
    var shardStrides := MakeStrides(ShardCounts(dims));
    var shardLattice := ShardLattice(dims, chunkLattice);
    index := RankByStrides(shardLattice, ShardCounts(dims), shardStrides);
    QuotientTail(ChunkCoord(dims, chunkIndex), chunkLattice, ShardSizes(dims));
  }

  method ShardLattice(dims: seq<Dim>, chunkLattice: seq<nat>) returns (shardLattice: seq<nat>)
    requires ValidDims(dims) && |chunkLattice| == |dims|
    ensures shardLattice == Quotients(chunkLattice, ShardSizes(dims))
  {
    shardLattice := [];
    for i := 0 to |dims|
      invariant |shardLattice| == i
      invariant forall j :: 0 <= j < i ==> shardLattice[j] == Row(chunkLattice[j], dims[j].shard)
    {
      RowColDiv(chunkLattice[i], dims[i].shard);
      shardLattice := shardLattice + [chunkLattice[i] / dims[i].shard];
    }
  }

  method ShardInternalIndex(dims: seq<Dim>, chunkIndex: nat) returns (index: nat)
    requires ValidDims(dims)
    ensures index == InternalOf(dims, ChunkCoord(dims, chunkIndex))
  {
    var chunkStrides, chunkLattice := ChunkLatticeIndices(dims, chunkIndex);
    GridPositive(dims);
    UnrankAt(chunkIndex, ChunkCounts(dims), 0);
    chunkLattice := chunkLattice[0 := chunkIndex / chunkStrides[0]];
    assert chunkLattice == ChunkCoord(dims, chunkIndex) by {
      assert chunkLattice == [chunkLattice[0]] + ChunkCoord(dims, chunkIndex)[1..];
    }
    var internalStrides := MakeStrides(ShardSizes(dims));
    var internal := InternalLattice(dims, chunkLattice);
    index := RankByStrides(internal, ShardSizes(dims), internalStrides);
  }

  method InternalLattice(dims: seq<Dim>, chunkLattice: seq<nat>) returns (internal: seq<nat>)
    requires ValidDims(dims) && |chunkLattice| == |dims|
    ensures internal == Remainders(chunkLattice, ShardSizes(dims))
  {
    internal := [];
    for i := 0 to |dims|
      invariant |internal| == i
      invariant forall j :: 0 <= j < i ==> internal[j] == Col(chunkLattice[j], dims[j].shard)
    {
      RowColDiv(chunkLattice[i], dims[i].shard);
      internal := internal + [chunkLattice[i] % dims[i].shard];
    }
  }

  /** Sum of index times stride, over the axes in order. */
  method RankByStrides(c: seq<nat>, ghost shape: seq<nat>, strides: seq<nat>) returns (index: nat)
    requires |c| == |shape| && AreStrides(strides, shape)
    ensures index == Rank(c, shape)
  {
    index := 0;
    assert c[0..] == c && shape[0..] == shape;
    for i := 0 to |c|
      invariant index + Rank(c[i..], shape[i..]) == Rank(c, shape)
    {
      assert c[i..][1..] == c[i + 1..] && shape[i..][1..] == shape[i + 1..];
      index := index + c[i] * strides[i];
    }
  }

  // ----- Frame addressing --------------------------------------------------------------

  /** Coordinate of a frame on the frame axes. */
  function FrameCoord(dims: seq<Dim>, frameId: nat): (c: seq<nat>)
    requires ValidDims(dims)
    ensures |c| == |dims| - 2
  {
    FramePositive(dims);
    Unrank(frameId, ArraySizes(FrameDims(dims)))
  }

  lemma LatticeDigit(k: nat, a: nat, s: nat, c: nat)
    requires a > 0 && s > 0 && c > 0
    ensures a * s > 0 && c * s > 0
    ensures k % (a * s) / (c * s) == k / s % a / c
    ensures k / (c * s) == k / s / c
  {
    assert a * s == s * a && c * s == s * c;
    DivDiv(k, s, a);
    DivDiv(k % (a * s), s, c);
    DivDiv(k, s, c);
  }

  /** Product of the array sizes of axes `from` up to the row axis. */
  method InnerFrames(dims: seq<Dim>, from: nat) returns (p: nat)
    requires ValidDims(dims) && from <= |dims| - 2
    ensures p == Size(ArraySizes(FrameDims(dims))[from..])
  {
    ghost var sizes := ArraySizes(FrameDims(dims))[from..];
    p := 1;
    for i := from to |dims| - 2
      invariant p == Size(sizes[..i - from])
    {
      SizeSnoc(sizes, i - from);
      p := p * dims[i].size;
    }
    assert sizes[..|sizes|] == sizes;
  }

  /** Coordinate of a frame on one frame axis, by strides. */
  lemma FrameDigit(dims: seq<Dim>, frameId: nat, i: nat)
    requires ValidDims(dims) && i < |dims| - 2
    ensures var inner := Size(ArraySizes(FrameDims(dims))[i + 1..]);
            && inner > 0
            && FrameCoord(dims, frameId)[i] == if i == 0 then frameId / inner else frameId / inner % dims[i].size
  {
    FramePositive(dims);
    UnrankAt(frameId, ArraySizes(FrameDims(dims)), i);
  }

  /** Its chunk there, by the program's formula. */
  lemma FrameChunkDigit(dims: seq<Dim>, frameId: nat, i: nat, inner: nat)
    requires ValidDims(dims) && i < |dims| - 2
    requires inner == Size(ArraySizes(FrameDims(dims))[i + 1..])
    ensures dims[i].chunk * inner > 0 && (i > 0 ==> dims[i].size * inner > 0)
    ensures ChunkDigit(dims, frameId, i)
            == if i == 0 then frameId / (dims[i].chunk * inner)
               else frameId % (dims[i].size * inner) / (dims[i].chunk * inner)
  {
    FrameDigit(dims, frameId, i);
    RowColDiv(FrameCoord(dims, frameId)[i], dims[i].chunk);
    LatticeDigit(frameId, if i == 0 then 1 else dims[i].size, inner, dims[i].chunk);
  }

  /** Chunk coordinate of a frame on one frame axis. */
  function ChunkDigit(dims: seq<Dim>, frameId: nat, i: nat): nat
    requires ValidDims(dims) && i < |dims| - 2
  {
    Row(FrameCoord(dims, frameId)[i], dims[i].chunk)
  }

  method ChunkLatticeIndex(dims: seq<Dim>, frameId: nat, dimIndex: nat) returns (index: nat)
    requires ValidDims(dims) && dimIndex < |dims| - 2
    ensures index == ChunkDigit(dims, frameId, dimIndex)
  {
    var inner := InnerFrames(dims, dimIndex + 1);
    FrameChunkDigit(dims, frameId, dimIndex, inner);
    if dimIndex == 0 {
      index := LatticeHead(frameId, dims[0].chunk, inner);
    } else {
      index := LatticeInner(frameId, dims[dimIndex].size, dims[dimIndex].chunk, inner);
    }
  }

  method LatticeHead(frameId: nat, chunk: nat, inner: nat) returns (index: nat)
    requires chunk * inner > 0
    ensures index == frameId / (chunk * inner)
  {
    var divisor := chunk * inner;
    index := frameId / divisor;
  }

  method LatticeInner(frameId: nat, size: nat, chunk: nat, inner: nat) returns (index: nat)
    requires size * inner > 0 && chunk * inner > 0
    ensures index == frameId % (size * inner) / (chunk * inner)
  {
    var modDivisor, divDivisor := size * inner, chunk * inner;
    index := frameId % modDivisor / divDivisor;
  }

  /** Slots one frame's tiles fill. */
  function TilesPerFrame(dims: seq<Dim>): nat
    requires ValidDims(dims)
  {
    var n := |dims|;
    CeilDiv(dims[n - 2].size, dims[n - 2].chunk) * CeilDiv(dims[n - 1].size, dims[n - 1].chunk)
  }

  lemma SizeOfLastTwo(shape: seq<nat>, a: nat, b: nat)
    requires |shape| >= 2 && shape[|shape| - 2] == a && shape[|shape| - 1] == b
    ensures Size(shape[|shape| - 2..]) == a * b
  {
    var s := shape[|shape| - 2..];
    assert s[1..][1..] == [];
    assert Size(s[1..]) == b * Size(s[1..][1..]);
  }

  lemma FrameAxesOf(dims: seq<Dim>)
    requires ValidDims(dims)
    ensures ChunkCounts(dims)[..|dims| - 2] == ChunkCounts(FrameDims(dims))
    ensures Size(ChunkCounts(dims)[|dims| - 2..]) == TilesPerFrame(dims)
  {
    var n := |dims|;
    PrefixSizes(dims, n - 2);
    CountsPrefix(ArraySizes(dims), ChunkSizes(dims), n - 2);
    SizeOfLastTwo(ChunkCounts(dims), CeilDiv(dims[n - 2].size, dims[n - 2].chunk), CeilDiv(dims[n - 1].size, dims[n - 1].chunk));
  }

  lemma PrefixSizes(dims: seq<Dim>, m: nat)
    requires m <= |dims|
    ensures ArraySizes(dims)[..m] == ArraySizes(dims[..m])
    ensures ChunkSizes(dims)[..m] == ChunkSizes(dims[..m])
  {
    assert forall i :: 0 <= i < m ==> dims[..m][i] == dims[i];
  }

  lemma CountsPrefix(extent: seq<nat>, tile: seq<nat>, m: nat)
    requires |tile| == |extent| && m <= |tile| && AllPositive(tile)
    ensures AllPositive(tile[..m]) && Counts(extent, tile)[..m] == Counts(extent[..m], tile[..m])
  {
    assert forall i :: 0 <= i < m ==> tile[..m][i] == tile[i] && extent[..m][i] == extent[i];
  }

  /** Stride of a frame axis over all axes: its stride over the frame axes, times the last two axes. */
  lemma FrameStride(shape: seq<nat>, m: nat, i: nat)
    requires i < m <= |shape|
    ensures Size(shape[i + 1..]) == Size(shape[..m][i + 1..]) * Size(shape[m..])
  {
    SizeSplit(shape[i + 1..], m - i - 1);
    assert shape[i + 1..][..m - i - 1] == shape[..m][i + 1..];
    assert shape[i + 1..][m - i - 1..] == shape[m..];
  }

  /** Chunk lattice coordinate of a frame on the frame axes, and its position in that chunk. */
  function FrameChunk(dims: seq<Dim>, frameId: nat): (q: seq<nat>)
    requires ValidDims(dims)
    ensures |q| == |dims| - 2
    ensures forall i :: 0 <= i < |q| ==> q[i] == Row(FrameCoord(dims, frameId)[i], dims[i].chunk)
  {
    FramePositive(dims);
    Quotients(FrameCoord(dims, frameId), ChunkSizes(FrameDims(dims)))
  }

  function FramePosition(dims: seq<Dim>, frameId: nat): (r: seq<nat>)
    requires ValidDims(dims)
    ensures |r| == |dims| - 2
    ensures forall i :: 0 <= i < |r| ==> r[i] == Col(FrameCoord(dims, frameId)[i], dims[i].chunk)
  {
    FramePositive(dims);
    Remainders(FrameCoord(dims, frameId), ChunkSizes(FrameDims(dims)))
  }

  /** Rank over the frame axes, scaled: the rank over all axes at tile 0. */
  lemma GroupRank(dims: seq<Dim>, q: seq<nat>, c: seq<nat>)
    requires ValidDims(dims) && |q| == |dims| - 2 && c == q + [0, 0]
    ensures Rank(c[1..], ChunkCounts(dims)[1..]) == Rank(q[1..], ChunkCounts(FrameDims(dims))[1..]) * TilesPerFrame(dims)
  {
    FrameAxesOf(dims);
    var counts, m := ChunkCounts(dims), |dims| - 3;
    RankSplit(c[1..], counts[1..], m);
    assert c[1..][..m] == q[1..] && c[1..][m..] == [0, 0];
    assert counts[1..][..m] == ChunkCounts(FrameDims(dims))[1..];
    assert counts[1..][m..] == counts[|dims| - 2..];
    RankOfZeros(counts[|dims| - 2..]);
  }

  lemma RankOfZeros(shape: seq<nat>)
    requires |shape| == 2
    ensures Rank([0, 0], shape) == 0
  {
    assert [0, 0][1..] == [0];
    assert Rank([0], shape[1..]) == 0;
  }

  method TileGroupOffset(dims: seq<Dim>, frameId: nat) returns (offset: nat)
    requires ValidDims(dims)
    ensures offset == Locate(dims, frameId).group * TilesPerFrame(dims)
  {
    LocateGroup(dims, frameId);
    offset := StrideOffset(dims, frameId);
    GroupRank(dims, FrameChunk(dims, frameId), FrameChunk(dims, frameId) + [0, 0]);
  }

  method StrideOffset(dims: seq<Dim>, frameId: nat) returns (offset: nat)
    requires ValidDims(dims)
    ensures offset == Rank((FrameChunk(dims, frameId) + [0, 0])[1..], ChunkCounts(dims)[1..])
  {
    var strides := MakeStrides(ChunkCounts(dims));
    offset := SumDigits(dims, frameId, strides, ChunkCounts(dims), FrameChunk(dims, frameId) + [0, 0]);
  }

  method SumDigits(dims: seq<Dim>, frameId: nat, strides: seq<nat>, ghost counts: seq<nat>, ghost c: seq<nat>)
    returns (offset: nat)
    requires ValidDims(dims) && |c| == |counts| == |dims| && AreStrides(strides, counts)
    requires c[|dims| - 2..] == [0, 0]
    requires forall i :: 0 <= i < |dims| - 2 ==> c[i] == ChunkDigit(dims, frameId, i)
    ensures offset == Rank(c[1..], counts[1..])
  {
    offset := 0;
    var i := |dims| - 3;
    RankOfZeros(counts[|dims| - 2..]);
    while i > 0
      invariant 0 <= i <= |dims| - 3
      invariant offset == Rank(c[i + 1..], counts[i + 1..])
    {
      var idx := ChunkLatticeIndex(dims, frameId, i);
      RankStep(c, counts, i);
      offset := offset + idx * strides[i];
      i := i - 1;
    }
  }

  lemma LocateLayer(dims: seq<Dim>, frameId: nat)
    requires ValidDims(dims)
    ensures Locate(dims, frameId).layer == ChunkDigit(dims, frameId, 0)
  {
  }

  lemma LocateGroup(dims: seq<Dim>, frameId: nat)
    requires ValidDims(dims)
    ensures var q, counts := FrameChunk(dims, frameId), ChunkCounts(FrameDims(dims));
            |q| == |counts| && Locate(dims, frameId).group == Rank(q[1..], counts[1..])
  {
  }

  /** Rank of a frame among the planes of its chunk, with running strides. */
  method PlaneIndex(dims: seq<Dim>, frameId: nat) returns (plane: nat)
    requires ValidDims(dims)
    ensures plane == Locate(dims, frameId).plane
  {
    LocatePlane(dims, frameId);
    plane := RankPosition(dims, frameId, ArraySizes(FrameDims(dims)), ChunkSizes(FrameDims(dims)), FramePosition(dims, frameId));
  }

  method RankPosition(dims: seq<Dim>, frameId: nat, ghost sizes: seq<nat>, ghost chunks: seq<nat>, ghost r: seq<nat>)
    returns (plane: nat)
    requires ValidDims(dims) && |sizes| == |chunks| == |r| == |dims| - 2
    requires sizes == ArraySizes(FrameDims(dims)) && r == FramePosition(dims, frameId)
    requires forall i :: 0 <= i < |dims| - 2 ==> chunks[i] == dims[i].chunk
    ensures plane == Rank(r, chunks)
  {
    plane := 0;
    var arrayStride, chunkStride := 1, 1;
    var i := |dims| - 3;
    assert sizes[i + 1..] == [] && chunks[i + 1..] == [] && r[i + 1..] == [];
    while i > 0
      invariant 0 <= i <= |dims| - 3
      invariant arrayStride == Size(sizes[i + 1..])
      invariant chunkStride == Size(chunks[i + 1..])
      invariant plane == Rank(r[i + 1..], chunks[i + 1..])
    {
      var internalIdx := InternalDigit(dims, frameId, i, arrayStride);
      SizeStep(sizes, i);
      SizeStep(chunks, i);
      RankStep(r, chunks, i);
      plane := plane + internalIdx * chunkStride;
      arrayStride := dims[i].size * arrayStride;
      chunkStride := dims[i].chunk * chunkStride;
      i := i - 1;
    }
    var internalIdx := InternalDigit(dims, frameId, 0, arrayStride);
    RankStep(r, chunks, 0);
    plane := plane + internalIdx * chunkStride;
    assert r[0..] == r && chunks[0..] == chunks;
  }

  lemma LocatePlane(dims: seq<Dim>, frameId: nat)
    requires ValidDims(dims)
    ensures Locate(dims, frameId).plane == Rank(FramePosition(dims, frameId), ChunkSizes(FrameDims(dims)))
  {
  }

  /** Position in its chunk of a frame on one frame axis. */
  method InternalDigit(dims: seq<Dim>, frameId: nat, i: nat, stride: nat) returns (internalIdx: nat)
    requires ValidDims(dims) && i < |dims| - 2
    requires stride == Size(ArraySizes(FrameDims(dims))[i + 1..])
    ensures internalIdx == FramePosition(dims, frameId)[i]
  {
    FrameDigit(dims, frameId, i);
    RowColDiv(FrameCoord(dims, frameId)[i], dims[i].chunk);
    if i == 0 {
      internalIdx := frameId / stride % dims[0].chunk;
    } else {
      internalIdx := frameId / stride % dims[i].size % dims[i].chunk;
    }
  }

  method ChunkInternalOffset(dims: seq<Dim>, frameId: nat, bytesPerPixel: nat) returns (offset: nat)
    requires ValidDims(dims)
    ensures offset == Locate(dims, frameId).plane * (bytesPerPixel * dims[|dims| - 1].chunk * dims[|dims| - 2].chunk)
  {
    var tileSize: nat := bytesPerPixel * dims[|dims| - 1].chunk * dims[|dims| - 2].chunk;
    var plane := PlaneIndex(dims, frameId);
    offset := plane * tileSize;
  }
}
