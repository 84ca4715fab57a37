/**
 What was acquired is what is stored: the pixel acquired at a coordinate of the acquisition order is read
 back at the coordinate with its axes reordered, rows and columns included.
 */
module AcquiredPixels {
  import opened Arith
  import opened Lattice
  import opened Bytes
  import opened Grid
  import opened Dimensions
  import opened Permutation
  import opened Transposition
  import opened Acquisition
  import opened ChunkContent
  import opened RegularGrid
  import opened Wrappers
  import opened Closing

  /** Axes as they are acquired, and the storage position of each storage axis in them. */
  ghost function AcquisitionDims(t: Mapping, dims: seq<Dim>): seq<Dim> {
    if t.None? then dims else t.value.acquisitionDims
  }

  ghost function StorageCoord(t: Mapping, dims: seq<Dim>, e: seq<nat>): seq<nat>
    requires ValidMapping(t, dims) && |e| == |dims|
  {
    if t.None? then e else Permute(e, t.value.storageToAcq)
  }

  /** The frame a pixel is acquired in, and its bytes in that frame. */
  ghost function AcquiredFrame(t: Mapping, dims: seq<Dim>, e: seq<nat>): nat
    requires ValidMapping(t, dims) && |e| == |dims|
  {
    Rank(e[..|e| - 2], FrameSizes(AcquisitionDims(t, dims)))
  }

  function AcquiredByte(t: Mapping, g: Geo, e: seq<nat>, b: nat): nat
    requires |e| == |g.dims| >= 2 && (t.Some? ==> |t.value.acquisitionDims| == |g.dims|)
  {
    PixelByte(e[|e| - 2], AcquisitionCols(t, g.dims), e[|e| - 1], g.bpp, b)
  }

  /** A coordinate of the acquisition order inside the array. */
  ghost predicate Acquirable(t: Mapping, dims: seq<Dim>, e: seq<nat>)
    requires ValidMapping(t, dims)
  {
    InTail(e, ArraySizes(AcquisitionDims(t, dims)))
  }

  lemma StorageCoordInArray(t: Mapping, dims: seq<Dim>, e: seq<nat>)
    requires ValidMapping(t, dims) && Acquirable(t, dims, e)
    ensures InArray(dims, StorageCoord(t, dims, e))
  {
    if t.Some? {
      var order, c := t.value.storageToAcq, StorageCoord(t, dims, e);
      forall i | 1 <= i < |c| ensures c[i] < dims[i].size {
        assert order[0] != order[i];
      }
    }
  }

  /** The storage frame of the pixel. */
  lemma StorageFrameOf(t: Mapping, dims: seq<Dim>, e: seq<nat>)
    requires ValidMapping(t, dims) && Acquirable(t, dims, e)
    ensures FrameIdAt(dims, StorageCoord(t, dims, e)) == StorageId(t, dims, AcquiredFrame(t, dims, e))
  {
    if t.Some? {
      var m := t.value;
      var acq, order, n := m.acquisitionDims, m.storageToAcq, |dims|;
      var d := e[..n - 2];
      FrameSizesPositive(acq);
      assert InTail(d, FrameSizes(acq));
      UnrankRank(d, FrameSizes(acq));
      assert Permute(e, order)[..n - 2] == Permute(d, FrameOrder(order));
      PermutedFrameSizes(acq, dims, order);
    }
  }

  /** The last two coordinates, in storage and as acquired. */
  ghost predicate LastTwo(t: Mapping, g: Geo, e: seq<nat>, c: seq<nat>)
    requires |g.dims| >= 2
  {
    var n := |g.dims|;
    && |e| == |c| == n && (t.Some? ==> |t.value.acquisitionDims| == n)
    && if NeedsXyTransposition(t, n) then
         c[n - 2] == e[n - 1] < AcquisitionCols(t, g.dims) && c[n - 1] == e[n - 2] < AcquisitionRows(t, g.dims) == g.FrameCols()
       else
         c[n - 2] == e[n - 2] < g.FrameRows() && c[n - 1] == e[n - 1] < g.FrameCols() == AcquisitionCols(t, g.dims)
  }

  lemma LastTwoOf(t: Mapping, g: Geo, e: seq<nat>)
    requires g.Valid() && ValidMapping(t, g.dims) && Acquirable(t, g.dims, e)
    ensures LastTwo(t, g, e, StorageCoord(t, g.dims, e))
  {
    if t.Some? {
      LastTwoAxes(t, |g.dims|);
      LastTwoMoved(t, g, e, StorageCoord(t, g.dims, e), t.value.storageToAcq, t.value.acquisitionDims);
    }
  }

  lemma LastTwoMoved(t: Mapping, g: Geo, e: seq<nat>, c: seq<nat>, p: seq<nat>, acq: seq<Dim>)
    requires t.Some? && acq == t.value.acquisitionDims && |acq| == |g.dims| == |e| == |c| == |p| >= 2
    requires var n := |p|;
             && (if NeedsXyTransposition(t, n) then p[n - 2] == n - 1 && p[n - 1] == n - 2
                 else p[n - 2] == n - 2 && p[n - 1] == n - 1)
             && g.dims[n - 2] == acq[p[n - 2]] && g.dims[n - 1] == acq[p[n - 1]]
             && c[n - 2] == e[p[n - 2]] && c[n - 1] == e[p[n - 1]]
             && e[n - 2] < acq[n - 2].size && e[n - 1] < acq[n - 1].size
    ensures LastTwo(t, g, e, c)
  {
  }

  /** The last two axes: swapped exactly when frames are. */
  lemma LastTwoAxes(t: Mapping, n: nat)
    requires t.Some? && n >= 2 && |t.value.acqToStorage| == n && KeepsFrameAxes(t.value.storageToAcq)
    requires Inverse(t.value.storageToAcq, t.value.acqToStorage)
    ensures var p := t.value.storageToAcq;
            if NeedsXyTransposition(t, n) then p[n - 2] == n - 1 && p[n - 1] == n - 2
            else p[n - 2] == n - 2 && p[n - 1] == n - 1
  {
    if NeedsXyTransposition(t, n) {
      LastTwoSwapped(t.value, n);
    } else {
      LastTwoKept(t.value, n);
    }
  }

  /** The byte of a stored frame: the frame's own if rows and columns stay, the swapped one if they do not. */
  lemma StoredByte(t: Mapping, g: Geo, form: Form, frame: seq<Byte>, e: seq<nat>, c: seq<nat>, b: nat)
    requires g.Valid() && Forms(t, g, form) && LastTwo(t, g, e, c) && b < g.bpp && |frame| == g.FrameBytes()
    ensures ByteInFrame(g, c, b) < |frame| && AcquiredByte(t, g, e, b) < |frame| && |form(frame)| == |frame|
    ensures form(frame)[ByteInFrame(g, c, b)] == frame[AcquiredByte(t, g, e, b)]
  {
    var n := |g.dims|;
    if NeedsXyTransposition(t, n) {
      XyPixel(frame, AcquisitionRows(t, g.dims), AcquisitionCols(t, g.dims), g.bpp, e[n - 1], e[n - 2], b);
    } else {
      PixelInside(c[n - 2], g.FrameRows(), c[n - 1], g.FrameCols(), b, g.bpp);
    }
  }

  /** Row `y`, column `x` of the stored frame comes from row `x`, column `y` of the acquired one. */
  lemma XyPixel(frame: seq<Byte>, rows: nat, cols: nat, bpp: nat, y: nat, x: nat, b: nat)
    requires x < rows && y < cols && b < bpp && |frame| == rows * cols * bpp
    ensures PixelByte(y, rows, x, bpp, b) < |frame| && PixelByte(x, cols, y, bpp, b) < |frame|
    ensures XySwapped(frame, rows, cols, bpp)[PixelByte(y, rows, x, bpp, b)] == frame[PixelByte(x, cols, y, bpp, b)]
  {
    PixelInside(y, cols, x, rows, b, bpp);
    PixelInside(x, rows, y, cols, b, bpp);
    Products(rows, cols, bpp);
    SwappedPixel(y, x, rows, cols, b, bpp, PixelByte(y, rows, x, bpp, b), y * rows + x);
  }

  lemma Products(rows: int, cols: int, bpp: int)
    ensures bpp * cols * rows == rows * cols * bpp && bpp * rows * cols == rows * cols * bpp
  {
  }

  lemma PixelInside(y: nat, rows: nat, x: nat, cols: nat, b: nat, bpp: nat)
    requires y < rows && x < cols && b < bpp
    ensures PixelByte(y, cols, x, bpp, b) < bpp * rows * cols
  {
    var pixel: nat, pixels: nat := y * cols + x, rows * cols;
    BelowProduct(y, rows, x, cols);
    BelowProduct(pixel, pixels, b, bpp);
    ThreeFactors(bpp, rows, cols);
    assert cols * rows == rows * cols;
  }

  lemma LastTwoSwapped(m: TranspositionMap, n: nat)
    requires n >= 2 && |m.acqToStorage| == n && Inverse(m.storageToAcq, m.acqToStorage)
    requires m.acqToStorage[n - 2] == n - 1 && m.acqToStorage[n - 1] == n - 2
    ensures m.storageToAcq[n - 2] == n - 1 && m.storageToAcq[n - 1] == n - 2
  {
    InverseSymmetric(m.storageToAcq, m.acqToStorage);
  }

  /** The frame axes are permuted among themselves, so the last two are too. */
  lemma LastTwoKept(m: TranspositionMap, n: nat)
    requires n >= 2 && |m.acqToStorage| == n && Inverse(m.storageToAcq, m.acqToStorage) && KeepsFrameAxes(m.storageToAcq)
    requires !(m.acqToStorage[n - 2] == n - 1 && m.acqToStorage[n - 1] == n - 2)
    ensures m.storageToAcq[n - 2] == n - 2 && m.storageToAcq[n - 1] == n - 1
  {
    var p, q := m.storageToAcq, m.acqToStorage;
    InverseSymmetric(p, q);
    FrameInverse(p, q);
    assert p[q[n - 2]] == n - 2 && p[q[n - 1]] == n - 1;
    assert q[n - 2] >= n - 2 && q[n - 1] >= n - 2;
  }

  lemma SwappedPixel(y: nat, x: nat, rows: nat, cols: nat, b: nat, bpp: nat, o: nat, pixel: nat)
    requires x < rows && y < cols && b < bpp
    requires pixel == y * rows + x && o == pixel * bpp + b
    ensures SwappedIndex(o, rows, cols, bpp) == PixelByte(x, cols, y, bpp, b)
  {
    RowColOf(pixel, bpp, b);
    RowColOf(y, rows, x);
  }

  /** The pixel acquired at `e`, in the `f`-th frame, is stored at coordinate `c`; kept closed. */
  ghost predicate StoredAt(t: Mapping, dims: seq<Dim>, place: Numbering, e: seq<nat>, c: seq<nat>, f: nat) {
    forall x {:trigger Look(x)} :: Look(x) ==>
      && ValidMapping(t, dims) && place == NumberingOf(t, dims) && Acquirable(t, dims, e)
      && c == StorageCoord(t, dims, e) && f == AcquiredFrame(t, dims, e)
  }

  lemma StoredAtMeans(t: Mapping, g: Geo, place: Numbering, e: seq<nat>, c: seq<nat>, f: nat)
    requires g.Valid() && StoredAt(t, g.dims, place, e, c, f)
    ensures InArray(g.dims, c) && FrameIdAt(g.dims, c) == place(f) && LastTwo(t, g, e, c)
  {
    assert Look(0);
    StorageCoordInArray(t, g.dims, e);
    StorageFrameOf(t, g.dims, e);
    LastTwoOf(t, g, e);
  }
}

/**
 The bytes of a chunk are the regular grid of the Zarr core specification v3: element `r` of chunk `q`
 is the array element at coordinate `q * chunk + r`, in row-major order inside the chunk.
 */
module RegularGrid {
  import opened Arith
  import opened Lattice
  import opened Tiling
  import opened Bytes
  import opened Grid
  import opened Dimensions
  import opened ShardTables
  import opened ChunkContent

  /** Chunk of a coordinate, and position in that chunk. */
  function ChunkAt(dims: seq<Dim>, c: seq<nat>): (q: seq<nat>)
    requires ValidDims(dims) && |c| == |dims|
    ensures |q| == |dims|
  {
    GridPositive(dims);
    Quotients(c, ChunkSizes(dims))
  }

  function PositionAt(dims: seq<Dim>, c: seq<nat>): (r: seq<nat>)
    requires ValidDims(dims) && |c| == |dims|
    ensures |r| == |dims|
  {
    GridPositive(dims);
    Remainders(c, ChunkSizes(dims))
  }

  /** Byte `b` of the element at a coordinate, in its chunk. */
  function ByteOffset(dims: seq<Dim>, bpp: nat, c: seq<nat>, b: nat): nat
    requires ValidDims(dims) && |c| == |dims|
  {
    var element: nat := Rank(PositionAt(dims, c), ChunkSizes(dims));
    element * bpp + b
  }

  /** The same byte in the frames: frame axes ranked, then row, column and byte. */
  function FrameIdAt(dims: seq<Dim>, c: seq<nat>): nat
    requires ValidDims(dims) && |c| == |dims|
  {
    Rank(c[..|dims| - 2], ArraySizes(FrameDims(dims)))
  }

  function ByteInFrame(g: Geo, c: seq<nat>, b: nat): nat
    requires g.Valid() && |c| == |g.dims|
  {
    PixelByte(c[|c| - 2], g.FrameCols(), c[|c| - 1], g.bpp, b)
  }

  /** Byte `b` of the pixel at row `y`, column `x` of a frame of `cols` columns. */
  function PixelByte(y: nat, cols: nat, x: nat, bpp: nat, b: nat): nat {
    var pixel: nat := y * cols + x;
    pixel * bpp + b
  }

  /** A coordinate inside the array (the append axis is open). */
  predicate InArray(dims: seq<Dim>, c: seq<nat>) {
    InTail(c, ArraySizes(dims))
  }

  lemma RankLastTwo(c: seq<nat>, shape: seq<nat>, m: nat)
    requires |c| == |shape| == m + 2
    ensures Rank(c, shape) == Rank(c[..m], shape[..m]) * (shape[m] * shape[m + 1]) + (c[m] * shape[m + 1] + c[m + 1])
  {
    RankSplit(c, shape, m);
    SizeOfLastTwo(shape, shape[m], shape[m + 1]);
    RankOfTwo(c[m..], shape[m..]);
  }

  lemma RankOfTwo(c: seq<nat>, shape: seq<nat>)
    requires |c| == |shape| == 2
    ensures Rank(c, shape) == c[0] * shape[1] + c[1]
  {
    assert c[1..] == [c[1]] && shape[1..] == [shape[1]];
    assert Size([shape[1]]) == shape[1] * Size([]);
    assert Rank([c[1]], [shape[1]]) == c[1] * Size([]) + Rank([], []);
  }

  /** Slot of a chunk: its group, and its tile in the frame. */
  lemma SlotSplit(q: seq<nat>, counts: seq<nat>, m: nat, tilesY: nat, tilesX: nat, tiles: nat)
    requires |q| == |counts| == m + 2 && m >= 1
    requires counts[m] == tilesY && counts[m + 1] == tilesX && tiles == tilesY * tilesX
    requires q[m] < tilesY && q[m + 1] < tilesX
    ensures tiles > 0 && tilesX > 0
    ensures var slot := Rank(q[1..], counts[1..]);
            && Row(slot, tiles) == Rank(q[1..m], counts[1..m])
            && Row(Col(slot, tiles), tilesX) == q[m]
            && Col(Col(slot, tiles), tilesX) == q[m + 1]
  {
    MulPos(tilesY, tilesX);
    RankLastTwo(q[1..], counts[1..], m - 1);
    assert q[1..][..m - 1] == q[1..m] && counts[1..][..m - 1] == counts[1..m];
    BelowProduct(q[m], tilesY, q[m + 1], tilesX);
    var tile: nat := q[m] * tilesX + q[m + 1];
    RowColOf(Rank(q[1..m], counts[1..m]), tiles, tile);
    RowColOf(q[m], tilesX, q[m + 1]);
  }

  lemma SlotAt(g: Geo, q: seq<nat>, group: nat)
    requires g.Valid() && InTail(q, ChunkCounts(g.dims))
    requires group == Rank(q[1..|q| - 2], ChunkCounts(FrameDims(g.dims))[1..])
    ensures var n, slot := |q|, SlotOf(g.dims, q);
            && g.Tiles() > 0 && g.TilesX() > 0
            && Row(slot, g.Tiles()) == group
            && Row(Col(slot, g.Tiles()), g.TilesX()) == q[n - 2]
            && Col(Col(slot, g.Tiles()), g.TilesX()) == q[n - 1]
  {
    FrameAxesOf(g.dims);
    var m, counts := |q| - 2, ChunkCounts(g.dims);
    assert counts[1..m] == counts[..m][1..];
    SlotSplit(q, counts, m, g.TilesY(), g.TilesX(), g.Tiles());
  }

  /** Byte of a chunk: its plane, its row of the tile, its column of the row. */
  lemma ByteSplit(r: seq<nat>, tile: seq<nat>, m: nat, b: nat, bpp: nat, rowBytes: nat, tileBytes: nat, o: nat,
                  plane: nat, planes: nat)
    requires |r| == |tile| == m + 2 && InBox(r, tile) && b < bpp
    requires rowBytes == tile[m + 1] * bpp && tileBytes == tile[m] * rowBytes
    requires o == Rank(r, tile) * bpp + b && plane == Rank(r[..m], tile[..m]) && planes == Size(tile[..m])
    ensures tileBytes > 0 && rowBytes > 0 && o < planes * tileBytes
    ensures Row(o, tileBytes) == plane
    ensures Row(Col(o, tileBytes), rowBytes) == r[m]
    ensures Col(Col(o, tileBytes), rowBytes) == r[m + 1] * bpp + b
  {
    RankLastTwo(r, tile, m);
    RankBound(r[..m], tile[..m]);
    ByteParts(Rank(r[..m], tile[..m]), Size(tile[..m]), r[m], tile[m], r[m + 1], tile[m + 1], b, bpp);
  }

  lemma ByteAt(g: Geo, c: seq<nat>, b: nat, r: seq<nat>, o: nat, plane: nat)
    requires g.Valid() && |c| == |g.dims| && b < g.bpp
    requires r == PositionAt(g.dims, c) && o == ByteOffset(g.dims, g.bpp, c, b)
    requires plane == Rank(r[..|c| - 2], ChunkSizes(FrameDims(g.dims)))
    ensures var n := |c|;
            && g.TileBytes() > 0 && g.TileRowBytes() > 0
            && Row(o, g.TileBytes()) == plane
            && Row(Col(o, g.TileBytes()), g.TileRowBytes()) == r[n - 2]
            && Col(Col(o, g.TileBytes()), g.TileRowBytes()) == r[n - 1] * g.bpp + b
            && o < g.ChunkBytes()
  {
    PositionInTile(g.dims, c);
    PrefixSizes(g.dims, |c| - 2);
    TileBytesAre(g);
    ByteSplit(r, ChunkSizes(g.dims), |c| - 2, b, g.bpp, g.TileRowBytes(), g.TileBytes(), o, plane, PlaneCount(g.dims));
  }

  lemma TileBytesAre(g: Geo)
    requires |g.dims| >= 2
    ensures g.TileBytes() == g.TileRows() * g.TileRowBytes()
  {
    MulCycle(g.bpp, g.TileCols(), g.TileRows());
  }

  lemma PositionInTile(dims: seq<Dim>, c: seq<nat>)
    requires ValidDims(dims) && |c| == |dims|
    ensures InBox(PositionAt(dims, c), ChunkSizes(dims))
  {
    GridPositive(dims);
    SplitCombine(c, ChunkSizes(dims));
  }

  lemma ByteParts(plane: nat, planes: nat, y: nat, rows: nat, x: nat, cols: nat, b: nat, bpp: nat)
    requires plane < planes && y < rows && x < cols && b < bpp
    ensures var o := (plane * (rows * cols) + (y * cols + x)) * bpp + b;
            && cols * bpp > 0 && rows * (cols * bpp) > 0
            && 0 <= o < planes * (rows * (cols * bpp))
            && Row(o, rows * (cols * bpp)) == plane
            && Row(Col(o, rows * (cols * bpp)), cols * bpp) == y
            && Col(Col(o, rows * (cols * bpp)), cols * bpp) == x * bpp + b
  {
    MulPos(cols, bpp);
    MulPos(rows, cols * bpp);
    BelowProduct(x, cols, b, bpp);
    var col: nat := x * bpp + b;
    BelowProduct(y, rows, col, cols * bpp);
    var inTile: nat := y * (cols * bpp) + col;
    BelowProduct(plane, planes, inTile, rows * (cols * bpp));
    ByteSum(plane, y, rows, x, cols, b, bpp);
    RowColOf(plane, rows * (cols * bpp), inTile);
    RowColOf(y, cols * bpp, col);
  }

  lemma ByteSum(plane: int, y: int, rows: int, x: int, cols: int, b: int, bpp: int)
    ensures (plane * (rows * cols) + (y * cols + x)) * bpp + b
            == plane * (rows * (cols * bpp)) + (y * (cols * bpp) + (x * bpp + b))
  {
    Distribute(plane * (rows * cols), y * cols + x, bpp);
    Distribute(y * cols, x, bpp);
    MulAssoc(y, cols, bpp);
    MulAssoc(rows, cols, bpp);
    MulAssoc(plane, rows * cols, bpp);
  }

  /** The place of the element's frame. */
  lemma PlaceAt(g: Geo, c: seq<nat>, q: seq<nat>, r: seq<nat>, group: nat, plane: nat)
    requires g.Valid() && InArray(g.dims, c) && q == ChunkAt(g.dims, c) && r == PositionAt(g.dims, c)
    requires group == Rank(q[1..|c| - 2], ChunkCounts(FrameDims(g.dims))[1..])
    requires plane == Rank(r[..|c| - 2], ChunkSizes(FrameDims(g.dims)))
    ensures var p := Place(q[0], group, plane); HasFrame(g.dims, p) && FrameAt(g.dims, p) == FrameIdAt(g.dims, c)
  {
    var f, m := FrameDims(g.dims), |c| - 2;
    GridPositive(g.dims);
    FramePositive(g.dims);
    PrefixSizes(g.dims, m);
    PrefixOfParts(c, ChunkSizes(g.dims), m);
    assert InTail(c[..m], ArraySizes(f));
    assert q[..m][1..] == q[1..m];
    FrameOfCoord(g.dims, c[..m], Place(q[0], group, plane), q[..m], r[..m]);
  }

  lemma PrefixOfParts(c: seq<nat>, tile: seq<nat>, m: nat)
    requires |c| == |tile| && m <= |c| && AllPositive(tile)
    ensures AllPositive(tile[..m])
    ensures Quotients(c, tile)[..m] == Quotients(c[..m], tile[..m])
    ensures Remainders(c, tile)[..m] == Remainders(c[..m], tile[..m])
  {
    assert forall i :: 0 <= i < m ==> tile[..m][i] == tile[i] && c[..m][i] == c[i];
  }

  lemma FrameOfCoord(dims: seq<Dim>, d: seq<nat>, p: Place, q: seq<nat>, r: seq<nat>)
    requires ValidDims(dims) && InTail(d, ArraySizes(FrameDims(dims))) && AllPositive(ChunkSizes(FrameDims(dims)))
    requires q == Quotients(d, ChunkSizes(FrameDims(dims))) && r == Remainders(d, ChunkSizes(FrameDims(dims)))
    requires |q| > 0 && p == Place(q[0], Rank(q[1..], ChunkCounts(FrameDims(dims))[1..]), Rank(r, ChunkSizes(FrameDims(dims))))
    ensures PlaceCoord(dims, p) == d
  {
    FramePositive(dims);
    var f := FrameDims(dims);
    QuotientsInCounts(d, ArraySizes(f), ChunkSizes(f));
    SplitCombine(d, ChunkSizes(f));
    PartsBack(q, ChunkCounts(f), r, ChunkSizes(f));
  }

  /** Quotients and remainders are found again from their ranks. */
  lemma PartsBack(q: seq<nat>, counts: seq<nat>, r: seq<nat>, tile: seq<nat>)
    requires |q| > 0 && InTail(q, counts) && InBox(r, tile)
    ensures |counts| > 1 ==> AllPositive(counts[1..][1..])
    ensures |tile| > 0 ==> AllPositive(tile[1..])
    ensures [q[0]] + Unrank(Rank(q[1..], counts[1..]), counts[1..]) == q
    ensures Unrank(Rank(r, tile), tile) == r
  {
    assert forall i :: 1 <= i < |q[1..]| ==> q[1..][i] == q[i + 1] < counts[i + 1] == counts[1..][i];
    UnrankRank(q[1..], counts[1..]);
    UnrankRank(r, tile);
  }

  /**
   The grid: byte `b` of the array element at `c` lies in slot `SlotOf(q)` of layer `q[0]`, at the
   row-major position of `r`, and is the byte of that element in its frame.
   */
  lemma ContentIsElement(g: Geo, frames: Frames, c: seq<nat>, b: nat)
    requires g.Valid() && InArray(g.dims, c) && b < g.bpp
    ensures var q, o := ChunkAt(g.dims, c), ByteOffset(g.dims, g.bpp, c, b);
            && o < g.ChunkBytes()
            && ContentByte(g, frames, q[0], SlotOf(g.dims, q), o) == FrameByte(frames, FrameIdAt(g.dims, c), ByteInFrame(g, c, b))
  {
    var q, r, n, o := ChunkAt(g.dims, c), PositionAt(g.dims, c), |c|, ByteOffset(g.dims, g.bpp, c, b);
    var group := Rank(q[1..n - 2], ChunkCounts(FrameDims(g.dims))[1..]);
    var plane := Rank(r[..n - 2], ChunkSizes(FrameDims(g.dims)));
    ChunkInGrid(g.dims, c);
    SlotAt(g, q, group);
    ByteAt(g, c, b, r, o, plane);
    PlaceAt(g, c, q, r, group, plane);
    ElementInFrame(c[n - 2], g.FrameRows(), g.TileRows(), c[n - 1], g.FrameCols(), g.TileCols(), b, g.bpp,
                   g.RowBytes(), g.TileRowBytes());
    ByteFromParts(g, frames, q[0], SlotOf(g.dims, q), o, group, q[n - 2], q[n - 1], plane, r[n - 2], r[n - 1] * g.bpp + b,
                  c[n - 2], c[n - 1] * g.bpp + b);
  }

  lemma ChunkInGrid(dims: seq<Dim>, c: seq<nat>)
    requires ValidDims(dims) && InArray(dims, c)
    ensures InTail(ChunkAt(dims, c), ChunkCounts(dims))
  {
    GridPositive(dims);
    QuotientsInCounts(c, ArraySizes(dims), ChunkSizes(dims));
  }

  /** One byte of the content, once slot and offset are taken apart. */
  lemma ByteFromParts(g: Geo, frames: Frames, layer: nat, slot: nat, o: nat, group: nat, tileY: nat, tileX: nat,
                      plane: nat, row: nat, col: nat, y: nat, x: nat)
    requires g.Valid() && g.Tiles() > 0 && g.TilesX() > 0 && g.TileBytes() > 0 && g.TileRowBytes() > 0
    requires o < g.ChunkBytes()
    requires Row(slot, g.Tiles()) == group && Row(o, g.TileBytes()) == plane
    requires Row(Col(slot, g.Tiles()), g.TilesX()) == tileY && Col(Col(slot, g.Tiles()), g.TilesX()) == tileX
    requires Row(Col(o, g.TileBytes()), g.TileRowBytes()) == row && Col(Col(o, g.TileBytes()), g.TileRowBytes()) == col
    requires tileY * g.TileRows() + row == y < g.FrameRows()
    requires tileX * g.TileRowBytes() + col == x < g.RowBytes()
    requires HasFrame(g.dims, Place(layer, group, plane))
    ensures ContentByte(g, frames, layer, slot, o)
            == FrameByte(frames, FrameAt(g.dims, Place(layer, group, plane)), y * g.RowBytes() + x)
  {
    assert PlaceOf(g, layer, slot, o) == Place(layer, group, plane);
    assert FrameRow(g, Col(slot, g.Tiles()), Col(o, g.TileBytes())) == y;
    assert FrameColumn(g, Col(slot, g.Tiles()), Col(o, g.TileBytes())) == x;
  }

  /** Row and byte column of the element in its frame. */
  lemma ElementInFrame(y: nat, rows: nat, tileRows: nat, x: nat, cols: nat, tileCols: nat, b: nat, bpp: nat,
                       rowBytes: nat, tileRowBytes: nat)
    requires tileRows > 0 && tileCols > 0 && y < rows && x < cols && b < bpp
    requires rowBytes == cols * bpp && tileRowBytes == tileCols * bpp
    ensures Row(y, tileRows) * tileRows + Col(y, tileRows) == y
    ensures Row(x, tileCols) * tileRowBytes + (Col(x, tileCols) * bpp + b) == x * bpp + b < rowBytes
    ensures y * rowBytes + (x * bpp + b) == (y * cols + x) * bpp + b
  {
    RowColDiv(y, tileRows);
    ElementColumn(Row(x, tileCols), tileCols, Col(x, tileCols), bpp, x, b, cols);
    ElementByte(y, cols, x, bpp, b);
  }

  lemma ElementColumn(q: nat, w: nat, r: nat, bpp: nat, x: nat, b: nat, cols: nat)
    requires w > 0 && q == Row(x, w) && r == Col(x, w) && x < cols && b < bpp
    ensures q * (w * bpp) + (r * bpp + b) == x * bpp + b < cols * bpp
  {
    RowColDiv(x, w);
    MulAssoc(q, w, bpp);
    Distribute(q * w, r, bpp);
    BelowProduct(x, cols, b, bpp);
  }

  lemma ElementByte(y: int, cols: int, x: int, bpp: int, b: int)
    ensures y * (cols * bpp) + (x * bpp + b) == (y * cols + x) * bpp + b
  {
    MulAssoc(y, cols, bpp);
    Distribute(y * cols, x, bpp);
  }
}
