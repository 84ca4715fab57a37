/**
 The promise on memory (src/streaming/acquire.zarr.cpp, ZarrStreamSettings_estimate_max_memory_usage): what
 the stream reports is never more than what was estimated from its settings.

 The report has three parts: the frames in the queue, one frame buffer for each array, and the chunk buffers of
 each array.  The queue holds as many frames as its budget allows for the largest frame.  The chunk buffers
 are those of one layer of chunks, or of one band of it where bands apply; the estimate multiplies extents
 padded to whole chunks, so it is these buffers' size exactly, before its factors for compression and levels.
 */
module Memory {
  import opened Arith
  import opened Lattice
  import opened Tiling
  import opened Bytes
  import opened Grid
  import opened Dimensions
  import opened Permutation
  import opened ChunkContent
  import opened ArraySpec
  import opened FrameQueues
  import opened Transposition
  import opened StreamArray

  /** Axes in acquisition order; whether a storage order, compression, a pyramid were asked for. */
  datatype ArraySettings = ArraySettings(dims: seq<Dim>, bpp: nat, reordered: bool, compressed: bool, multiscale: bool)

  predicate ValidSettings(a: ArraySettings) {
    ValidDims(a.dims) && a.bpp > 0
  }

  const QUEUE_BYTES: nat := 256 * 1024 * 1024

  function AtLeast(lo: nat, x: nat): nat { if x < lo then lo else x }
  function AtMost(hi: nat, x: nat): nat { if x > hi then hi else x }

  /** Frames the queue has room for. */
  function FrameCount(maxFrame: nat): nat
    requires maxFrame > 0
  {
    AtLeast(16, AtMost(512, QUEUE_BYTES / maxFrame))
  }

  /** From 16 to 512 frames: as many as fit into 256 MiB, within these bounds. */
  lemma FrameCountIs(maxFrame: nat)
    requires maxFrame > 0
    ensures var n := FrameCount(maxFrame);
            && 16 <= n <= 512
            && (n > 16 ==> n * maxFrame <= 268435456) && (n < 512 ==> (n + 1) * maxFrame > 268435456)
  {
    var q := QUEUE_BYTES / maxFrame;
    DivModDef(QUEUE_BYTES, maxFrame);
    var n := FrameCount(maxFrame);
    if n > 16 {
      MulMono(n, q, maxFrame);
    }
    if n < 512 {
      MulMono(q + 1, n + 1, maxFrame);
    }
  }

  function FrameBytesOf(a: ArraySettings): nat
    requires |a.dims| >= 2
  {
    a.bpp * a.dims[|a.dims| - 2].size * a.dims[|a.dims| - 1].size
  }

  predicate EstimatesBand(a: ArraySettings) {
    |a.dims| >= 4 && a.dims[0].chunk == 1 && !a.reordered
  }

  /** Extent of axis `j` held in memory, in pixels. */
  function HeldExtent(a: ArraySettings, j: nat): nat
    requires ValidDims(a.dims) && 1 <= j < |a.dims|
  {
    if EstimatesBand(a) && j == 1 then a.dims[j].chunk else CeilDiv(a.dims[j].size, a.dims[j].chunk) * a.dims[j].chunk
  }

  function HeldExtents(a: ArraySettings): (s: seq<nat>)
    requires ValidDims(a.dims)
    ensures |s| == |a.dims| - 1
  {
    seq(|a.dims| - 1, j requires 0 <= j < |a.dims| - 1 => HeldExtent(a, j + 1))
  }

  /** Bytes of the chunk buffers the array can hold at once. */
  function ChunkBytesHeld(a: ArraySettings): nat
    requires ValidDims(a.dims)
  {
    var first: nat := a.bpp * a.dims[0].chunk;
    first * Size(HeldExtents(a))
  }

  function ArrayUsage(a: ArraySettings): nat
    requires ValidDims(a.dims)
  {
    ChunkBytesHeld(a) * (if a.compressed then 2 else 1) * (if a.multiscale then 2 else 1)
  }

  function MaxFrame(arrays: seq<ArraySettings>): nat
    requires forall i :: 0 <= i < |arrays| ==> |arrays[i].dims| >= 2
  {
    if arrays == [] then 0
    else AtLeast(MaxFrame(arrays[..|arrays| - 1]), FrameBytesOf(arrays[|arrays| - 1]))
  }

  /** The largest frame is one of them, and none is larger. */
  lemma {:induction false} MaxFrameIs(arrays: seq<ArraySettings>)
    requires forall i :: 0 <= i < |arrays| ==> |arrays[i].dims| >= 2
    ensures forall i :: 0 <= i < |arrays| ==> FrameBytesOf(arrays[i]) <= MaxFrame(arrays)
    ensures arrays != [] ==> exists i :: 0 <= i < |arrays| && FrameBytesOf(arrays[i]) == MaxFrame(arrays)
  {
    if arrays != [] {
      var last := |arrays| - 1;
      var init := arrays[..last];
      MaxFrameIs(init);
      assert forall i :: 0 <= i < last ==> init[i] == arrays[i];
      if MaxFrame(arrays) == FrameBytesOf(arrays[last]) || init == [] {
        assert FrameBytesOf(arrays[last]) == MaxFrame(arrays);
      } else {
        var i :| 0 <= i < last && FrameBytesOf(init[i]) == MaxFrame(init);
        assert FrameBytesOf(arrays[i]) == MaxFrame(arrays);
      }
    }
  }

  predicate AllValid(arrays: seq<ArraySettings>) {
    forall i :: 0 <= i < |arrays| ==> |arrays[i].dims| >= 2 && ValidSettings(arrays[i])
  }

  function ArraysUsage(arrays: seq<ArraySettings>): nat
    requires AllValid(arrays)
  {
    if arrays == [] then 0
    else ArraysUsage(arrays[..|arrays| - 1]) + FrameBytesOf(arrays[|arrays| - 1]) + ArrayUsage(arrays[|arrays| - 1])
  }

  /** Bytes the full queue can hold. */
  function QueueUsage(maxFrame: nat): nat {
    if maxFrame > 0 then FrameCount(maxFrame) * maxFrame else 0
  }

  method ArrayUsageOf(a: ArraySettings) returns (usage: nat)
    requires ValidSettings(a)
    ensures usage == ArrayUsage(a)
  {
    usage := a.bpp * a.dims[0].chunk;
    ghost var first: nat, extents := usage, HeldExtents(a);
    for j := 1 to |a.dims|
      invariant usage == first * Size(extents[..j - 1])
    {
      SizeSnoc(extents, j - 1);
      MulAssoc(first, Size(extents[..j - 1]), extents[j - 1]);
      usage := usage * HeldExtent(a, j);
    }
    assert extents[..|extents|] == extents;
    if a.compressed {
      usage := usage * 2;
    }
    if a.multiscale {
      usage := usage * 2;
    }
  }

  method EstimateMaxMemoryUsage(arrays: seq<ArraySettings>) returns (usage: nat)
    requires AllValid(arrays)
    ensures usage == QueueUsage(MaxFrame(arrays)) + ArraysUsage(arrays)
  {
    var maxFrame := 0;
    for i := 0 to |arrays|
      invariant maxFrame == MaxFrame(arrays[..i])
    {
      assert arrays[..i + 1][..i] == arrays[..i];
      maxFrame := AtLeast(maxFrame, FrameBytesOf(arrays[i]));
    }
    assert arrays[..|arrays|] == arrays;
    usage := 0;
    if maxFrame > 0 {
      usage := FrameCount(maxFrame) * maxFrame;
    }
    ghost var queue := usage;
    for i := 0 to |arrays|
      invariant usage == queue + ArraysUsage(arrays[..i])
    {
      assert arrays[..i + 1][..i] == arrays[..i];
      var arrayUsage := ArrayUsageOf(arrays[i]);
      usage := usage + FrameBytesOf(arrays[i]) + arrayUsage;
    }
  }

  // ----- One array -----------------------------------------------------------------------------------

  /** Elementwise product of two shapes. */
  function Times(a: seq<nat>, b: seq<nat>): (r: seq<nat>)
    requires |a| == |b|
    ensures |r| == |a| && forall i :: 0 <= i < |a| ==> r[i] == a[i] * b[i]
  {
    if a == [] then [] else [a[0] * b[0]] + Times(a[1..], b[1..])
  }

  lemma {:induction false} SizeOfTimes(a: seq<nat>, b: seq<nat>)
    requires |a| == |b|
    ensures Size(Times(a, b)) == Size(a) * Size(b)
  {
    if a != [] {
      SizeOfTimes(a[1..], b[1..]);
      MulShuffle(a[0], b[0], Size(a[1..]), Size(b[1..]));
    }
  }

  /** Bytes of a chunk: pixels of a chunk times bytes of a pixel. */
  lemma ChunkBytesAre(g: Geo)
    requires g.Valid()
    ensures g.ChunkBytes() == Size(ChunkSizes(g.dims)) * g.bpp
  {
    var n := |g.dims|;
    SizeSplit(ChunkSizes(g.dims), n - 2);
    PrefixSizes(g.dims, n - 2);
    SizeOfLastTwo(ChunkSizes(g.dims), g.TileRows(), g.TileCols());
    ChunkProduct(PlaneCount(g.dims), g.bpp, g.TileCols(), g.TileRows());
  }

  lemma ChunkProduct(planes: int, bpp: int, cols: int, rows: int)
    ensures planes * (bpp * cols * rows) == planes * (rows * cols) * bpp
  {
    assert bpp * cols * rows == rows * cols * bpp;
    assert planes * (rows * cols * bpp) == planes * (rows * cols) * bpp;
  }

  /** Pixels held of the axes after the first: chunks times pixels of a chunk. */
  lemma LayerExtents(a: ArraySettings, counts: seq<nat>, chunks: seq<nat>)
    requires ValidSettings(a) && !EstimatesBand(a)
    requires counts == ChunkCounts(a.dims)[1..] && chunks == ChunkSizes(a.dims)[1..]
    ensures Size(HeldExtents(a)) == Size(counts) * Size(chunks)
  {
    SizeOfTimes(counts, chunks);
    var extents, times := HeldExtents(a), Times(counts, chunks);
    forall j | 0 <= j < |extents| ensures extents[j] == times[j] {
      assert counts[j] == ChunkCounts(a.dims)[j + 1] && chunks[j] == ChunkSizes(a.dims)[j + 1];
    }
    assert extents == times;
  }

  /** A whole layer of chunks is what the estimate counts without bands. */
  lemma LayerIsHeld(g: Geo, a: ArraySettings)
    requires g.Valid() && a.dims == g.dims && a.bpp == g.bpp && !EstimatesBand(a)
    ensures LayerChunks(g.dims) * g.ChunkBytes() == ChunkBytesHeld(a)
  {
    ChunkBytesAre(g);
    LayerExtents(a, ChunkCounts(g.dims)[1..], ChunkSizes(g.dims)[1..]);
    FirstChunk(ChunkSizes(g.dims));
    HeldTimes(LayerChunks(g.dims), g.dims[0].chunk, Size(ChunkSizes(g.dims)[1..]), g.bpp, g.ChunkBytes(), Size(HeldExtents(a)));
  }

  lemma HeldTimes(counts: nat, first: nat, chunks: nat, bpp: nat, chunkBytes: nat, held: nat)
    requires chunkBytes == first * chunks * bpp && held == counts * chunks
    ensures counts * chunkBytes == bpp * first * held
  {
    HeldProduct(counts, first, chunks, bpp);
  }

  lemma FirstChunk(chunks: seq<nat>)
    requires chunks != []
    ensures Size(chunks) == chunks[0] * Size(chunks[1..])
  {
  }

  lemma HeldProduct(counts: int, first: int, chunks: int, bpp: int)
    ensures counts * (first * chunks * bpp) == bpp * first * (counts * chunks)
  {
    assert first * chunks * bpp == bpp * first * chunks;
    assert counts * (bpp * first * chunks) == bpp * first * (counts * chunks);
  }

  lemma BandExtents(a: ArraySettings, counts: seq<nat>, chunks: seq<nat>)
    requires ValidSettings(a) && EstimatesBand(a)
    requires counts == ChunkCounts(a.dims)[2..] && chunks == ChunkSizes(a.dims)[2..]
    ensures Size(HeldExtents(a)) == a.dims[1].chunk * (Size(counts) * Size(chunks))
  {
    SizeOfTimes(counts, chunks);
    BandTail(a, HeldExtents(a), Times(counts, chunks), counts, chunks);
    FirstChunk(HeldExtents(a));
  }

  lemma BandTail(a: ArraySettings, extents: seq<nat>, times: seq<nat>, counts: seq<nat>, chunks: seq<nat>)
    requires ValidSettings(a) && EstimatesBand(a) && extents == HeldExtents(a)
    requires counts == ChunkCounts(a.dims)[2..] && chunks == ChunkSizes(a.dims)[2..] && times == Times(counts, chunks)
    ensures extents != [] && extents[0] == a.dims[1].chunk && extents[1..] == times
  {
    forall j | 0 <= j < |extents| - 1 ensures extents[1..][j] == times[j] {
      assert counts[j] == ChunkCounts(a.dims)[j + 2] && chunks[j] == ChunkSizes(a.dims)[j + 2];
    }
  }

  /** One band of chunks is what it counts with bands. */
  lemma BandIsHeld(g: Geo, a: ArraySettings)
    requires g.Valid() && a.dims == g.dims && a.bpp == g.bpp && EstimatesBand(a) && Banded(g.dims)
    ensures ChunksPerBand(g.dims) * g.ChunkBytes() == ChunkBytesHeld(a)
  {
    ChunkBytesAre(g);
    BandExtents(a, ChunkCounts(g.dims)[2..], ChunkSizes(g.dims)[2..]);
    FirstTwoChunks(ChunkSizes(g.dims));
    BandTimes(ChunksPerBand(g.dims), g.dims[0].chunk, g.dims[1].chunk, Size(ChunkSizes(g.dims)[2..]), g.bpp, g.ChunkBytes(),
              Size(HeldExtents(a)));
  }

  lemma FirstTwoChunks(chunks: seq<nat>)
    requires |chunks| >= 2
    ensures Size(chunks) == chunks[0] * (chunks[1] * Size(chunks[2..]))
  {
    assert chunks[1..][1..] == chunks[2..];
    FirstChunk(chunks[1..]);
  }

  lemma BandTimes(counts: nat, first: nat, second: nat, chunks: nat, bpp: nat, chunkBytes: nat, held: nat)
    requires chunkBytes == first * (second * chunks) * bpp && held == second * (counts * chunks)
    ensures counts * chunkBytes == bpp * first * held
  {
    BandProduct(counts, first, second, chunks, bpp);
  }

  lemma BandProduct(counts: int, first: int, second: int, chunks: int, bpp: int)
    ensures counts * (first * (second * chunks) * bpp) == bpp * first * (second * (counts * chunks))
  {
    assert first * (second * chunks) * bpp == bpp * first * (second * chunks);
    assert counts * (bpp * first * (second * chunks)) == bpp * first * (counts * (second * chunks));
    assert counts * (second * chunks) == second * (counts * chunks);
  }

  /** The estimate does not depend on the order of the inner axes. */
  lemma ReorderedHeld(acq: ArraySettings, storage: ArraySettings, order: seq<nat>)
    requires ValidSettings(acq) && ValidSettings(storage) && acq.bpp == storage.bpp
    requires !EstimatesBand(acq) && !EstimatesBand(storage)
    requires |order| == |acq.dims| == |storage.dims| && FixesAppendAxis(order)
    requires forall j :: 0 <= j < |order| ==> storage.dims[j] == acq.dims[order[j]]
    ensures ChunkBytesHeld(storage) == ChunkBytesHeld(acq)
  {
    var p := Shifted(order);
    forall j | 0 <= j < |p| ensures HeldExtents(storage)[j] == HeldExtents(acq)[p[j]] {
    }
    assert HeldExtents(storage) == Permute(HeldExtents(acq), p);
    SizePermute(HeldExtents(acq), p);
  }

  /** A band is no more than a layer. */
  lemma BandInLayer(dims: seq<Dim>)
    requires ValidDims(dims) && Banded(dims)
    ensures ChunksPerBand(dims) <= LayerChunks(dims)
  {
    BandSizes(dims);
    MulMono(1, BandCount(dims), ChunksPerBand(dims));
  }

  /** The array has the axes of its settings, in the order asked for. */
  ghost predicate Configured(acq: ArraySettings, order: seq<nat>, a: Array) {
    && a.geo.Valid() && ValidSettings(acq) && acq.bpp == a.geo.bpp
    && |order| == |acq.dims| == |a.geo.dims| && FixesAppendAxis(order) && KeepsFrameAxes(order)
    && (forall j :: 0 <= j < |order| ==> a.geo.dims[j] == acq.dims[order[j]])
    && (!acq.reordered ==> a.geo.dims == acq.dims && a.mapping.None?)
  }

  /** Rows and columns may change places. */
  lemma LastTwoAreLast(acq: ArraySettings, order: seq<nat>, a: Array) returns (p: nat, q: nat)
    requires Configured(acq, order, a)
    ensures LastTwo(a.geo, acq, p, q)
  {
    LastTwoStay(order);
    p, q := order[|order| - 2], order[|order| - 1];
  }

  predicate LastTwo(g: Geo, acq: ArraySettings, p: nat, q: nat) {
    var n := |g.dims|;
    && g.bpp == acq.bpp > 0 && n == |acq.dims| >= 2 && n - 2 <= p < n && n - 2 <= q < n && p != q
    && g.dims[n - 2] == acq.dims[p] && g.dims[n - 1] == acq.dims[q] && acq.dims[p].size > 0 && acq.dims[q].size > 0
  }

  /** The bytes of a frame do not change. */
  lemma FrameBytesKept(acq: ArraySettings, order: seq<nat>, a: Array)
    requires Configured(acq, order, a)
    ensures a.geo.FrameBytes() == FrameBytesOf(acq) > 0
  {
    var p, q := LastTwoAreLast(acq, order, a);
    SameFrameBytes(a.geo, acq, p, q);
  }

  lemma SameFrameBytes(g: Geo, acq: ArraySettings, p: nat, q: nat)
    requires LastTwo(g, acq, p, q)
    ensures g.FrameBytes() == FrameBytesOf(acq) > 0
  {
    var n := |g.dims|;
    SameProduct(g.bpp, acq.dims[n - 2].size, acq.dims[n - 1].size, g.FrameRows(), g.FrameCols());
  }

  lemma LastTwoStay(order: seq<nat>)
    requires IsPermutation(order) && KeepsFrameAxes(order)
    ensures var n := |order|; order[n - 2] >= n - 2 && order[n - 1] >= n - 2 && order[n - 2] != order[n - 1]
  {
    var n := |order|;
    forall i | n - 2 <= i < n ensures order[i] >= n - 2 {
      if order[i] < n - 2 {
        Onto(FrameOrder(order), order[i]);
      }
    }
  }

  lemma SameProduct(b: nat, y: nat, x: nat, rows: nat, cols: nat)
    requires (rows == y && cols == x) || (rows == x && cols == y)
    requires b > 0 && y > 0 && x > 0
    ensures b * rows * cols == b * y * x > 0
  {
    MulRotate(b, y, x);
    MulPos(b, y);
    MulPos(b * y, x);
    assert b * x * y == b * (x * y) == b * (y * x) == b * y * x;
  }

  /** What an array can hold (module StreamArray, MemoryUsage) is within its part of the estimate. */
  lemma ArrayWithinEstimate(a: Array, acq: ArraySettings, order: seq<nat>)
    requires Configured(acq, order, a) && a.limit == a.Room() * a.geo.ChunkBytes()
    ensures a.limit <= ArrayUsage(acq)
  {
    if EstimatesBand(acq) {
      BandIsHeld(a.geo, acq);
    } else {
      UnbandedHeld(a, acq, order, a.limit);
    }
    UsageCounts(acq);
  }

  lemma UnbandedHeld(a: Array, acq: ArraySettings, order: seq<nat>, usage: nat)
    requires a.geo.Valid() && ValidSettings(acq) && acq.bpp == a.geo.bpp && !EstimatesBand(acq)
    requires |order| == |acq.dims| == |a.geo.dims| && FixesAppendAxis(order)
    requires forall j :: 0 <= j < |order| ==> a.geo.dims[j] == acq.dims[order[j]]
    requires !acq.reordered ==> a.geo.dims == acq.dims
    requires usage <= a.Room() * a.geo.ChunkBytes()
    ensures usage <= ChunkBytesHeld(acq)
  {
    var g, storage := a.geo, acq.(dims := a.geo.dims);
    LayerIsHeld(g, storage);
    ReorderedHeld(acq, storage, order);
    if a.SupportsDim1Banding() {
      BandInLayer(g.dims);
      MulMono(ChunksPerBand(g.dims), LayerChunks(g.dims), g.ChunkBytes());
    }
  }

  lemma UsageCounts(a: ArraySettings)
    requires ValidDims(a.dims)
    ensures ChunkBytesHeld(a) <= ArrayUsage(a)
  {
    var held := ChunkBytesHeld(a);
    assert held <= held * 2 && held * 1 == held && held * 2 * 2 == held * 4;
  }

  /**
   The estimate for an array is exactly what a layer of its chunks takes, or a band where bands apply and no order was
   asked for: once for the chunks, twice if they are compressed, twice that with a pyramid.
   */
  lemma EstimateIs(a: Array, acq: ArraySettings, order: seq<nat>)
    requires Configured(acq, order, a)
    ensures var chunks := if |acq.dims| >= 4 && acq.dims[0].chunk == 1 && !acq.reordered then ChunksPerBand(a.geo.dims) else LayerChunks(a.geo.dims);
            var held := chunks * a.geo.ChunkBytes();
            ArrayUsage(acq) == if acq.compressed && acq.multiscale then 4 * held else if acq.compressed || acq.multiscale then 2 * held else held
  {
    HeldIs(a, acq, order);
    UsageFactors(acq);
  }

  lemma HeldIs(a: Array, acq: ArraySettings, order: seq<nat>)
    requires Configured(acq, order, a)
    ensures ChunkBytesHeld(acq) == (if EstimatesBand(acq) then ChunksPerBand(a.geo.dims) else LayerChunks(a.geo.dims)) * a.geo.ChunkBytes()
  {
    if EstimatesBand(acq) {
      BandIsHeld(a.geo, acq);
    } else {
      LayerHeldIs(a.geo, acq, acq.(dims := a.geo.dims), order);
    }
  }

  lemma LayerHeldIs(g: Geo, acq: ArraySettings, storage: ArraySettings, order: seq<nat>)
    requires g.Valid() && ValidSettings(acq) && acq.bpp == g.bpp && storage == acq.(dims := g.dims) && !EstimatesBand(acq)
    requires |order| == |acq.dims| == |g.dims| && FixesAppendAxis(order)
    requires forall j :: 0 <= j < |order| ==> g.dims[j] == acq.dims[order[j]]
    ensures ChunkBytesHeld(acq) == LayerChunks(g.dims) * g.ChunkBytes()
  {
    LayerIsHeld(g, storage);
    ReorderedHeld(acq, storage, order);
  }

  lemma UsageFactors(a: ArraySettings)
    requires ValidDims(a.dims)
    ensures var held := ChunkBytesHeld(a);
            ArrayUsage(a) == if a.compressed && a.multiscale then 4 * held else if a.compressed || a.multiscale then 2 * held else held
  {
    var held := ChunkBytesHeld(a);
    assert held * 1 == held && held * 2 * 2 == held * 4;
  }

  // ----- The stream --------------------------------------------------------------------------------------

  function Sum(s: seq<nat>): nat {
    if s == [] then 0 else Sum(s[..|s| - 1]) + s[|s| - 1]
  }

  lemma {:induction false} QueueBound(items: seq<Item>, maxFrame: nat)
    requires forall i :: 0 <= i < |items| ==> |items[i].data| <= maxFrame
    ensures TotalBytes(items) <= |items| * maxFrame
  {
    if items != [] {
      var m := |items| - 1;
      QueueBound(items[..m], maxFrame);
      assert |items| * maxFrame == m * maxFrame + maxFrame;
    }
  }

  lemma QueueWithin(queue: seq<Item>, maxFrame: nat)
    requires queue != [] ==> maxFrame > 0 && |queue| <= FrameCount(maxFrame)
    requires forall i :: 0 <= i < |queue| ==> |queue[i].data| <= maxFrame
    ensures TotalBytes(queue) <= QueueUsage(maxFrame)
  {
    QueueBound(queue, maxFrame);
    if queue != [] {
      MulMono(|queue|, FrameCount(maxFrame), maxFrame);
    }
  }
}
