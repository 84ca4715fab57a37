/**
 From acquisition to storage: which storage frame an acquired frame becomes, and its bytes with rows
 and columns swapped when the storage order asks for it (src/streaming/array.cpp, transpose_frame;
 src/streaming/array.dimensions.cpp, needs_xy_transposition).
 */
module Acquisition {
  import opened Arith
  import opened Lattice
  import opened Bytes
  import opened Grid
  import opened Permutation
  import opened Transposition
  import opened Wrappers
  import opened ChunkContent
  import Dimensions

  type Mapping = Option<TranspositionMap>

  ghost predicate ValidMapping(t: Mapping, dims: seq<Dim>) {
    ValidDims(dims) && (t.Some? ==> ValidMap(t.value, dims))
  }

  /** Storage id of the `f`-th acquired frame. */
  ghost function StorageId(t: Mapping, dims: seq<Dim>, f: nat): nat
    requires ValidMapping(t, dims)
  {
    match t
    case None => f
    case Some(m) => ToStorage(m.acquisitionDims, m.storageToAcq, f)
  }

  /** Distinct acquired frames are stored at distinct places. */
  lemma StorageIdInjective(t: Mapping, dims: seq<Dim>, f: nat, g: nat)
    requires ValidMapping(t, dims) && StorageId(t, dims, f) == StorageId(t, dims, g)
    ensures f == g
  {
    if t.Some? {
      var m := t.value;
      var sizes, order := FrameSizes(m.acquisitionDims), FrameOrder(m.storageToAcq);
      FrameSizesPositive(m.acquisitionDims);
      FrameInverse(m.storageToAcq, m.acqToStorage);
      RenumberInverse(f, sizes, order, FrameOrder(m.acqToStorage));
      RenumberInverse(g, sizes, order, FrameOrder(m.acqToStorage));
    }
  }

  /** Storing keeps the layer: complete acquisition layers are complete storage layers. */
  lemma StorageIdLayer(t: Mapping, dims: seq<Dim>, f: nat)
    requires ValidMapping(t, dims)
    ensures Size(FrameSizes(dims)[1..]) > 0 && dims[0].chunk * Size(FrameSizes(dims)[1..]) > 0
    ensures StorageId(t, dims, f) / (dims[0].chunk * Size(FrameSizes(dims)[1..]))
            == f / (dims[0].chunk * Size(FrameSizes(dims)[1..]))
  {
    FrameSizesPositive(dims);
    MulPos(dims[0].chunk, Size(FrameSizes(dims)[1..]));
    if t.Some? {
      var m := t.value;
      InnerSizeKept(m, dims);
      ToStorageKeepsLayer(m.acquisitionDims, m.storageToAcq, f, dims[0].chunk);
    }
  }

  lemma InnerSizeKept(m: TranspositionMap, dims: seq<Dim>)
    requires ValidMap(m, dims)
    ensures Size(FrameSizes(dims)[1..]) == Size(FrameSizes(m.acquisitionDims)[1..])
  {
    PermutedFrameSizes(m.acquisitionDims, dims, m.storageToAcq);
    FrameSizesPositive(m.acquisitionDims);
    RenumberSplits(0, FrameSizes(m.acquisitionDims), FrameOrder(m.storageToAcq));
  }

  // ----- Rows and columns ------------------------------------------------------------------

  predicate NeedsXyTransposition(t: Mapping, n: nat) {
    t.Some? && n >= 2 && |t.value.acqToStorage| == n
    && t.value.acqToStorage[n - 2] == n - 1 && t.value.acqToStorage[n - 1] == n - 2
  }

  /** Byte of the row-major frame `src` (`cols` columns) that lands at `o` of the transposed one. */
  function SwappedIndex(o: nat, rows: nat, cols: nat, bpp: nat): nat
    requires rows > 0 && bpp > 0
  {
    var r, c := Col(Row(o, bpp), rows), Row(Row(o, bpp), rows);
    var px: nat := r * cols + c;
    px * bpp + Col(o, bpp)
  }

  function XySwapped(src: seq<Byte>, rows: nat, cols: nat, bpp: nat): (dst: seq<Byte>)
    requires rows > 0 && bpp > 0
    ensures |dst| == |src|
    ensures forall o :: 0 <= o < |dst| ==> dst[o] == ByteAt(src, SwappedIndex(o, rows, cols, bpp))
  {
    seq(|src|, o requires 0 <= o < |src| => ByteAt(src, SwappedIndex(o, rows, cols, bpp)))
  }

  function ByteAt(s: seq<Byte>, i: nat): Byte {
    if i < |s| then s[i] else 0
  }

  lemma PixelBound(o: nat, rows: nat, cols: nat, bpp: nat)
    requires rows > 0 && cols > 0 && bpp > 0 && o < rows * cols * bpp
    ensures Row(o, bpp) < rows * cols && Row(Row(o, bpp), rows) < cols
    ensures o == Row(o, bpp) * bpp + Col(o, bpp)
    ensures Row(o, bpp) == Row(Row(o, bpp), rows) * rows + Col(Row(o, bpp), rows)
  {
    RowBound(o, rows * cols, bpp);
    assert rows * cols == cols * rows;
    RowBound(Row(o, bpp), cols, rows);
  }

  /** The pixel at row `r`, column `c` of the source comes from, and goes to, the places named. */
  lemma SwappedPlace(o: nat, rows: nat, cols: nat, bpp: nat)
    requires rows > 0 && cols > 0 && bpp > 0 && o < rows * cols * bpp
    ensures var i := SwappedIndex(o, rows, cols, bpp);
            && i < rows * cols * bpp
            && Col(i, bpp) == Col(o, bpp)
            && Row(Row(i, bpp), cols) == Col(Row(o, bpp), rows)
            && Col(Row(i, bpp), cols) == Row(Row(o, bpp), rows)
  {
    PixelBound(o, rows, cols, bpp);
    var r, c, b := Col(Row(o, bpp), rows), Row(Row(o, bpp), rows), Col(o, bpp);
    RowColOf(r, cols, c);
    RowColOf(r * cols + c, bpp, b);
    BelowProduct(r, rows, c, cols);
    BelowProduct(r * cols + c, rows * cols, b, bpp);
  }

  /** Transposing twice gives the frame back. */
  lemma XySwapTwice(src: seq<Byte>, rows: nat, cols: nat, bpp: nat)
    requires rows > 0 && cols > 0 && bpp > 0 && |src| == rows * cols * bpp
    ensures XySwapped(XySwapped(src, rows, cols, bpp), cols, rows, bpp) == src
  {
    var dst := XySwapped(src, rows, cols, bpp);
    assert cols * rows * bpp == rows * cols * bpp;
    forall o: nat | o < |src| ensures XySwapped(dst, cols, rows, bpp)[o] == src[o] {
      SwapBack(o, rows, cols, bpp);
    }
  }

  lemma SwapBack(o: nat, rows: nat, cols: nat, bpp: nat)
    requires rows > 0 && cols > 0 && bpp > 0 && o < rows * cols * bpp
    ensures var i := SwappedIndex(o, cols, rows, bpp);
            i < rows * cols * bpp && SwappedIndex(i, rows, cols, bpp) == o
  {
    assert cols * rows * bpp == rows * cols * bpp;
    SwappedPlace(o, cols, rows, bpp);
    PixelBound(o, cols, rows, bpp);
  }

  /** The pixel-by-pixel copy: `dst[col][row] = src[row][col]`. */
  method TransposeFrame(src: seq<Byte>, rows: nat, cols: nat, bpp: nat) returns (dst: seq<Byte>)
    requires rows > 0 && cols > 0 && bpp > 0 && |src| == rows * cols * bpp
    ensures dst == XySwapped(src, rows, cols, bpp)
  {
    dst := src;
    for row := 0 to rows
      invariant Swapped(src, dst, rows, cols, bpp, row, 0)
    {
      for col := 0 to cols
        invariant Swapped(src, dst, rows, cols, bpp, row, col)
      {
        PixelRange(row, col, rows, cols, bpp);
        var srcOffset, dstOffset := (row * cols + col) * bpp, (col * rows + row) * bpp;
        ghost var prev := dst;
        dst := dst[..dstOffset] + src[srcOffset..srcOffset + bpp] + dst[dstOffset + bpp..];
        PixelCopied(src, prev, dst, rows, cols, bpp, row, col, srcOffset, dstOffset);
      }
      RowDone(src, dst, rows, cols, bpp, row);
    }
    AllDone(src, dst, rows, cols, bpp);
  }

  /** Pixels copied before row `row`, column `col` is reached. */
  predicate Copied(o: nat, rows: nat, bpp: nat, row: nat, col: nat)
    requires rows > 0 && bpp > 0
  {
    Col(Row(o, bpp), rows) < row || (Col(Row(o, bpp), rows) == row && Row(Row(o, bpp), rows) < col)
  }

  ghost predicate Swapped(src: seq<Byte>, dst: seq<Byte>, rows: nat, cols: nat, bpp: nat, row: nat, col: nat)
    requires rows > 0 && bpp > 0
  {
    && |dst| == |src|
    && forall o: nat :: o < |dst| && Copied(o, rows, bpp, row, col) ==> dst[o] == ByteAt(src, SwappedIndex(o, rows, cols, bpp))
  }

  lemma PixelRange(row: nat, col: nat, rows: nat, cols: nat, bpp: nat)
    requires row < rows && col < cols && bpp > 0
    ensures 0 <= (row * cols + col) * bpp && (row * cols + col) * bpp + bpp <= rows * cols * bpp
    ensures 0 <= (col * rows + row) * bpp && (col * rows + row) * bpp + bpp <= rows * cols * bpp
  {
    BelowProduct(row, rows, col, cols);
    BelowProduct(col, cols, row, rows);
    assert cols * rows == rows * cols;
    LastStep(row * cols + col, rows * cols, bpp);
    LastStep(col * rows + row, rows * cols, bpp);
  }

  lemma PixelCopied(src: seq<Byte>, prev: seq<Byte>, dst: seq<Byte>, rows: nat, cols: nat, bpp: nat, row: nat, col: nat,
                    s: nat, d: nat)
    requires row < rows && col < cols && bpp > 0 && |src| == rows * cols * bpp
    requires s == (row * cols + col) * bpp && d == (col * rows + row) * bpp
    requires s + bpp <= |src| && d + bpp <= |prev|
    requires dst == prev[..d] + src[s..s + bpp] + prev[d + bpp..]
    requires Swapped(src, prev, rows, cols, bpp, row, col)
    ensures Swapped(src, dst, rows, cols, bpp, row, col + 1)
  {
    forall o: nat | o < |dst| && Copied(o, rows, bpp, row, col + 1)
      ensures dst[o] == ByteAt(src, SwappedIndex(o, rows, cols, bpp))
    {
      PixelBound(o, rows, cols, bpp);
      RowRange(o, col * rows + row, bpp, d);
      RowColOf(col, rows, row);
    }
  }

  lemma RowDone(src: seq<Byte>, dst: seq<Byte>, rows: nat, cols: nat, bpp: nat, row: nat)
    requires rows > 0 && cols > 0 && bpp > 0 && |src| == rows * cols * bpp
    requires Swapped(src, dst, rows, cols, bpp, row, cols)
    ensures Swapped(src, dst, rows, cols, bpp, row + 1, 0)
  {
    forall o: nat | o < |dst| && Copied(o, rows, bpp, row + 1, 0) ensures Copied(o, rows, bpp, row, cols) {
      PixelBound(o, rows, cols, bpp);
    }
  }

  lemma AllDone(src: seq<Byte>, dst: seq<Byte>, rows: nat, cols: nat, bpp: nat)
    requires rows > 0 && cols > 0 && bpp > 0 && |src| == rows * cols * bpp
    requires Swapped(src, dst, rows, cols, bpp, rows, 0)
    ensures dst == XySwapped(src, rows, cols, bpp)
  {
    assert forall o: nat :: o < |dst| ==> Copied(o, rows, bpp, rows, 0);
  }

  // ----- The frames stored -----------------------------------------------------------------

  function AcquisitionRows(t: Mapping, dims: seq<Dim>): nat
    requires |dims| >= 2 && (t.Some? ==> |t.value.acquisitionDims| == |dims|)
  {
    if t.None? then dims[|dims| - 2].size else t.value.acquisitionDims[|dims| - 2].size
  }

  function AcquisitionCols(t: Mapping, dims: seq<Dim>): nat
    requires |dims| >= 2 && (t.Some? ==> |t.value.acquisitionDims| == |dims|)
  {
    if t.None? then dims[|dims| - 1].size else t.value.acquisitionDims[|dims| - 1].size
  }

  /** The bytes a frame is stored as. */
  ghost function StoredFrame(t: Mapping, g: Geo, frame: seq<Byte>): (stored: seq<Byte>)
    requires g.Valid() && ValidMapping(t, g.dims)
    ensures |stored| == |frame|
  {
    if NeedsXyTransposition(t, |g.dims|) then
      AcquisitionShape(t, g);
      XySwapped(frame, AcquisitionRows(t, g.dims), AcquisitionCols(t, g.dims), g.bpp)
    else frame
  }

  /** A swapped frame has as many bytes. */
  lemma AcquisitionShape(t: Mapping, g: Geo)
    requires g.Valid() && ValidMapping(t, g.dims) && NeedsXyTransposition(t, |g.dims|)
    ensures AcquisitionRows(t, g.dims) == g.FrameCols() > 0 && AcquisitionCols(t, g.dims) == g.FrameRows() > 0
    ensures AcquisitionRows(t, g.dims) * AcquisitionCols(t, g.dims) * g.bpp == g.FrameBytes()
  {
    var m, n := t.value, |g.dims|;
    InverseSymmetric(m.storageToAcq, m.acqToStorage);
    assert m.storageToAcq[m.acqToStorage[n - 1]] == n - 1 && m.storageToAcq[m.acqToStorage[n - 2]] == n - 2;
    ThreeFactors(g.FrameCols(), g.FrameRows(), g.bpp);
  }

  lemma ThreeFactors(a: int, b: int, c: int)
    ensures a * b * c == c * b * a
  {
  }

  /** Storage id of each acquired frame, and the bytes a frame is stored as. */
  type Numbering = nat -> nat
  type Form = seq<Byte> -> seq<Byte>

  ghost function NumberingOf(t: Mapping, dims: seq<Dim>): Numbering
    requires ValidMapping(t, dims)
  {
    (f: nat) => StorageId(t, dims, f)
  }

  ghost function FormOf(t: Mapping, g: Geo): Form
    requires g.Valid() && ValidMapping(t, g.dims)
  {
    (frame: seq<Byte>) => StoredFrame(t, g, frame)
  }

  ghost predicate Injective(place: Numbering) {
    forall f: nat, h: nat :: place(f) == place(h) ==> f == h
  }

  lemma NumberingInjective(t: Mapping, dims: seq<Dim>)
    requires ValidMapping(t, dims)
    ensures Injective(NumberingOf(t, dims))
  {
    forall f: nat, h: nat | StorageId(t, dims, f) == StorageId(t, dims, h) ensures f == h {
      StorageIdInjective(t, dims, f, h);
    }
  }

  /** All frames acquired so far, at their storage ids. */
  ghost function FramesOf(place: Numbering, form: Form, acquired: seq<seq<Byte>>): (frames: Frames) {
    if acquired == [] then map[]
    else
      var n: nat := |acquired| - 1;
      FramesOf(place, form, acquired[..n])[place(n) := form(acquired[n])]
  }

  /** Each acquired frame is there, and nothing else. */
  lemma {:induction false} FramesAre(place: Numbering, form: Form, acquired: seq<seq<Byte>>, f: nat)
    requires Injective(place)
    ensures place(f) in FramesOf(place, form, acquired) <==> f < |acquired|
    ensures f < |acquired| ==> FramesOf(place, form, acquired)[place(f)] == form(acquired[f])
  {
    if acquired != [] {
      FramesAre(place, form, acquired[..|acquired| - 1], f);
    }
  }

  lemma {:induction false} FramesCount(place: Numbering, form: Form, acquired: seq<seq<Byte>>)
    requires Injective(place)
    ensures |FramesOf(place, form, acquired)| == |acquired|
  {
    if acquired != [] {
      var n: nat := |acquired| - 1;
      FramesCount(place, form, acquired[..n]);
      FramesAre(place, form, acquired[..n], n);
    }
  }

  /** Every stored frame was acquired. */
  lemma {:induction false} StoredWasAcquired(place: Numbering, form: Form, acquired: seq<seq<Byte>>, sf: nat) returns (f: nat)
    requires sf in FramesOf(place, form, acquired)
    ensures f < |acquired| && place(f) == sf
  {
    f := |acquired| - 1;
    if place(f) != sf {
      f := StoredWasAcquired(place, form, acquired[..f], sf);
    }
  }

  lemma OneFrameMore(place: Numbering, form: Form, acquired: seq<seq<Byte>>, frame: seq<Byte>)
    ensures FramesOf(place, form, acquired + [frame]) == FramesOf(place, form, acquired)[place(|acquired|) := form(frame)]
  {
    assert (acquired + [frame])[..|acquired|] == acquired;
  }

  // ----- How many frames fit ---------------------------------------------------------------

  /** Product of all array sizes and the bytes of a pixel; 0 for an unbounded array. */
  function MaxByteCount(g: Geo): nat
    requires |g.dims| >= 2
  {
    var pixels: nat := Size(ArraySizes(g.dims));
    pixels * g.bpp
  }

  /** A bounded array has room for all its frames, to the byte. */
  lemma MaxBytesInFrames(g: Geo)
    requires g.Valid()
    ensures MaxByteCount(g) == Size(FrameSizes(g.dims)) * g.FrameBytes()
    ensures g.dims[0].size == 0 <==> Size(FrameSizes(g.dims)) == 0
  {
    var sizes, n := ArraySizes(g.dims), |g.dims|;
    SizeSplit(sizes, n - 2);
    assert sizes[..n - 2] == FrameSizes(g.dims);
    Dimensions.SizeOfLastTwo(sizes, g.FrameRows(), g.FrameCols());
    MaxFactors(Size(FrameSizes(g.dims)), g.FrameRows(), g.FrameCols(), g.bpp);
    FrameSizesPositive(g.dims);
    SizeStep(FrameSizes(g.dims), 0);
    assert FrameSizes(g.dims)[0..] == FrameSizes(g.dims);
    if g.dims[0].size > 0 {
      MulPos(g.dims[0].size, Size(FrameSizes(g.dims)[1..]));
    }
  }

  lemma MaxFactors(a: int, b: int, c: int, d: int)
    ensures a * (b * c) * d == a * (d * b * c)
  {
    assert a * (b * c) * d == a * ((b * c) * d);
    assert (b * c) * d == d * b * c;
  }

  lemma FrameCountKept(m: TranspositionMap, dims: seq<Dim>)
    requires ValidMap(m, dims)
    ensures Size(FrameSizes(dims)) == Size(FrameSizes(m.acquisitionDims)) && dims[0].size == m.acquisitionDims[0].size
  {
    PermutedFrameSizes(m.acquisitionDims, dims, m.storageToAcq);
    SizePermute(FrameSizes(m.acquisitionDims), FrameOrder(m.storageToAcq));
  }

  /** The lookup table answers for every frame a bounded array accepts, and for all of an unbounded one. */
  lemma LookupInRange(t: Mapping, g: Geo, f: nat)
    requires g.Valid() && ValidMapping(t, g.dims)
    requires MaxByteCount(g) > 0 ==> f * g.FrameBytes() + g.FrameBytes() <= MaxByteCount(g)
    ensures t.Some? && t.value.innerFrameCount == 0 ==> f < |t.value.frameIdLookup|
    ensures t.Some? ==> |t.value.frameIdLookup| > 0
                        && (t.value.innerFrameCount > 0 ==> t.value.innerFrameCount == |t.value.frameIdLookup|)
    ensures TransposeFrameId(t, f) == StorageId(t, g.dims, f)
  {
    if t.Some? {
      FrameCountKept(t.value, g.dims);
      MaxBytesInFrames(g);
      GeoPositive(g);
      if g.dims[0].size > 0 {
        MulPos(Size(FrameSizes(g.dims)), g.FrameBytes());
        FramesFit(f, g.FrameBytes(), Size(FrameSizes(g.dims)));
      }
      TransposeIsToStorage(t.value, g.dims, f);
    }
  }

  lemma FramesFit(f: nat, bytes: nat, count: nat)
    requires bytes > 0 && f * bytes + bytes <= count * bytes
    ensures f < count
  {
    if f >= count {
      MulMono(count, f, bytes);
    }
  }

  /** The table entry the program reads for frame `f` is there and is `id`. */
  predicate Looks(t: Mapping, f: nat, id: nat) {
    && (t.Some? ==> |t.value.frameIdLookup| > 0
                    && (t.value.innerFrameCount > 0 ==> t.value.innerFrameCount == |t.value.frameIdLookup|)
                    && (t.value.innerFrameCount == 0 ==> f < |t.value.frameIdLookup|))
    && TransposeFrameId(t, f) == id
  }

  /** What the program asks its geometry for gives the numbering, for every frame that fits. */
  ghost predicate Numbers(t: Mapping, place: Numbering, maxBytes: nat, bytes: nat) {
    forall f: nat :: maxBytes == 0 || f * bytes + bytes <= maxBytes ==> Looks(t, f, place(f))
  }

  /** And the stored form of every frame of the right size. */
  ghost predicate Forms(t: Mapping, g: Geo, form: Form)
    requires g.Valid()
  {
    forall frame: seq<Byte> :: |frame| == g.FrameBytes() ==>
      if NeedsXyTransposition(t, |g.dims|) then
        && |t.value.acquisitionDims| == |g.dims|
        && AcquisitionRows(t, g.dims) > 0 && AcquisitionCols(t, g.dims) > 0
        && |frame| == AcquisitionRows(t, g.dims) * AcquisitionCols(t, g.dims) * g.bpp
        && form(frame) == XySwapped(frame, AcquisitionRows(t, g.dims), AcquisitionCols(t, g.dims), g.bpp)
      else form(frame) == frame
  }

  lemma MappingNumbers(t: Mapping, g: Geo)
    requires g.Valid() && ValidMapping(t, g.dims)
    ensures Numbers(t, NumberingOf(t, g.dims), MaxByteCount(g), g.FrameBytes())
  {
    forall f: nat | MaxByteCount(g) == 0 || f * g.FrameBytes() + g.FrameBytes() <= MaxByteCount(g)
      ensures Looks(t, f, StorageId(t, g.dims, f))
    {
      LookupInRange(t, g, f);
    }
  }

  lemma MappingForms(t: Mapping, g: Geo)
    requires g.Valid() && ValidMapping(t, g.dims)
    ensures Forms(t, g, FormOf(t, g))
  {
    forall frame: seq<Byte> | |frame| == g.FrameBytes() && NeedsXyTransposition(t, |g.dims|)
      ensures AcquisitionRows(t, g.dims) > 0 && AcquisitionCols(t, g.dims) > 0
      ensures |frame| == AcquisitionRows(t, g.dims) * AcquisitionCols(t, g.dims) * g.bpp
    {
      AcquisitionShape(t, g);
    }
  }
}
