/**
 Writing one frame into the chunk slots of the open layer, tile by tile (src/streaming/array.cpp,
 write_frame_to_chunks_).

 Each tile goes to one slot, the group's first one plus the number of the tile; a slot that is empty gets a chunk
 first.  The loop keeps that the slots it has passed hold the content for the frames with the new one, and the
 slots before it the content without.  A slot holds a content if its chunk's buffer is that content and its flag says
 whether it has a byte that is not 0; an empty slot holds zeros.
 */
module FrameWriter {
  import opened Arith
  import opened Lattice
  import opened Bytes
  import opened Grid
  import opened Dimensions
  import opened Chunk
  import opened ChunkContent
  import opened ArraySpec
  import opened ArrayTasks
  import opened TileBytes
  import opened Flush
  import opened Closing

  /** The slot's chunk, or the absence of one, stands for `content`. */
  ghost predicate SlotHolds(c: Chunk?, content: seq<Byte>)
    reads c
  {
    if c == null then AllZero(content)
    else c.sizeBytes == |content| && c.buffer == content && (c.hasData <==> !AllZero(content))
  }

  /** Slots before `from` have been flushed, the others hold the contents. */
  ghost predicate SlotsHold(chunks: seq<Chunk?>, contents: seq<seq<Byte>>, from: nat)
    reads chunks
  {
    && |chunks| == |contents|
    && forall slot :: 0 <= slot < |chunks| ==>
         if slot < from then chunks[slot] == null else SlotHolds(chunks[slot], contents[slot])
  }

  /** No chunk in the slots from `hi` on. */
  ghost predicate EmptyFrom(chunks: seq<Chunk?>, hi: nat) {
    forall slot :: hi <= slot < |chunks| ==> chunks[slot] == null
  }

  /** No chunk is in two slots. */
  ghost predicate Separate(chunks: seq<Chunk?>) {
    forall i, j :: 0 <= i < j < |chunks| && chunks[i] != null ==> chunks[i] != chunks[j]
  }

  lemma AllZeroIs(s: seq<Byte>)
    requires AllZero(s)
    ensures s == Zeros(|s|)
  {
  }

  /** The copy stays inside the chunk buffer and inside the frame: the program's overflow check never fires. */
  lemma CopyInRange(g: Geo, plane: nat, tile: nat)
    requires g.Valid() && plane < PlaneCount(g.dims) && tile < g.Tiles()
    ensures var t := TileCopy(g, plane, tile);
            && t.Valid() && t.rows > 0 && t.width > 0
            && t.offset + (t.rows - 1) * t.stride + t.width <= g.ChunkBytes()
            && CopyStart(g, tile) + (t.rows - 1) * g.RowBytes() + t.width <= g.FrameBytes()
  {
    GeoPositive(g);
    var t := TileCopy(g, plane, tile);
    var ty, tx := Row(tile, g.TilesX()), Col(tile, g.TilesX());
    RowBound(tile, g.TilesY(), g.TilesX());
    TileStarts(ty, g.FrameRows(), g.TileRows());
    TileStarts(tx, g.FrameCols(), g.TileCols());
    MulPos(CopyCount(g.TileCols(), g.FrameCols(), tx * g.TileCols()), g.bpp);
    MulMono(CopyCount(g.TileCols(), g.FrameCols(), tx * g.TileCols()), g.TileCols(), g.bpp);
    LastRow(t.rows - 1, g.TileRows(), g.TileRowBytes(), t.width);
    LastStep(plane, PlaneCount(g.dims), g.TileBytes());
    CopyEnds(g, tile);
  }

  lemma LastRow(r: nat, rows: nat, stride: nat, width: nat)
    requires r < rows && width <= stride
    ensures r * stride + width <= rows * stride
  {
    LastStep(r, rows, stride);
  }

  /** Every tile starts inside the frame. */
  lemma TileStarts(i: nat, size: nat, tile: nat)
    requires tile > 0 && i < CeilDiv(size, tile)
    ensures 0 <= i * tile < size && CopyCount(tile, size, i * tile) > 0
  {
    CeilDivCovers(size, tile);
    LastStep(i, CeilDiv(size, tile), tile);
  }

  lemma CopyEnds(g: Geo, tile: nat)
    requires g.Valid() && tile < g.Tiles()
    ensures var t := TileCopy(g, 0, tile);
            t.rows > 0 && CopyStart(g, tile) + (t.rows - 1) * g.RowBytes() + t.width <= g.FrameBytes()
  {
    GeoPositive(g);
    var ty, tx := Row(tile, g.TilesX()), Col(tile, g.TilesX());
    RowBound(tile, g.TilesY(), g.TilesX());
    TileStarts(ty, g.FrameRows(), g.TileRows());
    TileStarts(tx, g.FrameCols(), g.TileCols());
    var row0, col0: nat := ty * g.TileRows(), tx * g.TileCols();
    var rows, cols := CopyCount(g.TileRows(), g.FrameRows(), row0), CopyCount(g.TileCols(), g.FrameCols(), col0);
    EndOfCopy(row0, col0, rows, cols, g.FrameRows(), g.FrameCols(), g.bpp);
  }

  lemma EndOfCopy(row0: nat, col0: nat, rows: nat, cols: nat, frameRows: nat, frameCols: nat, bpp: nat)
    requires rows > 0 && row0 + rows <= frameRows && col0 + cols <= frameCols
    ensures bpp * (row0 * frameCols + col0) + (rows - 1) * (frameCols * bpp) + cols * bpp <= bpp * frameRows * frameCols
  {
    var last := row0 + rows - 1;
    calc {
      bpp * (row0 * frameCols + col0) + (rows - 1) * (frameCols * bpp) + cols * bpp;
      { SourceArith(bpp, row0, frameCols, col0, 1, rows - 1); }
      last * (frameCols * bpp) + col0 * (1 * bpp) + cols * bpp;
      { Distribute(col0, cols, bpp); }
      last * (frameCols * bpp) + (col0 + cols) * bpp;
    }
    MulMono(col0 + cols, frameCols, bpp);
    LastStep(last, frameRows, frameCols * bpp);
    MulCycle2(bpp, frameRows, frameCols);
  }

  /** One tile of frame `sf`, copied into the chunk in its slot, which is made if it is not there. */
  method WriteTile(g: Geo, flush: FlushState, slot: nat, chunkOffset: nat, tile: nat, frame: seq<Byte>,
                   ghost frames: Frames, ghost sf: nat, ghost place: Place)
    returns (copied: nat)
    requires g.Valid() && sf !in frames && Locate(g.dims, sf) == place
    requires place.group < GroupCount(g.dims) && place.plane < PlaneCount(g.dims) && tile < g.Tiles()
    requires slot == SlotIn(g, place.group, tile) && slot < |flush.chunks|
    requires chunkOffset == place.plane * g.TileBytes() && |frame| == g.FrameBytes()
    requires SlotHolds(flush.chunks[slot], Content(g, frames, place.layer, slot))
    modifies flush`chunks, if flush.chunks[slot] == null then {} else {flush.chunks[slot]}
    ensures |flush.chunks| == |old(flush.chunks)| && flush.chunks[slot] != null
    ensures flush.chunks == old(flush.chunks)[slot := flush.chunks[slot]]
    ensures flush.chunks[slot] == old(flush.chunks[slot]) || fresh(flush.chunks[slot])
    ensures SlotHolds(flush.chunks[slot], Content(g, frames[sf := frame], place.layer, slot))
    ensures copied == BytesOfTile(g, tile)
  {
    GeoPositive(g);
    var chunk := flush.chunks[slot];
    if chunk == null {
      chunk := new Chunk(g.ChunkBytes());
      flush.chunks := flush.chunks[slot := chunk];
      AllZeroIs(Content(g, frames, place.layer, slot));
    }
    RowColDiv(tile, g.TilesX());
    var tileY, tileX := tile / g.TilesX(), tile % g.TilesX();
    var t, regionStart := TileAt(g, chunkOffset, tileY, tileX), StartAt(g, tileY, tileX);
    CopyInRange(g, place.plane, tile);
    ghost var before := chunk.buffer;
    chunk.WriteTileRows(t, frame, regionStart, g.RowBytes());
    TileWritten(g, frames, sf, frame, place.layer, place.group, place.plane, tile, before, chunk.buffer);
    FlagStaysExact(g, frames, sf, frame, place.layer, place.group, place.plane, tile, before, chunk.buffer);
    copied := t.width * t.rows;
  }

  /** Slots of the frame's group that have its tile already; the rest is as before. */
  ghost predicate TilesHold(chunks: seq<Chunk?>, before: seq<seq<Byte>>, after: seq<seq<Byte>>, from: nat, lo: nat, hi: nat)
    reads chunks
  {
    && |chunks| == |before| == |after|
    && forall slot :: 0 <= slot < |chunks| ==>
         if slot < from then chunks[slot] == null
         else SlotHolds(chunks[slot], if lo <= slot < hi then after[slot] else before[slot])
  }

  /** The next slot of the group gets its tile. */
  method WriteNextTile(g: Geo, flush: FlushState, slot: nat, chunkOffset: nat, tile: nat, frame: seq<Byte>,
                       ghost frames: Frames, ghost sf: nat, ghost place: Place,
                       ghost before: seq<seq<Byte>>, ghost after: seq<seq<Byte>>, ghost extra: nat, ghost lo: nat)
    returns (copied: nat)
    requires g.Valid() && sf !in frames && Locate(g.dims, sf) == place
    requires place.group < GroupCount(g.dims) && place.plane < PlaneCount(g.dims) && tile < g.Tiles()
    requires slot == SlotIn(g, place.group, tile) && extra <= lo <= slot < |flush.chunks|
    requires chunkOffset == place.plane * g.TileBytes() && |frame| == g.FrameBytes()
    requires TilesHold(flush.chunks, before, after, extra, lo, slot) && Separate(flush.chunks)
    requires before[slot] == Content(g, frames, place.layer, slot)
    requires after[slot] == Content(g, frames[sf := frame], place.layer, slot)
    modifies flush`chunks, if flush.chunks[slot] == null then {} else {flush.chunks[slot]}
    ensures TilesHold(flush.chunks, before, after, extra, lo, slot + 1) && Separate(flush.chunks)
    ensures forall i :: 0 <= i < |flush.chunks| && i != slot ==> flush.chunks[i] == old(flush.chunks[i])
    ensures flush.chunks[slot] == old(flush.chunks[slot]) || fresh(flush.chunks[slot])
    ensures copied == BytesOfTile(g, tile)
  {
    copied := WriteTile(g, flush, slot, chunkOffset, tile, frame, frames, sf, place);
  }

  /** All tiles of a frame: the slots of the layer move from the frames before it to the frames with it. */
  method WriteTiles(g: Geo, flush: FlushState, groupOffset: nat, chunkOffset: nat, frame: seq<Byte>,
                    ghost frames: Frames, ghost frames': Frames, ghost sf: nat, ghost place: Place, ghost layer: nat,
                    ghost before: seq<seq<Byte>>, ghost after: seq<seq<Byte>>, ghost extra: nat)
    returns (bytesWritten: nat)
    requires g.Valid() && sf !in frames && frames' == frames[sf := frame] && |frame| == g.FrameBytes()
    requires Locate(g.dims, sf) == place && place.layer == layer
    requires groupOffset == SlotIn(g, place.group, 0) && chunkOffset == place.plane * g.TileBytes()
    requires extra <= groupOffset
    requires AreContents(before, g, frames, layer) && AreContents(after, g, frames', layer)
    requires SlotsHold(flush.chunks, before, extra) && Separate(flush.chunks)
    modifies flush`chunks, flush.chunks
    ensures |flush.chunks| == |old(flush.chunks)| && SlotsHold(flush.chunks, after, extra) && Separate(flush.chunks)
    ensures forall i :: 0 <= i < |flush.chunks| ==> flush.chunks[i] == old(flush.chunks[i]) || fresh(flush.chunks[i])
    ensures forall i :: groupOffset + g.Tiles() <= i < |flush.chunks| ==> flush.chunks[i] == old(flush.chunks[i])
    ensures bytesWritten == g.FrameBytes()
  {
    assert Look(0);
    GroupInLayer(g, sf, place, groupOffset);
    ghost var t := CopyTask(g, frames, sf, frame, place, groupOffset, chunkOffset, before, after);
    bytesWritten := CopyTiles(g, flush, groupOffset, chunkOffset, frame, t, extra);
    GroupDone(g, flush.chunks, frames, sf, frame, place, before, after, extra, groupOffset);
  }

  lemma GroupInLayer(g: Geo, sf: nat, place: Place, groupOffset: nat)
    requires g.Valid() && Locate(g.dims, sf) == place && groupOffset == SlotIn(g, place.group, 0)
    ensures place.group < GroupCount(g.dims) && place.plane < PlaneCount(g.dims)
    ensures groupOffset + g.Tiles() <= LayerChunks(g.dims)
  {
    PlaceOfFrame(g.dims, sf);
    SlotsAreGroups(g.dims);
    LastStep(place.group, GroupCount(g.dims), g.Tiles());
  }

  method CopyTiles(g: Geo, flush: FlushState, groupOffset: nat, chunkOffset: nat, frame: seq<Byte>,
                   ghost t: CopyTask, ghost extra: nat)
    returns (bytesWritten: nat)
    requires g.Valid() && t.g == g && t.frame == frame && t.groupOffset == groupOffset && t.chunkOffset == chunkOffset && IsTask(t)
    requires extra <= groupOffset && groupOffset + g.Tiles() <= |flush.chunks| && |t.after| == |t.before|
    requires SlotsHold(flush.chunks, t.before, extra) && Separate(flush.chunks)
    modifies flush`chunks, flush.chunks
    ensures TilesHold(flush.chunks, t.before, t.after, extra, groupOffset, groupOffset + g.Tiles()) && Separate(flush.chunks)
    ensures forall i :: groupOffset + g.Tiles() <= i < |flush.chunks| ==> flush.chunks[i] == old(flush.chunks[i])
    ensures forall i :: 0 <= i < |flush.chunks| ==> flush.chunks[i] == old(flush.chunks[i]) || fresh(flush.chunks[i])
    ensures bytesWritten == g.FrameBytes()
  {
    bytesWritten := 0;
    for tile := 0 to TileCount(g)
      invariant TilesHold(flush.chunks, t.before, t.after, extra, groupOffset, groupOffset + tile)
      invariant Separate(flush.chunks)
      invariant forall i :: 0 <= i < |flush.chunks| ==> flush.chunks[i] == old(flush.chunks[i]) || fresh(flush.chunks[i])
      invariant |flush.chunks| == |old(flush.chunks)|
      invariant forall i :: groupOffset + tile <= i < |flush.chunks| ==> flush.chunks[i] == old(flush.chunks[i])
      invariant bytesWritten == BytesBefore(g, tile)
    {
      var copied := CopyTile(g, flush, tile, groupOffset, chunkOffset, frame, t, extra);
      bytesWritten := bytesWritten + copied;
    }
    TilesAreFrame(g);
  }

  /** The frame that is being copied, where it goes, and the contents of the slots before it and with it. */
  datatype CopyTask = CopyTask(g: Geo, frames: Frames, sf: nat, frame: seq<Byte>, place: Place,
                               groupOffset: nat, chunkOffset: nat, before: seq<seq<Byte>>, after: seq<seq<Byte>>)

  /** Kept closed. */
  ghost predicate IsTask(t: CopyTask) {
    forall x {:trigger Look(x)} :: Look(x) ==>
      && t.g.Valid() && t.sf !in t.frames && Locate(t.g.dims, t.sf) == t.place && |t.frame| == t.g.FrameBytes()
      && t.place.group < GroupCount(t.g.dims) && t.place.plane < PlaneCount(t.g.dims)
      && t.groupOffset == SlotIn(t.g, t.place.group, 0) && t.chunkOffset == t.place.plane * t.g.TileBytes()
      && (forall slot :: 0 <= slot < |t.before| ==> t.before[slot] == Content(t.g, t.frames, t.place.layer, slot))
      && (forall slot :: 0 <= slot < |t.after| ==> t.after[slot] == Content(t.g, t.frames[t.sf := t.frame], t.place.layer, slot))
  }

  /** One turn of the loop. */
  method CopyTile(g: Geo, flush: FlushState, tile: nat, groupOffset: nat, chunkOffset: nat, frame: seq<Byte>,
                  ghost t: CopyTask, ghost extra: nat)
    returns (copied: nat)
    requires g.Valid() && t.g == g && t.frame == frame && t.groupOffset == groupOffset && t.chunkOffset == chunkOffset && IsTask(t)
    requires tile < g.Tiles() && extra <= groupOffset && groupOffset + tile < |flush.chunks|
    requires TilesHold(flush.chunks, t.before, t.after, extra, groupOffset, groupOffset + tile) && Separate(flush.chunks)
    modifies flush`chunks, if flush.chunks[groupOffset + tile] == null then {} else {flush.chunks[groupOffset + tile]}
    ensures TilesHold(flush.chunks, t.before, t.after, extra, groupOffset, groupOffset + tile + 1) && Separate(flush.chunks)
    ensures forall i :: 0 <= i < |flush.chunks| && i != groupOffset + tile ==> flush.chunks[i] == old(flush.chunks[i])
    ensures var slot := groupOffset + tile; flush.chunks[slot] == old(flush.chunks[slot]) || fresh(flush.chunks[slot])
    ensures copied == BytesOfTile(g, tile)
  {
    assert Look(0);
    copied := WriteNextTile(g, flush, tile + groupOffset, chunkOffset, tile, frame, t.frames, t.sf, t.place,
                            t.before, t.after, extra, groupOffset);
  }

  function TileCount(g: Geo): (n: nat)
    requires g.Valid()
    ensures n == g.Tiles()
  {
    g.TilesX() * g.TilesY()
  }

  lemma GroupDone(g: Geo, chunks: seq<Chunk?>, frames: Frames, sf: nat, frame: seq<Byte>, place: Place,
                  before: seq<seq<Byte>>, after: seq<seq<Byte>>, extra: nat, groupOffset: nat)
    requires g.Valid() && Locate(g.dims, sf) == place && groupOffset == place.group * g.Tiles()
    requires before == LayerContents(g, frames, place.layer) && after == LayerContents(g, frames[sf := frame], place.layer)
    requires TilesHold(chunks, before, after, extra, groupOffset, groupOffset + g.Tiles())
    ensures SlotsHold(chunks, after, extra)
  {
    forall slot: nat | slot < |before| && !(groupOffset <= slot < groupOffset + g.Tiles()) ensures after[slot] == before[slot] {
      OutsideGroup(g, frames, sf, frame, place, slot);
    }
  }

  lemma OutsideGroup(g: Geo, frames: Frames, sf: nat, frame: seq<Byte>, place: Place, slot: nat)
    requires g.Valid() && Locate(g.dims, sf) == place && slot < LayerChunks(g.dims)
    requires !(place.group * g.Tiles() <= slot < place.group * g.Tiles() + g.Tiles())
    ensures Content(g, frames[sf := frame], place.layer, slot) == Content(g, frames, place.layer, slot)
  {
    GeoPositive(g);
    SlotsAreGroups(g.dims);
    RowColDiv(slot, g.Tiles());
    OtherContent(g, frames, sf, frame, place.layer, slot);
  }
}

/** The tiles of a frame have as many bytes together as the frame (src/streaming/array.cpp, write_frame_to_chunks_). */
module TileBytes {
  import opened Arith
  import opened Grid
  import opened Dimensions
  import opened ChunkContent

  /** Bytes the program copies for tile `tile`. */
  function BytesOfTile(g: Geo, tile: nat): nat
    requires g.Valid()
  {
    TileCopy(g, 0, tile).width * TileCopy(g, 0, tile).rows
  }

  /** Bytes of the tiles before `k`. */
  function BytesBefore(g: Geo, k: nat): nat
    requires g.Valid()
  {
    if k == 0 then 0 else BytesBefore(g, k - 1) + BytesOfTile(g, k - 1)
  }

  /** Rows (columns) of the frame in the tiles before the one that starts at `from`. */
  function Clip(from: nat, frame: nat): nat {
    if from < frame then from else frame
  }

  lemma ClipStep(tile: nat, frame: nat, from: nat)
    ensures Clip(from + tile, frame) == Clip(from, frame) + CopyCount(tile, frame, from)
  {
  }

  /** Bytes copied for the tile in tile row `ty`, tile column `tx`. */
  function Area(t: Shape, ty: nat, tx: nat): nat {
    CopyCount(t.tileCols, t.cols, tx * t.tileCols) * t.bpp * CopyCount(t.tileRows, t.rows, ty * t.tileRows)
  }

  datatype Shape = Shape(rows: nat, cols: nat, tileRows: nat, tileCols: nat, bpp: nat)

  function ShapeOf(g: Geo): Shape
    requires g.Valid()
  {
    Shape(g.FrameRows(), g.FrameCols(), g.TileRows(), g.TileCols(), g.bpp)
  }

  /** Bytes of `ty` complete rows of tiles and `tx` tiles of the next. */
  function AreaBefore(t: Shape, ty: nat, tx: nat): nat {
    var y0: nat, x0: nat := ty * t.tileRows, tx * t.tileCols;
    Product3(Clip(y0, t.rows), t.cols, t.bpp) + Product3(CopyCount(t.tileRows, t.rows, y0), Clip(x0, t.cols), t.bpp)
  }

  function Product3(a: nat, b: nat, c: nat): nat {
    var ab: nat := a * b;
    ab * c
  }

  lemma AreaStep(t: Shape, ty: nat, tx: nat)
    ensures AreaBefore(t, ty, tx + 1) == AreaBefore(t, ty, tx) + Area(t, ty, tx)
  {
    assert (tx + 1) * t.tileCols == tx * t.tileCols + t.tileCols;
    ClipStep(t.tileCols, t.cols, tx * t.tileCols);
    SpreadTwo(CopyCount(t.tileRows, t.rows, ty * t.tileRows), Clip(tx * t.tileCols, t.cols),
              CopyCount(t.tileCols, t.cols, tx * t.tileCols), t.bpp);
  }

  lemma AreaRow(t: Shape, ty: nat, tilesX: nat)
    requires tilesX * t.tileCols >= t.cols
    ensures AreaBefore(t, ty + 1, 0) == AreaBefore(t, ty, tilesX)
  {
    assert (ty + 1) * t.tileRows == ty * t.tileRows + t.tileRows;
    ClipStep(t.tileRows, t.rows, ty * t.tileRows);
    SpreadRows(Clip(ty * t.tileRows, t.rows), CopyCount(t.tileRows, t.rows, ty * t.tileRows), t.cols, t.bpp);
  }

  lemma SpreadTwo(r: int, a: int, b: int, p: int)
    ensures r * (a + b) * p == r * a * p + b * p * r
  {
    assert r * (a + b) == r * a + r * b;
    assert (r * a + r * b) * p == r * a * p + r * b * p;
    assert b * p * r == r * b * p;
  }

  lemma SpreadRows(a: int, b: int, c: int, p: int)
    ensures (a + b) * c * p == a * c * p + b * c * p
  {
    assert (a + b) * c == a * c + b * c;
    assert (a * c + b * c) * p == a * c * p + b * c * p;
  }

  /** Tile numbers run along the rows of tiles. */
  lemma BytesAre(g: Geo, k: nat, ty: nat, tx: nat)
    requires g.Valid() && g.TilesX() > 0 && tx < g.TilesX() && k == ty * g.TilesX() + tx
    ensures BytesOfTile(g, k) == Area(ShapeOf(g), ty, tx)
  {
    RowColOf(ty, g.TilesX(), tx);
  }

  lemma {:induction false} BytesInRows(g: Geo, t: Shape, k: nat, ty: nat, tx: nat)
    requires g.Valid() && t == ShapeOf(g) && g.TilesX() > 0 && tx < g.TilesX() && k == ty * g.TilesX() + tx
    ensures BytesBefore(g, k) == AreaBefore(t, ty, tx)
    decreases k
  {
    if tx > 0 {
      BytesInRows(g, t, k - 1, ty, tx - 1);
      BytesAre(g, k - 1, ty, tx - 1);
      AreaStep(t, ty, tx - 1);
    } else if ty > 0 {
      var last: nat := g.TilesX() - 1;
      PreviousRow(ty, g.TilesX());
      BytesInRows(g, t, k - 1, ty - 1, last);
      BytesAre(g, k - 1, ty - 1, last);
      AreaStep(t, ty - 1, last);
      CeilDivCovers(g.FrameCols(), g.TileCols());
      AreaRow(t, ty - 1, g.TilesX());
    }
  }

  lemma PreviousRow(ty: nat, n: nat)
    requires ty > 0 && n > 0
    ensures ty * n - 1 == (ty - 1) * n + (n - 1) && ty * n > 0
  {
    MulPos(ty, n);
  }

  /** Every byte of the frame is in exactly one tile: the tiles add up to the frame. */
  lemma TilesAreFrame(g: Geo)
    requires g.Valid()
    ensures BytesBefore(g, g.Tiles()) == g.FrameBytes()
  {
    GeoPositive(g);
    CeilDivCovers(g.FrameRows(), g.TileRows());
    BytesInRows(g, ShapeOf(g), g.Tiles(), g.TilesY(), 0);
    WholeFrame(ShapeOf(g), g.TilesY());
  }

  lemma WholeFrame(t: Shape, tilesY: nat)
    requires tilesY * t.tileRows >= t.rows
    ensures AreaBefore(t, tilesY, 0) == t.bpp * t.rows * t.cols
  {
    assert CopyCount(t.tileRows, t.rows, tilesY * t.tileRows) == 0;
    TilesTimes(t.rows, t.cols, t.bpp);
  }

  lemma TilesTimes(rows: int, cols: int, bpp: int)
    ensures rows * cols * bpp == bpp * rows * cols
  {
  }
}
