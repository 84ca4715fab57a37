/**
 What a chunk must hold: each byte is the byte of the frame that the regular grid puts there, and 0
 in padding and where no frame was written.  Writing the tiles of one frame moves the chunks of a
 layer from the content for the frames so far to the content with that frame.
 */
module ChunkContent {
  import opened Arith
  import opened Lattice
  import opened Bytes
  import opened Grid
  import opened Dimensions
  import opened Chunk

  /** Frames by storage frame id, rows and columns in storage order. */
  type Frames = map<nat, seq<Byte>>

  datatype Geo = Geo(dims: seq<Dim>, bpp: nat) {
    ghost predicate Valid() {
      ValidDims(dims) && bpp > 0
    }

    function FrameRows(): nat requires |dims| >= 2 { dims[|dims| - 2].size }
    function FrameCols(): nat requires |dims| >= 2 { dims[|dims| - 1].size }
    function TileRows(): nat requires |dims| >= 2 { dims[|dims| - 2].chunk }
    function TileCols(): nat requires |dims| >= 2 { dims[|dims| - 1].chunk }

    /** Bytes of a frame row, of a tile row, of a tile, of a frame. */
    function RowBytes(): nat requires |dims| >= 2 { FrameCols() * bpp }
    function TileRowBytes(): nat requires |dims| >= 2 { TileCols() * bpp }
    function TileBytes(): nat requires |dims| >= 2 { bpp * TileCols() * TileRows() }
    function FrameBytes(): nat requires |dims| >= 2 { bpp * FrameRows() * FrameCols() }

    function TilesX(): nat requires ValidDims(dims) { CeilDiv(FrameCols(), TileCols()) }
    function TilesY(): nat requires ValidDims(dims) { CeilDiv(FrameRows(), TileRows()) }
    function Tiles(): nat requires ValidDims(dims) { TilesPerFrame(dims) }
    function ChunkBytes(): nat requires ValidDims(dims) { PlaneCount(dims) * TileBytes() }
  }

  lemma GeoPositive(g: Geo)
    requires g.Valid()
    ensures g.TileRowBytes() > 0 && g.TileBytes() > 0 && g.RowBytes() > 0 && g.FrameBytes() > 0
    ensures g.TilesX() > 0 && g.TilesY() > 0 && g.Tiles() > 0 && g.ChunkBytes() > 0
    ensures g.TileBytes() == g.TileRows() * g.TileRowBytes()
    ensures g.FrameBytes() == g.FrameRows() * g.RowBytes()
    ensures g.Tiles() == g.TilesY() * g.TilesX()
  {
    FramePositive(g.dims);
    MulPos(g.TileCols(), g.bpp);
    MulPos(g.bpp, g.TileCols());
    MulPos(g.bpp * g.TileCols(), g.TileRows());
    MulPos(g.FrameCols(), g.bpp);
    MulPos(g.bpp, g.FrameRows());
    MulPos(g.bpp * g.FrameRows(), g.FrameCols());
    CeilDivOf(0, g.FrameCols(), g.TileCols());
    CeilDivOf(0, g.FrameRows(), g.TileRows());
    MulPos(g.TilesY(), g.TilesX());
    MulPos(PlaneCount(g.dims), g.TileBytes());
    MulCycle(g.bpp, g.TileCols(), g.TileRows());
    MulCycle2(g.bpp, g.FrameRows(), g.FrameCols());
  }

  lemma MulCycle(a: int, b: int, c: int)
    ensures a * b * c == c * (b * a)
  {
  }

  lemma MulCycle2(a: int, b: int, c: int)
    ensures a * b * c == b * (c * a)
  {
  }

  /** Frame row and frame byte column of byte `x` of tile `tile`. */
  function FrameRow(g: Geo, tile: nat, x: nat): nat
    requires g.Valid()
  {
    GeoPositive(g);
    Row(tile, g.TilesX()) * g.TileRows() + Row(x, g.TileRowBytes())
  }

  function FrameColumn(g: Geo, tile: nat, x: nat): nat
    requires g.Valid()
  {
    GeoPositive(g);
    Col(tile, g.TilesX()) * g.TileRowBytes() + Col(x, g.TileRowBytes())
  }

  function PlaceOf(g: Geo, layer: nat, slot: nat, o: nat): Place
    requires g.Valid()
  {
    GeoPositive(g);
    Place(layer, Row(slot, g.Tiles()), Row(o, g.TileBytes()))
  }

  /** Byte `o` of the chunk in slot `slot` of layer `layer`. */
  function ContentByte(g: Geo, frames: Frames, layer: nat, slot: nat, o: nat): Byte
    requires g.Valid()
  {
    GeoPositive(g);
    var p := PlaceOf(g, layer, slot, o);
    var y := FrameRow(g, Col(slot, g.Tiles()), Col(o, g.TileBytes()));
    var x := FrameColumn(g, Col(slot, g.Tiles()), Col(o, g.TileBytes()));
    if HasFrame(g.dims, p) && y < g.FrameRows() && x < g.RowBytes() then
      var at: nat := y * g.RowBytes() + x;
      FrameByte(frames, FrameAt(g.dims, p), at)
    else 0
  }

  function FrameByte(frames: Frames, frame: nat, at: nat): Byte {
    if frame in frames && at < |frames[frame]| then frames[frame][at] else 0
  }

  function Content(g: Geo, frames: Frames, layer: nat, slot: nat): (c: seq<Byte>)
    requires g.Valid()
    ensures |c| == g.ChunkBytes()
    ensures forall o :: 0 <= o < |c| ==> c[o] == ContentByte(g, frames, layer, slot, o)
  {
    seq(g.ChunkBytes(), o requires o >= 0 => ContentByte(g, frames, layer, slot, o))
  }

  // ----- Writing one tile ----------------------------------------------------------------

  /** The copy the program makes for tile `tile` of a frame that lands on plane `plane`. */
  function TileCopy(g: Geo, plane: nat, tile: nat): Tile
    requires g.Valid()
  {
    GeoPositive(g);
    TileAt(g, plane * g.TileBytes(), Row(tile, g.TilesX()), Col(tile, g.TilesX()))
  }

  /** The same, by the tile's position in the frame. */
  function TileAt(g: Geo, chunkOffset: nat, tileY: nat, tileX: nat): Tile
    requires g.Valid()
  {
    var row0: nat, col0: nat := tileY * g.TileRows(), tileX * g.TileCols();
    Tile(chunkOffset, g.TileRowBytes(),
         CopyCount(g.TileRows(), g.FrameRows(), row0),
         CopyCount(g.TileCols(), g.FrameCols(), col0) * g.bpp)
  }

  /** How many of `tile` rows (columns) starting at `from` the frame still has. */
  function CopyCount(tile: nat, frame: nat, from: nat): nat {
    if from >= frame then 0 else if tile <= frame - from then tile else frame - from
  }

  function CopyStart(g: Geo, tile: nat): nat
    requires g.Valid()
  {
    GeoPositive(g);
    StartAt(g, Row(tile, g.TilesX()), Col(tile, g.TilesX()))
  }

  /** Frame byte the copy of that tile starts from. */
  function StartAt(g: Geo, tileY: nat, tileX: nat): nat
    requires g.Valid()
  {
    var row0: nat, col0: nat := tileY * g.TileRows(), tileX * g.TileCols();
    var at: nat := row0 * g.FrameCols() + col0;
    g.bpp * at
  }

  /** A byte of the tile is inside the copied columns exactly when it is inside the frame. */
  lemma ColumnInFrame(tx: nat, w: nat, cols: nat, bpp: nat, c: nat)
    requires bpp > 0 && c < w * bpp
    ensures tx * (w * bpp) + c < cols * bpp <==> c < CopyCount(w, cols, tx * w) * bpp
  {
    var from := tx * w;
    assert tx * (w * bpp) == from * bpp by { MulAssoc(tx, w, bpp); }
    if from >= cols {
      MulMono(cols, from, bpp);
    } else if w <= cols - from {
      MulMono(w, cols - from, bpp);
      assert (cols - from) * bpp == cols * bpp - from * bpp;
    } else {
      assert (cols - from) * bpp == cols * bpp - from * bpp;
    }
  }

  lemma RowInTile(g: Geo, x: nat)
    requires g.Valid() && x < g.TileBytes()
    ensures g.TileRowBytes() > 0 && Row(x, g.TileRowBytes()) < g.TileRows()
  {
    GeoPositive(g);
    RowColDiv(x, g.TileRowBytes());
    DivLess(x, g.TileRows(), g.TileRowBytes());
  }

  /** The source byte of tile byte `x` is the frame byte at its row and column. */
  lemma SourceByte(g: Geo, tile: nat, x: nat)
    requires g.Valid()
    ensures g.TileRowBytes() > 0
    ensures CopyStart(g, tile) + Row(x, g.TileRowBytes()) * g.RowBytes() + Col(x, g.TileRowBytes())
            == FrameRow(g, tile, x) * g.RowBytes() + FrameColumn(g, tile, x)
  {
    GeoPositive(g);
    SourceArith(g.bpp, Row(tile, g.TilesX()) * g.TileRows(), g.FrameCols(), Col(tile, g.TilesX()), g.TileCols(),
                Row(x, g.TileRowBytes()));
  }

  lemma SourceArith(bpp: nat, row0: nat, cols: nat, tx: nat, w: nat, r: nat)
    ensures bpp * (row0 * cols + tx * w) + r * (cols * bpp) == (row0 + r) * (cols * bpp) + tx * (w * bpp)
  {
    calc {
      bpp * (row0 * cols + tx * w);
      bpp * (row0 * cols) + bpp * (tx * w);
      { MulShift(bpp, row0, cols); MulShift(bpp, tx, w); }
      row0 * (cols * bpp) + tx * (w * bpp);
    }
    Distribute(row0, r, cols * bpp);
  }

  lemma MulShift(a: int, b: int, c: int)
    ensures a * (b * c) == b * (c * a)
  {
  }

  lemma Distribute(a: int, b: int, c: int)
    ensures (a + b) * c == a * c + b * c
  {
  }

  function SlotIn(g: Geo, group: nat, tile: nat): nat
    requires g.Valid()
  {
    var first: nat := group * g.Tiles();
    first + tile
  }

  lemma SlotOfTile(g: Geo, group: nat, tile: nat)
    requires g.Valid() && tile < g.Tiles()
    ensures Row(SlotIn(g, group, tile), g.Tiles()) == group && Col(SlotIn(g, group, tile), g.Tiles()) == tile
  {
    RowColOf(group, g.Tiles(), tile);
  }

  /** The copy covers, in its own plane, exactly the bytes that lie in the frame. */
  lemma CoveredInFrame(g: Geo, plane: nat, tile: nat, o: nat)
    requires g.Valid() && g.TileBytes() > 0
    ensures Covered(TileCopy(g, plane, tile), o) ==> Row(o, g.TileBytes()) == plane
    ensures Row(o, g.TileBytes()) == plane ==>
              var x := Col(o, g.TileBytes());
              && o == plane * g.TileBytes() + x
              && (Covered(TileCopy(g, plane, tile), o)
                  <==> FrameRow(g, tile, x) < g.FrameRows() && FrameColumn(g, tile, x) < g.RowBytes())
  {
    GeoPositive(g);
    var t := TileCopy(g, plane, tile);
    RowColDiv(o, g.TileBytes());
    if Row(o, g.TileBytes()) == plane {
      var x := Col(o, g.TileBytes());
      ColumnInFrame(Col(tile, g.TilesX()), g.TileCols(), g.FrameCols(), g.bpp, Col(x, g.TileRowBytes()));
      RowInTile(g, x);
    } else if Covered(t, o) {
      var x := o - t.offset;
      RowColDiv(x, t.stride);
      DivLess(x, g.TileRows(), t.stride);
      RowColOf(plane, g.TileBytes(), x);
    }
  }

  /** One byte of the chunk before and after the tile of frame `sf` is copied into it. */
  lemma ByteWritten(g: Geo, frames: Frames, sf: nat, frame: seq<Byte>, layer: nat, group: nat, plane: nat, tile: nat,
                    before: seq<Byte>, after: seq<Byte>, o: nat)
    requires g.Valid() && g.TileBytes() > 0
    requires group < GroupCount(g.dims) && tile < g.Tiles() && o < |before| == |after| == g.ChunkBytes()
    requires Locate(g.dims, sf) == Place(layer, group, plane) && |frame| == g.FrameBytes()
    requires before[o] == ContentByte(g, frames, layer, SlotIn(g, group, tile), o)
    requires var t := TileCopy(g, plane, tile);
             && t.stride > 0
             && (!Covered(t, o) ==> after[o] == before[o])
             && (Covered(t, o) ==> var i := SourceIndex(t, o, CopyStart(g, tile), g.RowBytes());
                                   i < |frame| && after[o] == frame[i])
    ensures after[o] == ContentByte(g, frames[sf := frame], layer, SlotIn(g, group, tile), o)
  {
    SlotOfTile(g, group, tile);
    PlaceOfFrame(g.dims, sf);
    CoveredInFrame(g, plane, tile, o);
    var p := PlaceOf(g, layer, SlotIn(g, group, tile), o);
    var x := Col(o, g.TileBytes());
    if p.plane == plane {
      SourceByte(g, tile, x);
    } else {
      PlaneInRange(g, o);
      if HasFrame(g.dims, p) {
        FrameOfPlace(g.dims, p);
      }
    }
  }

  lemma PlaneInRange(g: Geo, o: nat)
    requires g.Valid() && o < g.ChunkBytes()
    ensures g.TileBytes() > 0 && Row(o, g.TileBytes()) < PlaneCount(g.dims)
  {
    GeoPositive(g);
    RowColDiv(o, g.TileBytes());
    DivLess(o, PlaneCount(g.dims), g.TileBytes());
  }

  /** Copying a tile of a frame turns the content for the frames so far into the content with that frame. */
  lemma TileWritten(g: Geo, frames: Frames, sf: nat, frame: seq<Byte>, layer: nat, group: nat, plane: nat, tile: nat,
                    before: seq<Byte>, after: seq<Byte>)
    requires g.Valid()
    requires group < GroupCount(g.dims) && tile < g.Tiles()
    requires Locate(g.dims, sf) == Place(layer, group, plane) && |frame| == g.FrameBytes()
    requires before == Content(g, frames, layer, SlotIn(g, group, tile))
    requires var t := TileCopy(g, plane, tile); CopiedRows(before, after, t, t.rows, frame, CopyStart(g, tile), g.RowBytes())
    ensures after == Content(g, frames[sf := frame], layer, SlotIn(g, group, tile))
  {
    GeoPositive(g);
    forall o: nat | o < |after|
      ensures after[o] == ContentByte(g, frames[sf := frame], layer, SlotIn(g, group, tile), o)
    {
      ByteWritten(g, frames, sf, frame, layer, group, plane, tile, before, after, o);
    }
  }

  /** A frame leaves every chunk outside its layer and group as it was. */
  lemma OtherContent(g: Geo, frames: Frames, sf: nat, frame: seq<Byte>, layer: nat, slot: nat)
    requires g.Valid() && slot < GroupCount(g.dims) * g.Tiles()
    requires g.Tiles() > 0 && var p := Locate(g.dims, sf); p.layer != layer || p.group != Row(slot, g.Tiles())
    ensures Content(g, frames[sf := frame], layer, slot) == Content(g, frames, layer, slot)
  {
    RowColDiv(slot, g.Tiles());
    DivLess(slot, GroupCount(g.dims), g.Tiles());
    forall o: nat | o < g.ChunkBytes()
      ensures ContentByte(g, frames[sf := frame], layer, slot, o) == ContentByte(g, frames, layer, slot, o)
    {
      PlaneInRange(g, o);
      var p := PlaceOf(g, layer, slot, o);
      if HasFrame(g.dims, p) {
        FrameOfPlace(g.dims, p);
      }
    }
  }

  /** With no frame of the layer written, its chunks are empty. */
  lemma NoFramesNoContent(g: Geo, frames: Frames, layer: nat, slot: nat)
    requires g.Valid() && slot < GroupCount(g.dims) * g.Tiles()
    requires forall sf :: sf in frames ==> Locate(g.dims, sf).layer != layer
    ensures AllZero(Content(g, frames, layer, slot))
  {
    GeoPositive(g);
    RowColDiv(slot, g.Tiles());
    DivLess(slot, GroupCount(g.dims), g.Tiles());
    forall o: nat | o < g.ChunkBytes() ensures ContentByte(g, frames, layer, slot, o) == 0 {
      PlaneInRange(g, o);
      var p := PlaceOf(g, layer, slot, o);
      if HasFrame(g.dims, p) {
        FrameOfPlace(g.dims, p);
      }
    }
  }

  /** The bytes a new frame is copied over are still 0, so the chunk's flag stays exact. */
  lemma CoveredBytesAreFresh(g: Geo, frames: Frames, sf: nat, layer: nat, group: nat, plane: nat, tile: nat, o: nat)
    requires g.Valid() && sf !in frames
    requires group < GroupCount(g.dims) && tile < g.Tiles() && o < g.ChunkBytes()
    requires Locate(g.dims, sf) == Place(layer, group, plane)
    requires Covered(TileCopy(g, plane, tile), o)
    ensures ContentByte(g, frames, layer, SlotIn(g, group, tile), o) == 0
  {
    GeoPositive(g);
    SlotOfTile(g, group, tile);
    PlaceOfFrame(g.dims, sf);
    CoveredInFrame(g, plane, tile, o);
  }

  /** The flag says "some byte is nonzero", before and after. */
  lemma FlagStaysExact(g: Geo, frames: Frames, sf: nat, frame: seq<Byte>, layer: nat, group: nat, plane: nat, tile: nat,
                       before: seq<Byte>, after: seq<Byte>)
    requires g.Valid() && sf !in frames
    requires group < GroupCount(g.dims) && tile < g.Tiles()
    requires Locate(g.dims, sf) == Place(layer, group, plane)
    requires before == Content(g, frames, layer, SlotIn(g, group, tile))
    requires var t := TileCopy(g, plane, tile); CopiedRows(before, after, t, t.rows, frame, CopyStart(g, tile), g.RowBytes())
    ensures var t := TileCopy(g, plane, tile);
            !AllZero(after) <==> !AllZero(before) || HasData(after, t, t.rows)
  {
    var t := TileCopy(g, plane, tile);
    if !AllZero(before) {
      var o: nat :| o < |before| && before[o] != 0;
      if Covered(t, o) {
        CoveredBytesAreFresh(g, frames, sf, layer, group, plane, tile, o);
      }
      assert after[o] == before[o];
    }
    if !AllZero(after) {
      var o: nat :| o < |after| && after[o] != 0;
      assert !InRows(t, o, t.rows) ==> after[o] == before[o];
    }
  }
}
