/** A chunk buffer filled tile by tile (src/streaming/chunk.cpp). */
module Chunk {
  import opened Arith
  import opened Bytes

  /** Where a tile goes: first byte, distance between its rows, number and length of the row pieces copied. */
  datatype Tile = Tile(offset: nat, stride: nat, rows: nat, width: nat) {
    ghost predicate Valid() {
      0 < stride && width <= stride
    }
  }

  /** Byte `o` of the chunk lies in one of the first `rows` copied row pieces. */
  predicate InRows(t: Tile, o: nat, rows: nat) {
    t.stride > 0 && o >= t.offset && Row(o - t.offset, t.stride) < rows && Col(o - t.offset, t.stride) < t.width
  }

  predicate InRow(t: Tile, o: nat, r: nat) {
    t.offset + r * t.stride <= o < t.offset + r * t.stride + t.width
  }

  predicate Covered(t: Tile, o: nat) {
    InRows(t, o, t.rows)
  }

  /** Where byte `o` comes from in the source. */
  function SourceIndex(t: Tile, o: nat, srcStart: nat, srcStride: nat): nat
    requires t.stride > 0 && o >= t.offset
  {
    srcStart + Row(o - t.offset, t.stride) * srcStride + Col(o - t.offset, t.stride)
  }

  lemma InNextRow(t: Tile, o: nat, r: nat)
    requires t.Valid()
    ensures InRows(t, o, r + 1) <==> InRows(t, o, r) || InRow(t, o, r)
    ensures InRow(t, o, r) ==> !InRows(t, o, r) && Row(o - t.offset, t.stride) == r
                               && Col(o - t.offset, t.stride) == o - t.offset - r * t.stride
  {
    if InRow(t, o, r) {
      RowColOf(r, t.stride, o - t.offset - r * t.stride);
    } else if o >= t.offset {
      RowColDiv(o - t.offset, t.stride);
    }
  }

  /** Some byte copied by the first `rows` rows is nonzero. */
  ghost predicate HasData(buffer: seq<Byte>, t: Tile, rows: nat) {
    exists o :: 0 <= o < |buffer| && InRows(t, o, rows) && buffer[o] != 0
  }

  predicate Nonzero(src: seq<Byte>, from: nat, n: nat)
    requires from + n <= |src|
  {
    exists k :: from <= k < from + n && src[k] != 0
  }

  /** The first `rows` rows are in place and nothing else has changed. */
  ghost predicate CopiedRows(before: seq<Byte>, buffer: seq<Byte>, t: Tile, rows: nat,
                             src: seq<Byte>, srcStart: nat, srcStride: nat) {
    && |buffer| == |before|
    && (forall o :: 0 <= o < |buffer| && !InRows(t, o, rows) ==> buffer[o] == before[o])
    && (forall o :: 0 <= o < |buffer| && InRows(t, o, rows) ==>
          SourceIndex(t, o, srcStart, srcStride) < |src| && buffer[o] == src[SourceIndex(t, o, srcStart, srcStride)])
  }

  /** A piece spliced in at row `r`. */
  ghost predicate SplicedRow(prev: seq<Byte>, buffer: seq<Byte>, t: Tile, r: nat, src: seq<Byte>, s: nat) {
    && |buffer| == |prev| && s + t.width <= |src|
    && (forall o :: 0 <= o < |buffer| && !InRow(t, o, r) ==> buffer[o] == prev[o])
    && (forall o :: 0 <= o < |buffer| && InRow(t, o, r) ==> buffer[o] == src[s + (o - t.offset - r * t.stride)])
  }

  lemma Splice(prev: seq<Byte>, t: Tile, r: nat, src: seq<Byte>, s: nat, d: nat)
    requires d == t.offset + r * t.stride && d + t.width <= |prev| && s + t.width <= |src|
    ensures SplicedRow(prev, prev[..d] + src[s..s + t.width] + prev[d + t.width..], t, r, src, s)
  {
  }

  lemma RowCopied(before: seq<Byte>, prev: seq<Byte>, buffer: seq<Byte>, t: Tile, r: nat,
                  src: seq<Byte>, srcStart: nat, srcStride: nat)
    requires t.Valid() && CopiedRows(before, prev, t, r, src, srcStart, srcStride)
    requires SplicedRow(prev, buffer, t, r, src, srcStart + r * srcStride)
    ensures CopiedRows(before, buffer, t, r + 1, src, srcStart, srcStride)
  {
    forall o: nat | o < |buffer|
      ensures !InRows(t, o, r + 1) ==> buffer[o] == before[o]
      ensures InRows(t, o, r + 1) ==>
                SourceIndex(t, o, srcStart, srcStride) < |src| && buffer[o] == src[SourceIndex(t, o, srcStart, srcStride)]
    {
      InNextRow(t, o, r);
    }
  }

  lemma RowFlag(prev: seq<Byte>, buffer: seq<Byte>, t: Tile, r: nat, src: seq<Byte>, s: nat)
    requires t.Valid() && SplicedRow(prev, buffer, t, r, src, s)
    requires t.offset + r * t.stride + t.width <= |buffer|
    ensures HasData(buffer, t, r + 1) <==> HasData(prev, t, r) || Nonzero(src, s, t.width)
  {
    if k :| s <= k < s + t.width && src[k] != 0 {
      var o := t.offset + r * t.stride + (k - s);
      InNextRow(t, o, r);
      assert buffer[o] != 0;
    }
    if o: nat :| o < |prev| && InRows(t, o, r) && prev[o] != 0 {
      InNextRow(t, o, r);
      assert buffer[o] != 0;
    }
    if o: nat :| o < |buffer| && InRows(t, o, r + 1) && buffer[o] != 0 {
      InNextRow(t, o, r);
    }
  }

  class Chunk {
    const sizeBytes: nat
    var buffer: seq<Byte>
    var hasData: bool

    constructor (size: nat)
      requires size > 0
      ensures sizeBytes == size && buffer == Zeros(size) && !hasData
    {
      sizeBytes := size;
      buffer := Zeros(size);
      hasData := false;
    }

    /**
     Copies a tile in, row by row: exactly the covered bytes change, each to its source byte, and
     the flag is set exactly when it was, or one of them is nonzero.
     */
    method WriteTileRows(t: Tile, src: seq<Byte>, srcStart: nat, srcStride: nat)
      requires t.Valid()
      requires t.rows > 0 && t.width > 0 ==>
                 && t.offset + (t.rows - 1) * t.stride + t.width <= |buffer|
                 && srcStart + (t.rows - 1) * srcStride + t.width <= |src|
      modifies this
      ensures CopiedRows(old(buffer), buffer, t, t.rows, src, srcStart, srcStride)
      ensures hasData <==> old(hasData) || HasData(buffer, t, t.rows)
    {
      if t.rows == 0 || t.width == 0 {
        return;
      }
      var anyNonzero := hasData;
      for r := 0 to t.rows
        invariant CopiedRows(old(buffer), buffer, t, r, src, srcStart, srcStride)
        invariant hasData == old(hasData)
        invariant anyNonzero <==> hasData || HasData(buffer, t, r)
      {
        MulMono(r, t.rows - 1, t.stride);
        MulMono(r, t.rows - 1, srcStride);
        var d, s := t.offset + r * t.stride, srcStart + r * srcStride;
        ghost var prev := buffer;
        Splice(prev, t, r, src, s, d);
        buffer := buffer[..d] + src[s..s + t.width] + buffer[d + t.width..];
        RowCopied(old(buffer), prev, buffer, t, r, src, srcStart, srcStride);
        RowFlag(prev, buffer, t, r, src, s);
        if !anyNonzero {
          anyNonzero := AnyNonzero(src, s, t.width);
        }
      }
      if anyNonzero {
        hasData := true;
      }
    }
  }

  method AnyNonzero(src: seq<Byte>, from: nat, n: nat) returns (any: bool)
    requires from + n <= |src|
    ensures any <==> Nonzero(src, from, n)
  {
    for k := from to from + n
      invariant forall j :: from <= j < k ==> src[j] == 0
    {
      if src[k] != 0 {
        return true;
      }
    }
    any := false;
  }
}
