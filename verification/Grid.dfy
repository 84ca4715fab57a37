/**
 The placement the store promises, the regular grid of the Zarr core specification v3: an array is cut into chunks, the chunk
 lattice into shards, of `shard` chunk layers in each append generation.  The stride formulas of the program are proved equal to it.
 */
module Grid {
  import opened Arith
  import opened Lattice
  import opened Tiling

  datatype Kind = Space | Channel | Time | Other

  /** One axis in storage order.  `size == 0` on axis 0 means unbounded. */
  datatype Dim = Dim(kind: Kind, size: nat, chunk: nat, shard: nat)

  /** What the settings check leaves: only the append axis may be unbounded. */
  predicate ValidDims(dims: seq<Dim>) {
    && |dims| >= 3
    && (forall i :: 0 <= i < |dims| ==> dims[i].chunk > 0 && dims[i].shard > 0)
    && (forall i :: 1 <= i < |dims| ==> dims[i].size > 0)
  }

  function ArraySizes(dims: seq<Dim>): (s: seq<nat>)
    ensures |s| == |dims| && forall i :: 0 <= i < |s| ==> s[i] == dims[i].size
  {
    if dims == [] then [] else [dims[0].size] + ArraySizes(dims[1..])
  }

  function ChunkSizes(dims: seq<Dim>): (s: seq<nat>)
    ensures |s| == |dims| && forall i :: 0 <= i < |s| ==> s[i] == dims[i].chunk
  {
    if dims == [] then [] else [dims[0].chunk] + ChunkSizes(dims[1..])
  }

  function ShardSizes(dims: seq<Dim>): (s: seq<nat>)
    ensures |s| == |dims| && forall i :: 0 <= i < |s| ==> s[i] == dims[i].shard
  {
    if dims == [] then [] else [dims[0].shard] + ShardSizes(dims[1..])
  }

  function ChunkCounts(dims: seq<Dim>): seq<nat>
    requires forall i :: 0 <= i < |dims| ==> dims[i].chunk > 0
  {
    Counts(ArraySizes(dims), ChunkSizes(dims))
  }

  function ShardCounts(dims: seq<Dim>): seq<nat>
    requires forall i :: 0 <= i < |dims| ==> dims[i].chunk > 0 && dims[i].shard > 0
  {
    Counts(ChunkCounts(dims), ShardSizes(dims))
  }

  /** Chunks of one layer, that is of one append-chunk index. */
  function LayerChunks(dims: seq<Dim>): nat
    requires ValidDims(dims)
  {
    Size(ChunkCounts(dims)[1..])
  }

  function ShardCount(dims: seq<Dim>): nat
    requires ValidDims(dims)
  {
    Size(ShardCounts(dims)[1..])
  }

  function ChunksPerShard(dims: seq<Dim>): nat {
    Size(ShardSizes(dims))
  }

  /** Shard, within one append generation, that holds the chunk at lattice coordinate `q`. */
  function ShardOf(dims: seq<Dim>, q: seq<nat>): nat
    requires ValidDims(dims) && |q| == |dims|
  {
    Rank(Quotients(q, ShardSizes(dims))[1..], ShardCounts(dims)[1..])
  }

  /** Position of that chunk in the shard's index. */
  function InternalOf(dims: seq<Dim>, q: seq<nat>): nat
    requires ValidDims(dims) && |q| == |dims|
  {
    Rank(Remainders(q, ShardSizes(dims)), ShardSizes(dims))
  }

  /** A chunk's coordinate relative to its generation, whose number is its layer over the shard's. */
  function InGeneration(dims: seq<Dim>, q: seq<nat>): (q': seq<nat>)
    requires ValidDims(dims) && |q| == |dims|
    ensures |q'| == |q|
  {
    [Col(q[0], dims[0].shard)] + q[1..]
  }

  /** Lattice coordinate (append axis relative to the generation) of entry `i` of shard `s`. */
  function EntryCoord(dims: seq<Dim>, s: nat, i: nat): (q: seq<nat>)
    requires ValidDims(dims)
    ensures |q| == |dims|
  {
    GridPositive(dims);
    assert ShardCounts(dims)[1..][1..] == ShardCounts(dims)[2..];
    Combine([0] + Unrank(s, ShardCounts(dims)[1..]), ShardSizes(dims), Unrank(i, ShardSizes(dims)))
  }

  lemma GridPositive(dims: seq<Dim>)
    requires ValidDims(dims)
    ensures AllPositive(ArraySizes(dims)[1..])
    ensures AllPositive(ChunkSizes(dims)) && AllPositive(ShardSizes(dims))
    ensures AllPositive(ChunkCounts(dims)[1..]) && AllPositive(ShardCounts(dims)[1..])
    ensures AllPositive(ShardCounts(dims)[1..][1..]) && AllPositive(ShardSizes(dims)[1..])
    ensures LayerChunks(dims) > 0 && ShardCount(dims) > 0 && ChunksPerShard(dims) > 0
    ensures Size(ShardSizes(dims)[1..]) > 0
  {
    CountsPositive(ArraySizes(dims), ChunkSizes(dims));
    CountsPositive(ChunkCounts(dims), ShardSizes(dims));
    SizePositive(ChunkCounts(dims)[1..]);
    SizePositive(ShardCounts(dims)[1..]);
    SizePositive(ShardSizes(dims));
    SizePositive(ShardSizes(dims)[1..]);
  }

  /** Each chunk of a generation has a shard and an index entry, from which it is found again. */
  lemma EntryOfChunk(dims: seq<Dim>, q: seq<nat>)
    requires ValidDims(dims)
    requires InTail(q, ChunkCounts(dims)) && q[0] < dims[0].shard
    ensures ShardOf(dims, q) < ShardCount(dims)
    ensures InternalOf(dims, q) < ChunksPerShard(dims)
    ensures EntryCoord(dims, ShardOf(dims, q), InternalOf(dims, q)) == q
  {
    GridPositive(dims);
    var tile, counts := ShardSizes(dims), ShardCounts(dims);
    var s, r := Quotients(q, tile), Remainders(q, tile);
    QuotientsInCounts(q, ChunkCounts(dims), tile);
    SplitCombine(q, tile);
    assert InBox(s[1..], counts[1..]) by {
      assert forall i :: 0 <= i < |s| - 1 ==> s[1..][i] == s[i + 1] && counts[1..][i] == counts[i + 1];
    }
    RankBound(s[1..], counts[1..]);
    UnrankRank(s[1..], counts[1..]);
    RankBound(r, tile);
    UnrankRank(r, tile);
    assert s[0] == 0 by {
      DivLess(q[0], 1, tile[0]);
    }
    assert s == [0] + s[1..];
  }

  /** Each entry of each shard stands for one coordinate of the (padded) lattice, and for no other. */
  lemma ChunkOfEntry(dims: seq<Dim>, s: nat, i: nat)
    requires ValidDims(dims)
    requires s < ShardCount(dims) && i < ChunksPerShard(dims)
    ensures ShardOf(dims, EntryCoord(dims, s, i)) == s
    ensures InternalOf(dims, EntryCoord(dims, s, i)) == i
    ensures EntryCoord(dims, s, i)[0] == Row(i, Size(ShardSizes(dims)[1..])) < dims[0].shard
  {
    GridPositive(dims);
    var tile, counts := ShardSizes(dims), ShardCounts(dims);
    RankUnrank(s, counts[1..]);
    RankUnrank(i, tile);
    var q, r := [0] + Unrank(s, counts[1..]), Unrank(i, tile);
    assert InBox(r, tile);
    CombineSplit(q, tile, r);
    assert q[1..] == Unrank(s, counts[1..]);
    assert EntryCoord(dims, s, i)[0] == r[0];
  }

  /** The entry stands for a chunk of the array, not for ragged padding. */
  predicate LiveEntry(dims: seq<Dim>, s: nat, i: nat)
    requires ValidDims(dims)
  {
    InTail(EntryCoord(dims, s, i), ChunkCounts(dims))
  }

  // ----- Frames inside a layer ---------------------------------------------------------

  /** The axes a frame is addressed by: all but rows and columns. */
  function FrameDims(dims: seq<Dim>): seq<Dim>
    requires |dims| >= 2
  {
    dims[..|dims| - 2]
  }

  /** Where a frame lands: append-chunk index, group of slots, plane within each of their chunks. */
  datatype Place = Place(layer: nat, group: nat, plane: nat)

  /** Frames per chunk. */
  function PlaneCount(dims: seq<Dim>): nat
    requires ValidDims(dims)
  {
    Size(ChunkSizes(FrameDims(dims)))
  }

  /** Groups of slots per layer; the tiles of one frame fill one group. */
  function GroupCount(dims: seq<Dim>): nat
    requires ValidDims(dims)
  {
    Size(ChunkCounts(FrameDims(dims))[1..])
  }

  function Locate(dims: seq<Dim>, frame: nat): Place
    requires ValidDims(dims)
  {
    FramePositive(dims);
    var f := FrameDims(dims);
    var c := Unrank(frame, ArraySizes(f));
    var q, r := Quotients(c, ChunkSizes(f)), Remainders(c, ChunkSizes(f));
    Place(q[0], Rank(q[1..], ChunkCounts(f)[1..]), Rank(r, ChunkSizes(f)))
  }

  /** Frame coordinate of a place; it can lie in the padding of a ragged axis. */
  function PlaceCoord(dims: seq<Dim>, p: Place): (c: seq<nat>)
    requires ValidDims(dims)
    ensures |c| == |dims| - 2
  {
    FramePositive(dims);
    var f := FrameDims(dims);
    Combine([p.layer] + Unrank(p.group, ChunkCounts(f)[1..]), ChunkSizes(f), Unrank(p.plane, ChunkSizes(f)))
  }

  function FrameAt(dims: seq<Dim>, p: Place): nat
    requires ValidDims(dims)
  {
    Rank(PlaceCoord(dims, p), ArraySizes(FrameDims(dims)))
  }

  predicate HasFrame(dims: seq<Dim>, p: Place)
    requires ValidDims(dims)
  {
    InTail(PlaceCoord(dims, p), ArraySizes(FrameDims(dims)))
  }

  lemma FramePositive(dims: seq<Dim>)
    requires ValidDims(dims)
    ensures var f := FrameDims(dims);
            && |f| >= 1
            && AllPositive(ArraySizes(f)[1..])
            && AllPositive(ChunkSizes(f)) && AllPositive(ChunkSizes(f)[1..])
            && AllPositive(ChunkCounts(f)[1..])
            && AllPositive(if |f| > 1 then ChunkCounts(f)[1..][1..] else [])
    ensures PlaneCount(dims) > 0 && GroupCount(dims) > 0
    ensures Size(ArraySizes(FrameDims(dims))[1..]) > 0
  {
    var f := FrameDims(dims);
    CountsPositive(ArraySizes(f), ChunkSizes(f));
    SizePositive(ChunkSizes(f));
    SizePositive(ChunkCounts(f)[1..]);
    SizePositive(ArraySizes(f)[1..]);
  }

  /** Every frame has a place in range, and is the frame found there. */
  lemma PlaceOfFrame(dims: seq<Dim>, frame: nat)
    requires ValidDims(dims)
    ensures var p := Locate(dims, frame);
            p.group < GroupCount(dims) && p.plane < PlaneCount(dims) && HasFrame(dims, p) && FrameAt(dims, p) == frame
  {
    FramePositive(dims);
    var f := FrameDims(dims);
    var a, tile, counts := ArraySizes(f), ChunkSizes(f), ChunkCounts(f);
    var c := Unrank(frame, a);
    RankUnrank(frame, a);
    var q, r := Quotients(c, tile), Remainders(c, tile);
    QuotientsInCounts(c, a, tile);
    SplitCombine(c, tile);
    assert InBox(q[1..], counts[1..]) by {
      assert forall i :: 0 <= i < |q| - 1 ==> q[1..][i] == q[i + 1] && counts[1..][i] == counts[i + 1];
    }
    RankBound(q[1..], counts[1..]);
    UnrankRank(q[1..], counts[1..]);
    RankBound(r, tile);
    UnrankRank(r, tile);
    assert [q[0]] + q[1..] == q;
  }

  /** Distinct places hold distinct frames: a place that holds a frame is where that frame lands. */
  lemma FrameOfPlace(dims: seq<Dim>, p: Place)
    requires ValidDims(dims)
    requires p.group < GroupCount(dims) && p.plane < PlaneCount(dims) && HasFrame(dims, p)
    ensures Locate(dims, FrameAt(dims, p)) == p
  {
    FramePositive(dims);
    var f := FrameDims(dims);
    var a, tile, counts := ArraySizes(f), ChunkSizes(f), ChunkCounts(f);
    var q, r := [p.layer] + Unrank(p.group, counts[1..]), Unrank(p.plane, tile);
    if |f| > 1 {
      RankUnrank(p.group, counts[1..]);
    }
    RankUnrank(p.plane, tile);
    CombineSplit(q, tile, r);
    UnrankRank(PlaceCoord(dims, p), a);
    assert q[1..] == Unrank(p.group, counts[1..]);
  }
}
