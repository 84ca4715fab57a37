/**
 Which chunks of a layer go to which shard entry, and which entries are padding
 (src/streaming/array.dimensions.cpp, shard tables and layer queries).
 */
module ShardTables {
  import opened Arith
  import opened Lattice
  import opened Tiling
  import opened Grid
  import opened Dimensions
  import opened Permutation

  /** Slot, within its layer, of the chunk at a lattice coordinate. */
  function SlotOf(dims: seq<Dim>, q: seq<nat>): nat
    requires ValidDims(dims) && |q| == |dims|
  {
    Rank(q[1..], ChunkCounts(dims)[1..])
  }

  /** Entries of a shard that one layer fills. */
  function EntriesPerLayer(dims: seq<Dim>): nat {
    if |dims| == 0 then 0 else Size(ShardSizes(dims)[1..])
  }

  function LayerStart(dims: seq<Dim>, layer: nat): nat {
    layer * EntriesPerLayer(dims)
  }

  predicate EntryOfLayer(dims: seq<Dim>, layer: nat, i: nat) {
    LayerStart(dims, layer) <= i < LayerStart(dims, layer) + EntriesPerLayer(dims)
  }

  lemma EntryLayer(dims: seq<Dim>, layer: nat, i: nat)
    requires ValidDims(dims)
    ensures EntriesPerLayer(dims) > 0
    ensures EntryOfLayer(dims, layer, i) <==> Row(i, EntriesPerLayer(dims)) == layer
    ensures ChunksPerShard(dims) == dims[0].shard * EntriesPerLayer(dims)
    ensures EntryOfLayer(dims, layer, i) && layer < dims[0].shard ==> i < ChunksPerShard(dims)
  {
    GridPositive(dims);
    RowColDiv(i, EntriesPerLayer(dims));
    DivRange(i, layer, EntriesPerLayer(dims));
  }

  /** Chunk ids count layers of slots. */
  lemma ChunkIdSplits(dims: seq<Dim>, chunkIndex: nat)
    requires ValidDims(dims)
    ensures LayerChunks(dims) > 0
    ensures var q := ChunkCoord(dims, chunkIndex);
            && q[0] == Row(chunkIndex, LayerChunks(dims))
            && SlotOf(dims, q) == Col(chunkIndex, LayerChunks(dims))
            && Rank(q, ChunkCounts(dims)) == chunkIndex
  {
    GridPositive(dims);
    var q := ChunkCoord(dims, chunkIndex);
    RankUnrank(chunkIndex, ChunkCounts(dims));
    RankHead(q, ChunkCounts(dims));
  }

  /** The chunk slots of a generation's layer `layer` that belong to shard `s`. */
  predicate ChunkOfShardLayer(dims: seq<Dim>, s: nat, layer: nat, chunkIndex: nat)
    requires ValidDims(dims)
  {
    GridPositive(dims);
    Row(chunkIndex, LayerChunks(dims)) == layer && ShardOf(dims, ChunkCoord(dims, chunkIndex)) == s
  }

  /** A chunk of the layer fills a live entry of the layer's range, from which it is found again. */
  lemma ChunkFillsEntry(dims: seq<Dim>, s: nat, layer: nat, chunkIndex: nat)
    requires ValidDims(dims) && layer < dims[0].shard
    requires ChunkOfShardLayer(dims, s, layer, chunkIndex)
    ensures var i := InternalOf(dims, ChunkCoord(dims, chunkIndex));
            && s < ShardCount(dims) && i < ChunksPerShard(dims)
            && EntryOfLayer(dims, layer, i) && LiveEntry(dims, s, i)
            && EntryCoord(dims, s, i) == ChunkCoord(dims, chunkIndex)
  {
    ChunkIdSplits(dims, chunkIndex);
    var q := ChunkCoord(dims, chunkIndex);
    EntryOfChunk(dims, q);
    ChunkOfEntry(dims, s, InternalOf(dims, q));
    EntryLayer(dims, layer, InternalOf(dims, q));
  }

  /** The chunk a live entry stands for. */
  function ChunkOf(dims: seq<Dim>, s: nat, i: nat): nat
    requires ValidDims(dims)
  {
    Rank(EntryCoord(dims, s, i), ChunkCounts(dims))
  }

  /** A live entry of the layer's range is filled by exactly one chunk of the layer. */
  lemma EntryFilledByChunk(dims: seq<Dim>, s: nat, layer: nat, i: nat)
    requires ValidDims(dims) && s < ShardCount(dims) && layer < dims[0].shard
    requires EntryOfLayer(dims, layer, i) && LiveEntry(dims, s, i)
    ensures ChunkOfShardLayer(dims, s, layer, ChunkOf(dims, s, i))
    ensures ChunkCoord(dims, ChunkOf(dims, s, i)) == EntryCoord(dims, s, i)
    ensures InternalOf(dims, ChunkCoord(dims, ChunkOf(dims, s, i))) == i
    ensures forall c: nat :: ChunkOfShardLayer(dims, s, layer, c) && InternalOf(dims, ChunkCoord(dims, c)) == i
                             ==> c == ChunkOf(dims, s, i)
  {
    EntryLayer(dims, layer, i);
    ChunkOfEntry(dims, s, i);
    GridPositive(dims);
    var q := EntryCoord(dims, s, i);
    UnrankRank(q, ChunkCounts(dims));
    ChunkIdSplits(dims, ChunkOf(dims, s, i));
    forall c: nat | ChunkOfShardLayer(dims, s, layer, c) && InternalOf(dims, ChunkCoord(dims, c)) == i
      ensures c == ChunkOf(dims, s, i)
    {
      ChunkFillsEntry(dims, s, layer, c);
      ChunkIdSplits(dims, c);
    }
  }

  lemma MulLe(a: nat, b: nat, c: nat, d: nat)
    requires a <= c && b <= d
    ensures a * b <= c * d
  {
    MulMono(a, c, b);
    MulMono(b, d, c);
  }

  /** The slots of the far tiles included, a tiling has room for every coordinate. */
  lemma {:induction false} TilingCovers(extent: seq<nat>, tile: seq<nat>)
    requires |extent| == |tile| && AllPositive(tile)
    ensures Size(extent) <= Size(Counts(extent, tile)) * Size(tile)
  {
    if extent != [] {
      TilingCovers(extent[1..], tile[1..]);
      CeilDivCovers(extent[0], tile[0]);
      var n, t := CeilDiv(extent[0], tile[0]), tile[0];
      var ns, ts := Size(Counts(extent[1..], tile[1..])), Size(tile[1..]);
      MulLe(extent[0], Size(extent[1..]), n * t, ns * ts);
      assert n * t * (ns * ts) == n * ns * (t * ts) by {
        MulShuffle(n, t, ns, ts);
      }
    }
  }

  /** Every chunk id of a generation is in the tables. */
  lemma TableCoversChunks(dims: seq<Dim>, chunkIndex: nat)
    requires ValidDims(dims)
    requires chunkIndex < dims[0].shard * LayerChunks(dims)
    ensures chunkIndex < ChunksPerShard(dims) * ShardCount(dims)
  {
    GridPositive(dims);
    var counts, tile := ChunkCounts(dims)[1..], ShardSizes(dims)[1..];
    assert Counts(counts, tile) == ShardCounts(dims)[1..];
    TilingCovers(counts, tile);
    var a, s, k := dims[0].shard, Size(tile), ShardCount(dims);
    MulMono(LayerChunks(dims), k * s, a);
    assert a * (k * s) == a * s * k by { MulAssoc(a, s, k); }
  }

  /** The entries of one layer of one shard: those its chunks fill, and the rest. */
  lemma FullLayerHasNoPadding(dims: seq<Dim>, s: nat, layer: nat, chunks: seq<nat>, internal: seq<nat>, i: nat)
    requires ValidDims(dims) && s < ShardCount(dims) && layer < dims[0].shard
    requires |internal| == |chunks| == EntriesPerLayer(dims) && Distinct(chunks)
    requires FillLayer(dims, s, layer, chunks, internal)
    requires EntryOfLayer(dims, layer, i)
    ensures LiveEntry(dims, s, i)
  {
    FilledEntries(dims, s, layer, chunks, internal);
    DistinctFill(internal, LayerStart(dims, layer), i);
    var j :| 0 <= j < |internal| && internal[j] == i;
    ChunkFillsEntry(dims, s, layer, chunks[j]);
  }

  /** `internal` lists the index entries of the layer's chunks. */
  ghost predicate FillLayer(dims: seq<Dim>, s: nat, layer: nat, chunks: seq<nat>, internal: seq<nat>)
    requires ValidDims(dims)
  {
    && |internal| == |chunks|
    && forall j :: 0 <= j < |chunks| ==> ChunkOfShardLayer(dims, s, layer, chunks[j])
                                         && internal[j] == InternalOf(dims, ChunkCoord(dims, chunks[j]))
  }

  lemma FilledEntries(dims: seq<Dim>, s: nat, layer: nat, chunks: seq<nat>, internal: seq<nat>)
    requires ValidDims(dims) && s < ShardCount(dims) && layer < dims[0].shard
    requires Distinct(chunks) && FillLayer(dims, s, layer, chunks, internal)
    ensures Distinct(internal)
    ensures forall j :: 0 <= j < |internal| ==> EntryOfLayer(dims, layer, internal[j])
  {
    forall i, j | 0 <= i < j < |internal| ensures internal[i] != internal[j] {
      if internal[i] == internal[j] {
        EntryFilledByOne(dims, s, layer, chunks[i], chunks[j]);
      }
    }
    forall j | 0 <= j < |internal| ensures EntryOfLayer(dims, layer, internal[j]) {
      ChunkFillsEntry(dims, s, layer, chunks[j]);
    }
  }

  /** As many numbers of a range as it has, without repetition, are all of it. */
  lemma DistinctFill(list: seq<nat>, first: nat, i: nat)
    requires Distinct(list) && first <= i < first + |list|
    requires forall j :: 0 <= j < |list| ==> first <= list[j] < first + |list|
    ensures i in list
  {
    var local: seq<nat> := seq(|list|, j requires 0 <= j < |list| => list[j] - first);
    Onto(local, i - first);
    var j :| 0 <= j < |local| && local[j] == i - first;
    assert list[j] == i;
  }

  lemma EntryFilledByOne(dims: seq<Dim>, s: nat, layer: nat, c: nat, d: nat)
    requires ValidDims(dims) && layer < dims[0].shard
    requires ChunkOfShardLayer(dims, s, layer, c) && ChunkOfShardLayer(dims, s, layer, d)
    requires InternalOf(dims, ChunkCoord(dims, c)) == InternalOf(dims, ChunkCoord(dims, d))
    ensures c == d
  {
    ChunkFillsEntry(dims, s, layer, c);
    EntryFilledByChunk(dims, s, layer, InternalOf(dims, ChunkCoord(dims, c)));
  }
}
