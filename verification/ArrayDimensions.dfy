/** The constructed geometry object, with its tables and the queries on them (src/streaming/array.dimensions.cpp). */
module ArrayGeometry {
  import opened Arith
  import opened Lattice
  import opened Grid
  import opened Dimensions
  import opened ShardTables
  import opened Permutation
  import opened Strides
  import opened Closing
  import Tiling

  /** All chunk ids below `bound` that belong to shard `s`, each once. */
  ghost predicate Lists(dims: seq<Dim>, ids: seq<nat>, s: nat, bound: nat)
    requires ValidDims(dims)
  {
    && Distinct(ids)
    && forall c: nat :: c in ids <==> c < bound && ShardOf(dims, ChunkCoord(dims, c)) == s
  }

  lemma ListsNext(dims: seq<Dim>, ids: seq<nat>, s: nat, bound: nat)
    requires ValidDims(dims) && Lists(dims, ids, s, bound)
    ensures Lists(dims, if ShardOf(dims, ChunkCoord(dims, bound)) == s then ids + [bound] else ids, s, bound + 1)
  {
  }

  lemma FillsNext(dims: seq<Dim>, s: nat, layer: nat, chunks: seq<nat>, internal: seq<nat>, k: nat)
    requires ValidDims(dims) && k < |chunks| && FillLayer(dims, s, layer, chunks[..k], internal)
    requires ChunkOfShardLayer(dims, s, layer, chunks[k])
    ensures FillLayer(dims, s, layer, chunks[..k + 1], internal + [InternalOf(dims, ChunkCoord(dims, chunks[k]))])
  {
  }

  /** Shard, index entry and per-shard lists of the chunk ids below `bound`. */
  method Tables(d: seq<Dim>, shards: nat, bound: nat)
    returns (indices: map<nat, nat>, internal: map<nat, nat>, byShard: seq<seq<nat>>)
    requires ValidDims(d) && shards == ShardCount(d)
    ensures forall c: nat :: c in indices <==> c < bound
    ensures forall c :: c in internal <==> c in indices
    ensures forall c :: c in indices ==>
              indices[c] == ShardOf(d, ChunkCoord(d, c)) && internal[c] == InternalOf(d, ChunkCoord(d, c))
    ensures |byShard| == shards && forall s :: 0 <= s < shards ==> Lists(d, byShard[s], s, bound)
  {
    indices, internal := map[], map[];
    byShard := seq(shards, i => []);
    for i := 0 to bound
      invariant forall c: nat :: c in indices <==> c < i
      invariant forall c :: c in internal <==> c in indices
      invariant forall c :: c in indices ==>
                  indices[c] == ShardOf(d, ChunkCoord(d, c)) && internal[c] == InternalOf(d, ChunkCoord(d, c))
      invariant |byShard| == shards && forall s :: 0 <= s < shards ==> Lists(d, byShard[s], s, i)
    {
      var shardIndex := ShardIndexForChunk(d, i);
      var internalIndex := ShardInternalIndex(d, i);
      ShardInRange(d, i);
      forall s | 0 <= s < shards
        ensures Lists(d, if shardIndex == s then byShard[s] + [i] else byShard[s], s, i + 1)
      {
        ListsNext(d, byShard[s], s, i);
      }
      indices := indices[i := shardIndex];
      internal := internal[i := internalIndex];
      byShard := byShard[shardIndex := byShard[shardIndex] + [i]];
    }
  }

  class ArrayDimensions {
    const dims: seq<Dim>
    const numberOfChunksInMemory: nat
    const chunksPerShard: nat
    const numberOfShards: nat
    const shardIndices: map<nat, nat>
    const shardInternalIndices: map<nat, nat>
    const chunkIndicesForShard: seq<seq<nat>>

    /** The tables are right; kept closed, since few proofs need to look inside. */
    ghost predicate Valid() {
      ValidDims(dims) && forall x {:trigger Look(x)} :: Look(x) ==> Tabled()
    }

    ghost predicate Tabled()
      requires ValidDims(dims)
    {
      && numberOfChunksInMemory == LayerChunks(dims)
      && chunksPerShard == ChunksPerShard(dims)
      && numberOfShards == ShardCount(dims) == |chunkIndicesForShard|
      && (forall c: nat :: c in shardIndices <==> c < chunksPerShard * numberOfShards)
      && (forall c :: c in shardInternalIndices <==> c in shardIndices)
      && (forall c :: c in shardIndices ==>
            && shardIndices[c] == ShardOf(dims, ChunkCoord(dims, c))
            && shardInternalIndices[c] == InternalOf(dims, ChunkCoord(dims, c)))
      && (forall s :: 0 <= s < numberOfShards ==> Lists(dims, chunkIndicesForShard[s], s, chunksPerShard * numberOfShards))
    }

    constructor (d: seq<Dim>)
      requires ValidDims(d)
      ensures Valid() && dims == d
    {
      GridPositive(d);
      var sizes := ChunkCounts(d);
      var inMemory := Product(sizes[1..]);
      var perShard := Product(ShardSizes(d));
      var shards := Product(ShardCounts(d)[1..]);
      var bound := perShard * shards;
      var indices, internal, byShard := Tables(d, shards, bound);
      dims := d;
      numberOfChunksInMemory := inMemory;
      chunksPerShard := perShard;
      numberOfShards := shards;
      shardIndices := indices;
      shardInternalIndices := internal;
      chunkIndicesForShard := byShard;
    }

    method ChunkIndicesForShardLayer(s: nat, layer: nat) returns (ids: seq<nat>)
      requires Valid() && s < numberOfShards && layer < dims[0].shard
      ensures Distinct(ids)
      ensures forall c: nat :: c in ids <==> ChunkOfShardLayer(dims, s, layer, c)
    {
      assert Look(0);
      GridPositive(dims);
      var all := chunkIndicesForShard[s];
      ids := [];
      for k := 0 to |all|
        invariant Distinct(ids)
        invariant forall c :: c in ids <==> c in all[..k] && Row(c, numberOfChunksInMemory) == layer
      {
        assert all[k] !in all[..k];
        assert all[..k + 1] == all[..k] + [all[k]];
        RowColDiv(all[k], numberOfChunksInMemory);
        if all[k] / numberOfChunksInMemory == layer {
          ids := ids + [all[k]];
        }
      }
      assert all[..|all|] == all;
      forall c: nat | ChunkOfShardLayer(dims, s, layer, c) ensures c in all {
        RowColDiv(c, numberOfChunksInMemory);
        DivLess(c, dims[0].shard, numberOfChunksInMemory);
        TableCoversChunks(dims, c);
      }
    }

    /** The padding entries of a shard layer: those the layer's chunks leave out. */
    method SkippedInternalIndicesForShardLayer(s: nat, layer: nat) returns (skipped: seq<nat>)
      requires Valid() && s < numberOfShards && layer < dims[0].shard
      ensures Distinct(skipped)
      ensures forall i: nat :: i in skipped <==> EntryOfLayer(dims, layer, i) && !LiveEntry(dims, s, i)
    {
      assert Look(0);
      GridPositive(dims);
      EntryLayer(dims, layer, 0);
      var perLayer := chunksPerShard / dims[0].shard;
      assert perLayer == EntriesPerLayer(dims) by {
        DivModUnique(EntriesPerLayer(dims), dims[0].shard, 0);
      }
      var layerIndices := ChunkIndicesForShardLayer(s, layer);
      var internal := InternalIndices(s, layer, layerIndices);
      if |layerIndices| == perLayer {
        forall i: nat | EntryOfLayer(dims, layer, i) ensures LiveEntry(dims, s, i) {
          FullLayerHasNoPadding(dims, s, layer, layerIndices, internal, i);
        }
        return [];
      }
      skipped := Missing(perLayer * layer, perLayer, internal);
      InternalAreLive(s, layer, layerIndices, internal);
    }

    method InternalIndices(s: nat, layer: nat, layerIndices: seq<nat>) returns (internal: seq<nat>)
      requires Valid() && s < numberOfShards && layer < dims[0].shard
      requires forall c: nat :: c in layerIndices ==> ChunkOfShardLayer(dims, s, layer, c)
      ensures FillLayer(dims, s, layer, layerIndices, internal)
    {
      assert Look(0);
      internal := [];
      for k := 0 to |layerIndices|
        invariant FillLayer(dims, s, layer, layerIndices[..k], internal)
      {
        InTables(s, layer, layerIndices[k]);
        FillsNext(dims, s, layer, layerIndices, internal, k);
        internal := internal + [shardInternalIndices[layerIndices[k]]];
      }
      assert layerIndices[..|layerIndices|] == layerIndices;
    }

    /** The numbers of a range that are not listed, in order. */
    method Missing(first: nat, n: nat, internal: seq<nat>) returns (skipped: seq<nat>)
      ensures Distinct(skipped)
      ensures forall x: nat :: x in skipped <==> first <= x < first + n && x !in internal
    {
      skipped := [];
      for i := 0 to n
        invariant Distinct(skipped)
        invariant forall x: nat :: x in skipped <==> first <= x < first + i && x !in internal
      {
        if first + i !in internal {
          skipped := skipped + [first + i];
        }
      }
    }

    lemma Sizes()
      requires Valid()
      ensures numberOfChunksInMemory == LayerChunks(dims) && numberOfShards == ShardCount(dims)
    {
      assert Look(0);
    }

    lemma InTables(s: nat, layer: nat, c: nat)
      requires Valid() && s < numberOfShards && layer < dims[0].shard
      requires ChunkOfShardLayer(dims, s, layer, c)
      ensures c in shardIndices && c in shardInternalIndices
      ensures shardIndices[c] == s && shardInternalIndices[c] == InternalOf(dims, ChunkCoord(dims, c))
    {
      assert Look(0);
      GridPositive(dims);
      RowColDiv(c, numberOfChunksInMemory);
      DivLess(c, dims[0].shard, numberOfChunksInMemory);
      TableCoversChunks(dims, c);
    }

    lemma InternalAreLive(s: nat, layer: nat, chunks: seq<nat>, internal: seq<nat>)
      requires Valid() && s < numberOfShards && layer < dims[0].shard
      requires forall c: nat :: c in chunks <==> ChunkOfShardLayer(dims, s, layer, c)
      requires FillLayer(dims, s, layer, chunks, internal)
      ensures forall i: nat :: EntryOfLayer(dims, layer, i) ==> (i in internal <==> LiveEntry(dims, s, i))
    {
      assert Look(0);
      forall i: nat | EntryOfLayer(dims, layer, i) ensures i in internal <==> LiveEntry(dims, s, i) {
        if i in internal {
          var j :| 0 <= j < |internal| && internal[j] == i;
          assert chunks[j] in chunks;
          ChunkFillsEntry(dims, s, layer, chunks[j]);
        }
        if LiveEntry(dims, s, i) {
          EntryFilledByChunk(dims, s, layer, i);
          assert ChunkOf(dims, s, i) in chunks;
          var j :| 0 <= j < |chunks| && chunks[j] == ChunkOf(dims, s, i);
        }
      }
    }
  }

  lemma ShardInRange(dims: seq<Dim>, chunkIndex: nat)
    requires ValidDims(dims)
    ensures ShardOf(dims, ChunkCoord(dims, chunkIndex)) < ShardCount(dims)
  {
    ChunkIdSplits(dims, chunkIndex);
    var q := ChunkCoord(dims, chunkIndex);
    ShardBound(dims, q);
  }

  lemma ShardBound(dims: seq<Dim>, q: seq<nat>)
    requires ValidDims(dims) && InTail(q, ChunkCounts(dims))
    ensures ShardOf(dims, q) < ShardCount(dims)
  {
    var q' := q[0 := 0];
    EntryOfChunk(dims, q');
    Tiling.QuotientTail(q, q', ShardSizes(dims));
  }
}
