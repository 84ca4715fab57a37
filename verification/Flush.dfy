/**
 The flushing half of an array (src/streaming/array.cpp): chunks leave their slots as jobs for the
 shards of the open generation, layer by layer or band by band.
 */
module Flush {
  import opened Arith
  import opened Lattice
  import opened Bytes
  import opened Grid
  import opened Dimensions
  import opened ShardTables
  import opened ArrayGeometry
  import opened ArraySpec
  import opened ArrayTasks
  import opened Submission
  import opened Chunk
  import opened ShardMachine
  import opened Permutation

  class FlushState {
    const dims: ArrayDimensions
    const encode: seq<Byte> -> seq<Byte>
    /** Slots of the open layer; empty until a frame touches them. */
    var chunks: seq<Chunk?>
    /** Jobs dispatched to each shard of the open generation; no shards before the first flush. */
    var shards: seq<Jobs>
    /** Counts the generations rolled over; it is the append index in the paths of the next ones. */
    var appendChunkIndex: nat
    /** What the shards of the closed generations received. */
    ghost var archive: seq<seq<Jobs>>
    var currentLayer: nat
    var flushedBandCount: nat

    constructor (d: ArrayDimensions, e: seq<Byte> -> seq<Byte>)
      requires d.Valid()
      ensures dims == d && encode == e && currentLayer == 0 && flushedBandCount == 0
      ensures shards == [] && archive == [] && appendChunkIndex == 0
      ensures |chunks| == d.numberOfChunksInMemory && forall slot :: 0 <= slot < |chunks| ==> chunks[slot] == null
    {
      dims, encode := d, e;
      chunks := seq(d.numberOfChunksInMemory, i => null);
      shards, archive, appendChunkIndex := [], [], 0;
      currentLayer, flushedBandCount := 0, 0;
    }

    function Dims(): seq<Dim> { dims.dims }

    function Generation(): nat reads this`appendChunkIndex { appendChunkIndex }

    /** The job dispatch_chunk_job_ makes of what is in a slot. */
    function JobOf(c: Chunk?): Task
      reads c
    {
      if c == null || !c.hasData then Skip else Put(encode(c.buffer))
    }

    /** `full` layers of the whole array are flushed, `currentLayer` of them in the open generation. */
    ghost predicate Counter(full: nat)
      reads this`currentLayer, this`appendChunkIndex
    {
      && dims.Valid() && currentLayer < Dims()[0].shard
      && full == Generation() * Dims()[0].shard + currentLayer
    }

    ghost predicate AtLayer(full: nat)
      reads this`currentLayer, this`appendChunkIndex, this`chunks
    {
      Counter(full) && |chunks| == dims.numberOfChunksInMemory
    }

    /** The slots from `from` on hold what `task` asks for, the others have been handed on. */
    ghost predicate Ready(task: Tasks, layer: nat, from: nat)
      reads this`chunks, chunks
    {
      && (forall slot :: 0 <= slot < |chunks| && slot < from ==> chunks[slot] == null)
      && (forall slot :: 0 <= slot < |chunks| && from <= slot ==> JobOf(chunks[slot]) == task(layer, slot))
    }

    /** The open generation has exactly what is due once `full` layers and `extra` slots are flushed. */
    ghost predicate Open(task: Tasks, full: nat, extra: nat)
      reads this`currentLayer, this`appendChunkIndex, this`shards
    {
      && Counter(full)
      && (if shards == [] then currentLayer == 0 && extra == 0
          else ShardsAre(shards, Dims(), task, Generation(), full, extra))
    }

    method MakeShards(ghost task: Tasks, ghost full: nat, ghost extra: nat)
      requires Open(task, full, extra)
      modifies this`shards
      ensures ShardsAre(shards, Dims(), task, Generation(), full, extra)
    {
      dims.Sizes();
      if |shards| == 0 {
        shards := seq(dims.numberOfShards, s => map[]);
        forall s: nat | s < |shards| ensures ShardIs(shards[s], Dims(), task, Generation(), s, full, extra) {
          NothingDueYet(Dims(), task, Generation(), s, full);
        }
      }
      assert shards != [] by {
        GridPositive(Dims());
      }
    }

    method DispatchSkipJob(s: nat, i: nat)
      requires s < |shards| && i !in shards[s]
      modifies this`shards
      ensures shards == Submitted(old(shards), s, i, Skip)
    {
      shards := Submitted(shards, s, i, Skip);
    }

    /** Takes the chunk out of its slot; the next layer allocates anew. */
    method DispatchChunkJob(s: nat, chunkIndex: nat, i: nat, chunkOffset: nat)
      requires s < |shards| && i !in shards[s] && chunkOffset <= chunkIndex < chunkOffset + |chunks|
      modifies this`shards, this`chunks
      ensures chunks == old(chunks)[chunkIndex - chunkOffset := null]
      ensures shards == Submitted(old(shards), s, i, old(JobOf(chunks[chunkIndex - chunkOffset])))
    {
      var chunk := chunks[chunkIndex - chunkOffset];
      chunks := chunks[chunkIndex - chunkOffset := null];
      if chunk == null || !chunk.hasData {
        shards := Submitted(shards, s, i, Skip);
      } else {
        shards := Submitted(shards, s, i, Put(encode(chunk.buffer)));
      }
    }

    /** The closed generations are complete. */
    ghost predicate Archived(task: Tasks, full: nat)
      requires ValidDims(Dims())
      reads this`archive, this`appendChunkIndex
    {
      && |archive| == appendChunkIndex
      && forall g :: 0 <= g < |archive| ==> ShardsAre(archive[g], Dims(), task, g, full, 0)
    }

    // ----- One band ------------------------------------------------------------------------

    method FlushSlot(slot: nat, chunkOffset: nat, ghost task: Tasks, ghost full: nat)
      requires AtLayer(full) && slot < LayerChunks(Dims())
      requires chunkOffset == ChunkId(Dims(), currentLayer, 0)
      requires Ready(task, full, slot)
      requires ShardsAre(shards, Dims(), task, Generation(), full, slot)
      modifies this`shards, this`chunks
      ensures |chunks| == |old(chunks)| && Ready(task, full, slot + 1)
      ensures Kept(old(chunks), chunks, slot + 1)
      ensures ShardsAre(shards, Dims(), task, Generation(), full, slot + 1)
    {
      dims.Sizes();
      var chunkIndex := chunkOffset + slot;
      ChunkGoes(Dims(), task, Generation(), currentLayer, full, slot, chunkIndex);
      dims.InTables(ShardOfId(Dims(), chunkIndex), currentLayer, chunkIndex);
      var s, i := dims.shardIndices[chunkIndex], dims.shardInternalIndices[chunkIndex];
      assert ShardIs(shards[s], Dims(), task, Generation(), s, full, slot);
      ghost var before := shards;
      DispatchChunkJob(s, chunkIndex, i, chunkOffset);
      SlotSubmitted(before, shards, Dims(), task, Generation(), currentLayer, full, slot, chunkIndex);
    }

    /** Flushes one band; the last one completes the layer with its padding. */
    method CompressAndFlushBand(band: nat, nBands: nat, ghost task: Tasks, ghost full: nat)
      requires AtLayer(full) && Banded(Dims()) && nBands == BandCount(Dims()) && band < nBands
      requires Open(task, full, BandStart(Dims(), band)) && Ready(task, full, BandStart(Dims(), band))
      modifies this`shards, this`chunks
      ensures |chunks| == |old(chunks)| && Ready(task, full, BandStart(Dims(), band + 1))
      ensures Kept(old(chunks), chunks, BandStart(Dims(), band + 1))
      ensures ShardsAre(shards, Dims(), task, Generation(), if band + 1 == nBands then full + 1 else full,
                        if band + 1 == nBands then 0 else BandStart(Dims(), band + 1))
    {
      dims.Sizes();
      MakeShards(task, full, BandStart(Dims(), band));
      var chunkOffset := currentLayer * dims.numberOfChunksInMemory;
      var localBegin, localEnd := BandSlots(band, nBands);
      FlushSlots(localBegin, localEnd, chunkOffset, task, full);
      if band + 1 == nBands {
        SkipPadding(task, full);
      }
    }

    /** A band is a contiguous block of slots. */
    method BandSlots(band: nat, nBands: nat) returns (localBegin: nat, localEnd: nat)
      requires dims.Valid() && Banded(Dims()) && nBands == BandCount(Dims()) && band < nBands
      ensures localBegin == BandStart(Dims(), band) && localEnd == BandStart(Dims(), band + 1)
      ensures localBegin <= localEnd <= LayerChunks(Dims())
      ensures band + 1 == nBands ==> localEnd == LayerChunks(Dims())
    {
      dims.Sizes();
      BandSizes(Dims());
      var chunksPerBand := dims.numberOfChunksInMemory / nBands;
      BandRange(band, nBands, chunksPerBand);
      localBegin := band * chunksPerBand;
      localEnd := localBegin + chunksPerBand;
    }

    method FlushSlots(localBegin: nat, localEnd: nat, chunkOffset: nat, ghost task: Tasks, ghost full: nat)
      requires AtLayer(full) && Ready(task, full, localBegin) && localBegin <= localEnd <= LayerChunks(Dims())
      requires chunkOffset == ChunkId(Dims(), currentLayer, 0)
      requires ShardsAre(shards, Dims(), task, Generation(), full, localBegin)
      modifies this`shards, this`chunks
      ensures |chunks| == |old(chunks)| && Ready(task, full, localEnd) && Kept(old(chunks), chunks, localEnd)
      ensures ShardsAre(shards, Dims(), task, Generation(), full, localEnd)
    {
      for slot := localBegin to localEnd
        invariant |chunks| == |old(chunks)| && Ready(task, full, slot) && Kept(old(chunks), chunks, slot)
        invariant ShardsAre(shards, Dims(), task, Generation(), full, slot)
      {
        FlushSlot(slot, chunkOffset, task, full);
      }
    }

    /** Flushes the bands from the first one not flushed yet up to `completed`. */
    method FlushBands(completed: nat, nBands: nat, ghost task: Tasks, ghost full: nat)
      requires AtLayer(full) && Banded(Dims()) && nBands == BandCount(Dims())
      requires flushedBandCount <= completed <= nBands && flushedBandCount < nBands
      requires Open(task, full, BandStart(Dims(), flushedBandCount)) && Ready(task, full, BandStart(Dims(), flushedBandCount))
      modifies this`shards, this`chunks, this`flushedBandCount
      ensures |chunks| == |old(chunks)| && flushedBandCount == completed
      ensures Ready(task, full, BandStart(Dims(), completed)) && Kept(old(chunks), chunks, BandStart(Dims(), completed))
      ensures completed < nBands ==> Open(task, full, BandStart(Dims(), completed))
      ensures completed == nBands ==> ShardsAre(shards, Dims(), task, Generation(), full + 1, 0)
    {
      dims.Sizes();
      for band := flushedBandCount to completed
        invariant |chunks| == |old(chunks)| && Ready(task, full, BandStart(Dims(), band))
        invariant Kept(old(chunks), chunks, BandStart(Dims(), band))
        invariant band < nBands ==> Open(task, full, BandStart(Dims(), band))
        invariant band == nBands ==> ShardsAre(shards, Dims(), task, Generation(), full + 1, 0)
      {
        BandRange(band, nBands, ChunksPerBand(Dims()));
        CompressAndFlushBand(band, nBands, task, full);
        assert shards != [] by {
          GridPositive(Dims());
        }
      }
      flushedBandCount := completed;
    }

    method FlushLayerRemainder(ghost task: Tasks, ghost full: nat)
      requires AtLayer(full) && Banded(Dims()) && flushedBandCount < BandCount(Dims())
      requires Open(task, full, BandStart(Dims(), flushedBandCount)) && Ready(task, full, BandStart(Dims(), flushedBandCount))
      modifies this`shards, this`chunks, this`flushedBandCount
      ensures |chunks| == |old(chunks)| && flushedBandCount == BandCount(Dims())
      ensures forall slot :: 0 <= slot < |chunks| ==> chunks[slot] == null
      ensures ShardsAre(shards, Dims(), task, Generation(), full + 1, 0)
    {
      dims.Sizes();
      BandSizes(Dims());
      FlushBands(BandCount(Dims()), BandCount(Dims()), task, full);
    }

    /** Closes the open generation; the next one starts with no shards. */
    method Rollover()
      modifies this`shards, this`archive, this`appendChunkIndex
      ensures shards == [] && archive == old(archive) + [old(shards)] && appendChunkIndex == old(appendChunkIndex) + 1
    {
      archive := archive + [shards];
      shards := [];
      appendChunkIndex := appendChunkIndex + 1;
    }

    /** When the tasks of flushed chunks stay, so does everything submitted. */
    lemma TasksCarried(task: Tasks, task': Tasks, full: nat, extra: nat)
      requires Open(task, full, extra) && Archived(task, full) && Agree(Dims(), task, task', full, extra)
      ensures Open(task', full, extra) && Archived(task', full)
    {
      if shards != [] {
        StillAre(shards, Dims(), task, task', Generation(), full, extra);
      }
      forall g | 0 <= g < |archive| ensures ShardsAre(archive[g], Dims(), task', g, full, 0) {
        StillAre(archive[g], Dims(), task, task', g, full, 0);
      }
    }

    /** What shard `s` of generation `g` has received. */
    ghost function Received(g: nat, s: nat): Jobs
      reads this`archive, this`shards
    {
      if g < |archive| then (if s < |archive[g]| then archive[g][s] else map[])
      else if g == |archive| && s < |shards| then shards[s]
      else map[]
    }

    /** Every shard of every generation has received its entries of the first `layers` layers, and no others. */
    ghost predicate Delivered(task: Tasks, layers: nat)
      requires ValidDims(Dims())
      reads this`archive, this`shards
    {
      forall g: nat, s: nat :: s < ShardCount(Dims()) ==> ShardIs(Received(g, s), Dims(), task, g, s, layers, 0)
    }

    lemma AllDelivered(task: Tasks, layers: nat, full: nat)
      requires ValidDims(Dims()) && |archive| == Generation() && full <= layers
      requires Generation() * Dims()[0].shard <= full && layers <= (Generation() + 1) * Dims()[0].shard
      requires forall g :: 0 <= g < |archive| ==> ShardsAre(archive[g], Dims(), task, g, full, 0)
      requires if shards == [] then layers == Generation() * Dims()[0].shard
               else ShardsAre(shards, Dims(), task, Generation(), layers, 0)
      ensures Delivered(task, layers)
    {
      forall g: nat, s: nat | s < ShardCount(Dims()) ensures ShardIs(Received(g, s), Dims(), task, g, s, layers, 0) {
        if g < |archive| {
          MulMono(g + 1, |archive|, Dims()[0].shard);
          CompleteStill(archive[g], Dims(), task, g, full, layers);
        } else if g > |archive| || shards == [] {
          MulMono(if g > |archive| then |archive| + 1 else |archive|, g, Dims()[0].shard);
          NothingDueYet(Dims(), task, g, s, layers);
        }
      }
    }

    /** After a complete layer, and after the generation it may have completed, the next layer is open. */
    lemma Advanced(task: Tasks, full: nat, shards0: seq<Jobs>, archive0: seq<seq<Jobs>>, layer0: nat, rolls: bool)
      requires dims.Valid()
      requires layer0 < Dims()[0].shard && full == |archive0| * Dims()[0].shard + layer0
      requires rolls <==> layer0 + 1 == Dims()[0].shard
      requires ShardsAre(shards0, Dims(), task, |archive0|, full + 1, 0)
      requires forall g :: 0 <= g < |archive0| ==> ShardsAre(archive0[g], Dims(), task, g, full, 0)
      requires currentLayer == if rolls then 0 else layer0 + 1
      requires archive == if rolls then archive0 + [shards0] else archive0
      requires shards == if rolls then [] else shards0
      requires appendChunkIndex == |archive|
      ensures Open(task, full + 1, 0) && Archived(task, full + 1)
    {
      GridPositive(Dims());
      assert rolls ==> (|archive0| + 1) * Dims()[0].shard == |archive0| * Dims()[0].shard + Dims()[0].shard;
      forall g | 0 <= g < |archive0| ensures ShardsAre(archive0[g], Dims(), task, g, full + 1, 0) {
        MulMono(g + 1, |archive0|, Dims()[0].shard);
        CompleteStill(archive0[g], Dims(), task, g, full, full + 1);
      }
    }

    lemma BandRange(band: nat, nBands: nat, perBand: nat)
      requires band < nBands
      ensures band * perBand + perBand == (band + 1) * perBand <= nBands * perBand
    {
      MulMono(band + 1, nBands, perBand);
    }

    // ----- Padding -------------------------------------------------------------------------

    /** With every chunk of the layer dispatched, the padding completes it. */
    method SkipPadding(ghost task: Tasks, ghost full: nat)
      requires AtLayer(full)
      requires ShardsAre(shards, Dims(), task, Generation(), full, LayerChunks(Dims()))
      modifies this`shards
      ensures ShardsAre(shards, Dims(), task, Generation(), full + 1, 0)
    {
      dims.Sizes();
      for s := 0 to dims.numberOfShards
        invariant |shards| == ShardCount(Dims())
        invariant forall t :: 0 <= t < s ==> ShardIs(shards[t], Dims(), task, Generation(), t, full + 1, 0)
        invariant forall t :: s <= t < |shards| ==> ShardIs(shards[t], Dims(), task, Generation(), t, full, LayerChunks(Dims()))
      {
        var skipped := dims.SkippedInternalIndicesForShardLayer(s, currentLayer);
        SkipLayerPadding(s, skipped, task, full);
      }
    }

    method SkipLayerPadding(s: nat, skipped: seq<nat>, ghost task: Tasks, ghost full: nat)
      requires AtLayer(full) && s < |shards| == ShardCount(Dims()) && Distinct(skipped)
      requires forall i: nat :: i in skipped <==> EntryOfLayer(Dims(), currentLayer, i) && !LiveEntry(Dims(), s, i)
      requires ShardIs(shards[s], Dims(), task, Generation(), s, full, LayerChunks(Dims()))
      modifies this`shards
      ensures |shards| == |old(shards)| && forall t :: 0 <= t < |shards| && t != s ==> shards[t] == old(shards)[t]
      ensures ShardIs(shards[s], Dims(), task, Generation(), s, full + 1, 0)
    {
      dims.Sizes();
      ghost var before := shards[s];
      PaddingNew(before, Dims(), task, Generation(), currentLayer, s, full, LayerChunks(Dims()), skipped);
      SkipEntries(s, skipped);
      PaddingCompletes(before, shards[s], Dims(), task, Generation(), currentLayer, s, full, LayerChunks(Dims()),
                       skipped, seq(|skipped|, j => Skip));
    }

    /** Submits a list of padding entries. */
    method SkipEntries(s: nat, skipped: seq<nat>)
      requires s < |shards| && AllNew(shards[s], skipped)
      modifies this`shards
      ensures |shards| == |old(shards)| && forall t :: 0 <= t < |shards| && t != s ==> shards[t] == old(shards)[t]
      ensures Added(old(shards)[s], shards[s], skipped, seq(|skipped|, j => Skip))
    {
      ghost var before := shards[s];
      ghost var skips := seq(|skipped|, j => Skip);
      for k := 0 to |skipped|
        invariant |shards| == |old(shards)| && forall t :: 0 <= t < |shards| && t != s ==> shards[t] == old(shards)[t]
        invariant Added(before, shards[s], skipped[..k], skips[..k])
      {
        AddOne(before, shards[s], skipped, skips, k);
        DispatchSkipJob(s, skipped[k]);
      }
      assert skipped[..|skipped|] == skipped && skips[..|skips|] == skips;
    }

    // ----- A whole layer -------------------------------------------------------------------

    method CompressAndFlushData(ghost task: Tasks, ghost full: nat, rollsOver: bool)
      requires AtLayer(full) && Open(task, full, 0) && Ready(task, full, 0)
      modifies this`shards, this`chunks, this`currentLayer
      ensures |chunks| == |old(chunks)| && forall slot :: 0 <= slot < |chunks| ==> chunks[slot] == null
      ensures ShardsAre(shards, Dims(), task, Generation(), full + 1, 0)
      ensures currentLayer == if rollsOver then 0 else old(currentLayer) + 1
    {
      MakeShards(task, full, 0);
      FlushLayer(task, full);
      if rollsOver {
        currentLayer := 0;
      } else {
        currentLayer := currentLayer + 1;
      }
    }

    method FlushLayer(ghost task: Tasks, ghost full: nat)
      requires AtLayer(full) && Ready(task, full, 0)
      requires ShardsAre(shards, Dims(), task, Generation(), full, 0)
      modifies this`shards, this`chunks
      ensures |chunks| == |old(chunks)| && forall slot :: 0 <= slot < |chunks| ==> chunks[slot] == null
      ensures ShardsAre(shards, Dims(), task, Generation(), full + 1, 0)
    {
      dims.Sizes();
      ghost var held := chunks;
      var chunkOffset := currentLayer * dims.numberOfChunksInMemory;
      for s := 0 to dims.numberOfShards
        invariant AtLayer(full) && |shards| == ShardCount(Dims())
        invariant HandedOver(Dims(), currentLayer, held, chunks, s)
        invariant forall t :: 0 <= t < s ==> ShardIs(shards[t], Dims(), task, Generation(), t, full + 1, 0)
        invariant forall t :: s <= t < |shards| ==> ShardIs(shards[t], Dims(), task, Generation(), t, full, 0)
      {
        FlushShardLayer(s, chunkOffset, task, full, held);
      }
      forall slot: nat | slot < |chunks| ensures chunks[slot] == null {
        ShardInRange(Dims(), ChunkId(Dims(), currentLayer, slot));
      }
    }

    method FlushShardLayer(s: nat, chunkOffset: nat, ghost task: Tasks, ghost full: nat, ghost held: seq<Chunk?>)
      requires AtLayer(full) && s < |shards| == ShardCount(Dims()) && chunkOffset == ChunkId(Dims(), currentLayer, 0)
      requires HandedOver(Dims(), currentLayer, held, chunks, s)
      requires forall slot :: 0 <= slot < |held| ==> JobOf(held[slot]) == task(full, slot)
      requires ShardIs(shards[s], Dims(), task, Generation(), s, full, 0)
      modifies this`shards, this`chunks
      ensures |shards| == |old(shards)|
      ensures forall t :: 0 <= t < |shards| && t != s ==> shards[t] == old(shards)[t]
      ensures HandedOver(Dims(), currentLayer, held, chunks, s + 1)
      ensures ShardIs(shards[s], Dims(), task, Generation(), s, full + 1, 0)
    {
      dims.Sizes();
      ghost var before := shards[s];
      var skipped := dims.SkippedInternalIndicesForShardLayer(s, currentLayer);
      PaddingNew(before, Dims(), task, Generation(), currentLayer, s, full, 0, skipped);
      SkipEntries(s, skipped);
      FlushShardChunks(s, chunkOffset, before, skipped, task, full, held);
    }

    /** The chunks of a shard layer, after its padding. */
    method FlushShardChunks(s: nat, chunkOffset: nat, ghost before: Jobs, ghost skipped: seq<nat>,
                            ghost task: Tasks, ghost full: nat, ghost held: seq<Chunk?>)
      requires AtLayer(full) && s < |shards| == ShardCount(Dims()) && chunkOffset == ChunkId(Dims(), currentLayer, 0)
      requires HandedOver(Dims(), currentLayer, held, chunks, s)
      requires forall slot :: 0 <= slot < |held| ==> JobOf(held[slot]) == task(full, slot)
      requires ShardIs(before, Dims(), task, Generation(), s, full, 0)
      requires Added(before, shards[s], skipped, seq(|skipped|, j => Skip))
      requires AsAsked(Dims(), task, Generation(), s, skipped, seq(|skipped|, j => Skip))
      requires forall i: nat :: i in skipped <==> EntryOfLayer(Dims(), currentLayer, i) && !LiveEntry(Dims(), s, i)
      modifies this`shards, this`chunks
      ensures |shards| == |old(shards)|
      ensures forall t :: 0 <= t < |shards| && t != s ==> shards[t] == old(shards)[t]
      ensures HandedOver(Dims(), currentLayer, held, chunks, s + 1)
      ensures ShardIs(shards[s], Dims(), task, Generation(), s, full + 1, 0)
    {
      dims.Sizes();
      ghost var mid := shards[s];
      var ids := dims.ChunkIndicesForShardLayer(s, currentLayer);
      ghost var entries, jobs := IdEntries(Dims(), ids), IdJobs(ids, chunkOffset, task, full);
      ShardPlan(s, ids, chunkOffset, task, full, held);
      ChunksNew(before, mid, Dims(), task, Generation(), currentLayer, s, full, skipped, seq(|skipped|, j => Skip), ids, entries);
      ChunksAsAsked(Dims(), task, Generation(), currentLayer, s, full, ids, chunkOffset);
      ghost var now := chunks;
      FlushChunks(s, ids, chunkOffset, entries, jobs);
      forall i: nat ensures i in skipped || i in entries <==> EntryOfLayer(Dims(), currentLayer, i) {
        EntriesComplete(Dims(), currentLayer, s, skipped, ids, entries, i);
      }
      LayerCompletes(before, mid, shards[s], Dims(), task, Generation(), currentLayer, s, full,
                     skipped, seq(|skipped|, j => Skip), entries, jobs);
      ShardHanded(Dims(), currentLayer, held, now, chunks, s, ids);
    }

    /** Flushing the shard's chunks submits what the array asks for. */
    lemma ShardPlan(s: nat, ids: seq<nat>, chunkOffset: nat, task: Tasks, full: nat, held: seq<Chunk?>)
      requires AtLayer(full) && s < ShardCount(Dims()) && chunkOffset == ChunkId(Dims(), currentLayer, 0)
      requires HandedOver(Dims(), currentLayer, held, chunks, s)
      requires forall slot :: 0 <= slot < |held| ==> JobOf(held[slot]) == task(full, slot)
      requires LayerIds(Dims(), s, currentLayer, ids)
      ensures Planned(ids, chunkOffset, IdEntries(Dims(), ids), IdJobs(ids, chunkOffset, task, full))
    {
      dims.Sizes();
      forall j | 0 <= j < |ids|
        ensures PlannedAt(ids[j], chunkOffset, IdEntries(Dims(), ids)[j], IdJobs(ids, chunkOffset, task, full)[j])
      {
        assert ids[j] in ids;
        IndexPlanned(s, ids, j, chunkOffset, task, full, held);
      }
    }

    lemma IndexPlanned(s: nat, ids: seq<nat>, j: nat, chunkOffset: nat, task: Tasks, full: nat, held: seq<Chunk?>)
      requires AtLayer(full) && s < ShardCount(Dims()) && chunkOffset == ChunkId(Dims(), currentLayer, 0)
      requires HandedOver(Dims(), currentLayer, held, chunks, s)
      requires forall slot :: 0 <= slot < |held| ==> JobOf(held[slot]) == task(full, slot)
      requires j < |ids| && ChunkOfShardLayer(Dims(), s, currentLayer, ids[j])
      ensures PlannedAt(ids[j], chunkOffset, IdEntries(Dims(), ids)[j], IdJobs(ids, chunkOffset, task, full)[j])
    {
      dims.Sizes();
      IdPlanned(s, ids[j], chunkOffset, task, full, held);
    }

    lemma IdPlanned(s: nat, c: nat, chunkOffset: nat, task: Tasks, full: nat, held: seq<Chunk?>)
      requires AtLayer(full) && s < ShardCount(Dims()) && chunkOffset == ChunkId(Dims(), currentLayer, 0)
      requires HandedOver(Dims(), currentLayer, held, chunks, s)
      requires forall slot :: 0 <= slot < |held| ==> JobOf(held[slot]) == task(full, slot)
      requires ChunkOfShardLayer(Dims(), s, currentLayer, c)
      ensures chunkOffset <= c && PlannedAt(c, chunkOffset, EntryOfId(Dims(), c), task(full, c - chunkOffset))
    {
      dims.Sizes();
      dims.InTables(s, currentLayer, c);
      SlotOfId(Dims(), currentLayer, s, c);
      assert c == ChunkId(Dims(), currentLayer, c - chunkOffset);
    }

    /** Slot in range, entry in the tables, job of what the slot holds. */
    ghost predicate PlannedAt(c: nat, chunkOffset: nat, entry: nat, job: Task)
      reads this`chunks, chunks
    {
      && chunkOffset <= c < chunkOffset + |chunks|
      && c in dims.shardInternalIndices && dims.shardInternalIndices[c] == entry
      && job == JobOf(chunks[c - chunkOffset])
    }

    ghost predicate Planned(ids: seq<nat>, chunkOffset: nat, entries: seq<nat>, jobs: seq<Task>)
      reads this`chunks, chunks
    {
      && |entries| == |jobs| == |ids|
      && forall j :: 0 <= j < |ids| ==> PlannedAt(ids[j], chunkOffset, entries[j], jobs[j])
    }

    method FlushChunks(s: nat, ids: seq<nat>, chunkOffset: nat, ghost entries: seq<nat>, ghost jobs: seq<Task>)
      requires s < |shards| && Distinct(ids) && AllNew(shards[s], entries) && Planned(ids, chunkOffset, entries, jobs)
      modifies this`shards, this`chunks
      ensures |shards| == |old(shards)|
      ensures forall t :: 0 <= t < |shards| && t != s ==> shards[t] == old(shards)[t]
      ensures Added(old(shards)[s], shards[s], entries, jobs)
      ensures Taken(old(chunks), chunks, chunkOffset, ids)
    {
      ghost var before, held := shards[s], chunks;
      for k := 0 to |ids|
        invariant |shards| == |old(shards)|
        invariant forall t :: 0 <= t < |shards| && t != s ==> shards[t] == old(shards)[t]
        invariant Added(before, shards[s], entries[..k], jobs[..k])
        invariant Taken(held, chunks, chunkOffset, ids[..k])
      {
        TakenNext(held, chunks, chunkOffset, ids, k);
        AddOne(before, shards[s], entries, jobs, k);
        assert JobOf(chunks[ids[k] - chunkOffset]) == jobs[k];
        DispatchChunkJob(s, ids[k], dims.shardInternalIndices[ids[k]], chunkOffset);
      }
      assert ids[..|ids|] == ids && entries[..|ids|] == entries && jobs[..|ids|] == jobs;
    }
  }

  /** The slots from `from` on are as before. */
  ghost predicate Kept(held: seq<Chunk?>, now: seq<Chunk?>, from: nat) {
    |now| == |held| && forall slot :: from <= slot < |now| ==> now[slot] == held[slot]
  }

  /** The slots of the chunk ids listed are emptied, the others as they were. */
  ghost predicate Taken(held: seq<Chunk?>, now: seq<Chunk?>, offset: nat, ids: seq<nat>) {
    && |now| == |held|
    && forall slot :: 0 <= slot < |now| ==> now[slot] == if offset + slot in ids then null else held[slot]
  }

  lemma TakenNext(held: seq<Chunk?>, now: seq<Chunk?>, offset: nat, ids: seq<nat>, k: nat)
    requires k < |ids| && Distinct(ids) && Taken(held, now, offset, ids[..k])
    requires offset <= ids[k] < offset + |now|
    ensures now[ids[k] - offset] == held[ids[k] - offset]
    ensures Taken(held, now[ids[k] - offset := null], offset, ids[..k + 1])
  {
    assert ids[..k + 1] == ids[..k] + [ids[k]];
    assert ids[k] !in ids[..k];
  }

  /** The slots of the shards before `s` are emptied, the others as they were. */
  ghost predicate HandedOver(dims: seq<Dim>, layer: nat, held: seq<Chunk?>, now: seq<Chunk?>, s: nat)
    requires ValidDims(dims)
  {
    && |now| == |held|
    && forall slot :: 0 <= slot < |now| ==>
         now[slot] == if ShardOfId(dims, ChunkId(dims, layer, slot)) < s then null else held[slot]
  }

  lemma ShardHanded(dims: seq<Dim>, layer: nat, held: seq<Chunk?>, mid: seq<Chunk?>, now: seq<Chunk?>, s: nat, ids: seq<nat>)
    requires ValidDims(dims) && |now| == LayerChunks(dims) && HandedOver(dims, layer, held, mid, s)
    requires LayerIds(dims, s, layer, ids) && Taken(mid, now, ChunkId(dims, layer, 0), ids)
    ensures HandedOver(dims, layer, held, now, s + 1)
  {
    forall slot: nat | slot < |now|
      ensures ChunkId(dims, layer, 0) + slot in ids <==> ShardOfId(dims, ChunkId(dims, layer, slot)) == s
    {
      IdListed(dims, layer, s, ids, slot);
    }
  }

  lemma IdListed(dims: seq<Dim>, layer: nat, s: nat, ids: seq<nat>, slot: nat)
    requires ValidDims(dims) && slot < LayerChunks(dims) && LayerIds(dims, s, layer, ids)
    ensures ChunkId(dims, layer, 0) + slot in ids <==> ShardOfId(dims, ChunkId(dims, layer, slot)) == s
  {
    assert ChunkId(dims, layer, 0) + slot == ChunkId(dims, layer, slot);
    RowColOf(layer, LayerChunks(dims), slot);
  }
}
