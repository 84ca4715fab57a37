/**
 What the flush machinery must hand to each shard entry, stated from the Zarr side: entry `i` of
 shard `s` in append generation `gen` stands for one chunk of the array (or for padding), and must
 receive that chunk's content, or nothing if the content is all zero.
 */
module ArraySpec {
  import opened Arith
  import opened Lattice
  import opened Tiling
  import opened Bytes
  import opened Grid
  import opened Dimensions
  import opened ShardTables
  import opened ChunkContent
  import opened ShardMachine

  /** The job each chunk (layer, slot) gives rise to. */
  type Tasks = (nat, nat) -> Task

  /** Layer of the whole array that an entry of generation `gen` belongs to. */
  function EntryLayerOf(dims: seq<Dim>, gen: nat, i: nat): nat
    requires ValidDims(dims)
  {
    EntryLayer(dims, 0, i);
    var first: nat := gen * dims[0].shard;
    first + Row(i, EntriesPerLayer(dims))
  }

  function EntrySlot(dims: seq<Dim>, s: nat, i: nat): nat
    requires ValidDims(dims)
  {
    SlotOf(dims, EntryCoord(dims, s, i))
  }

  function EntryTask(dims: seq<Dim>, task: Tasks, gen: nat, s: nat, i: nat): Task
    requires ValidDims(dims)
  {
    if LiveEntry(dims, s, i) then task(EntryLayerOf(dims, gen, i), EntrySlot(dims, s, i)) else Skip
  }

  /** Entries due once `full` layers and the first `extra` slots of the next one are flushed. */
  predicate EntryDone(dims: seq<Dim>, gen: nat, s: nat, i: nat, full: nat, extra: nat)
    requires ValidDims(dims)
  {
    EntryLayerOf(dims, gen, i) < full
    || (EntryLayerOf(dims, gen, i) == full && LiveEntry(dims, s, i) && EntrySlot(dims, s, i) < extra)
  }

  /** Everything submitted to shard `s` of generation `gen` by then, each entry once. */
  ghost predicate ShardIs(m: map<nat, Task>, dims: seq<Dim>, task: Tasks, gen: nat, s: nat, full: nat, extra: nat)
    requires ValidDims(dims)
  {
    && (forall i: nat :: i in m <==> i < ChunksPerShard(dims) && EntryDone(dims, gen, s, i, full, extra))
    && (forall i :: i in m ==> m[i] == EntryTask(dims, task, gen, s, i))
  }

  // ----- Frames, layers and bands ----------------------------------------------------------

  /** Frames of one append index, of one chunk layer. */
  function InnerCount(dims: seq<Dim>): nat
    requires ValidDims(dims)
  {
    Size(ArraySizes(FrameDims(dims))[1..])
  }

  function FramesPerLayer(dims: seq<Dim>): nat
    requires ValidDims(dims)
  {
    dims[0].chunk * InnerCount(dims)
  }

  lemma LayerOfFrame(dims: seq<Dim>, frame: nat)
    requires ValidDims(dims)
    ensures FramesPerLayer(dims) > 0 && InnerCount(dims) > 0
    ensures Locate(dims, frame).layer == Row(frame, FramesPerLayer(dims))
  {
    FrameDigit(dims, frame, 0);
    LocateLayer(dims, frame);
    FrameChunkDigit(dims, frame, 0, InnerCount(dims));
    RowColDiv(frame, FramesPerLayer(dims));
  }

  predicate Banded(dims: seq<Dim>) {
    |dims| >= 4 && dims[0].chunk == 1
  }

  function BandCount(dims: seq<Dim>): nat
    requires ValidDims(dims)
  {
    CeilDiv(dims[1].size, dims[1].chunk)
  }

  function FramesPerBand(dims: seq<Dim>): nat
    requires ValidDims(dims) && Banded(dims)
  {
    dims[1].chunk * Size(ArraySizes(FrameDims(dims))[2..])
  }

  function ChunksPerBand(dims: seq<Dim>): nat
    requires ValidDims(dims) && Banded(dims)
  {
    Size(ChunkCounts(dims)[2..])
  }

  /** First slot of a band. */
  function BandStart(dims: seq<Dim>, band: nat): nat
    requires ValidDims(dims) && Banded(dims)
  {
    band * ChunksPerBand(dims)
  }

  lemma BandSizes(dims: seq<Dim>)
    requires ValidDims(dims) && Banded(dims)
    ensures ChunksPerBand(dims) > 0 && FramesPerBand(dims) > 0 && BandCount(dims) > 0
    ensures LayerChunks(dims) == BandCount(dims) * ChunksPerBand(dims)
    ensures FramesPerLayer(dims) == dims[1].size * Size(ArraySizes(FrameDims(dims))[2..])
    ensures LayerChunks(dims) / BandCount(dims) == ChunksPerBand(dims)
  {
    GridPositive(dims);
    FramePositive(dims);
    var counts, sizes := ChunkCounts(dims), ArraySizes(FrameDims(dims));
    SizeStep(counts, 1);
    SizeStep(sizes, 1);
    SizePositive(counts[2..]);
    SizePositive(sizes[2..]);
    MulPos(dims[1].chunk, Size(sizes[2..]));
    CeilDivOf(0, dims[1].size, dims[1].chunk);
    MulDivCancel(BandCount(dims), ChunksPerBand(dims));
  }

  /** Slots of a layer: groups of tiles. */
  lemma SlotsAreGroups(dims: seq<Dim>)
    requires ValidDims(dims)
    ensures LayerChunks(dims) == GroupCount(dims) * TilesPerFrame(dims)
  {
    FrameAxesOf(dims);
    var n := |dims| - 2;
    SizeSplit(ChunkCounts(dims)[1..], n - 1);
    assert ChunkCounts(dims)[1..][..n - 1] == ChunkCounts(FrameDims(dims))[1..] by {
      assert ChunkCounts(dims)[1..][..n - 1] == ChunkCounts(dims)[..n][1..];
    }
    assert ChunkCounts(dims)[1..][n - 1..] == ChunkCounts(dims)[n..];
  }

  /** The band of slots a frame falls in is the band of frames it belongs to. */
  lemma BandOfFrame(dims: seq<Dim>, frame: nat, tile: nat)
    requires ValidDims(dims) && Banded(dims) && tile < TilesPerFrame(dims)
    ensures ChunksPerBand(dims) > 0 && FramesPerBand(dims) > 0 && FramesPerLayer(dims) > 0
    ensures Row(Locate(dims, frame).group * TilesPerFrame(dims) + tile, ChunksPerBand(dims))
            == Row(Col(frame, FramesPerLayer(dims)), FramesPerBand(dims))
  {
    BandSizes(dims);
    BandOfGroup(dims, frame, Size(ArraySizes(FrameDims(dims))[2..]));
    GroupsPerBand(dims);
    SlotBandRow(Locate(dims, frame).group, TilesPerFrame(dims), tile, Size(ChunkCounts(FrameDims(dims))[2..]),
                ChunksPerBand(dims), frame, FramesPerLayer(dims), FramesPerBand(dims));
  }

  lemma SlotBandRow(group: nat, t: nat, tile: nat, inner: nat, perBand: nat, frame: nat, perLayer: nat, framesPerBand: nat)
    requires tile < t && inner > 0 && perBand == inner * t > 0 && perLayer > 0 && framesPerBand > 0
    requires group / inner == frame % perLayer / framesPerBand
    ensures Row(group * t + tile, perBand) == Row(Col(frame, perLayer), framesPerBand)
  {
    SlotBand(group, t, tile, inner);
    RowColDiv(frame, perLayer);
    RowColDiv(Col(frame, perLayer), framesPerBand);
    RowColDiv(group * t + tile, perBand);
  }

  lemma BandOfGroup(dims: seq<Dim>, frame: nat, inner: nat)
    requires ValidDims(dims) && Banded(dims)
    requires inner == Size(ArraySizes(FrameDims(dims))[2..])
    ensures Size(ChunkCounts(FrameDims(dims))[2..]) > 0 && dims[1].chunk * inner > 0 && dims[1].size * inner > 0
    ensures Locate(dims, frame).group / Size(ChunkCounts(FrameDims(dims))[2..])
            == frame % (dims[1].size * inner) / (dims[1].chunk * inner)
  {
    GroupHead(dims, frame);
    FrameChunkDigit(dims, frame, 1, inner);
    RowColDiv(Locate(dims, frame).group, Size(ChunkCounts(FrameDims(dims))[2..]));
  }

  lemma GroupsPerBand(dims: seq<Dim>)
    requires ValidDims(dims) && Banded(dims)
    ensures ChunksPerBand(dims) == Size(ChunkCounts(FrameDims(dims))[2..]) * TilesPerFrame(dims)
  {
    FrameAxesOf(dims);
    FrameStride(ChunkCounts(dims), |dims| - 2, 1);
  }

  lemma SlotBand(group: nat, t: nat, tile: nat, inner: nat)
    requires tile < t && inner > 0
    ensures inner * t > 0 && (group * t + tile) / (inner * t) == group / inner
  {
    assert inner * t == t * inner;
    DivModUnique(group, t, tile);
    DivDiv(group * t + tile, t, inner);
  }

  lemma GroupHead(dims: seq<Dim>, frame: nat)
    requires ValidDims(dims) && |dims| >= 4
    ensures Size(ChunkCounts(FrameDims(dims))[2..]) > 0
    ensures Row(Locate(dims, frame).group, Size(ChunkCounts(FrameDims(dims))[2..])) == ChunkDigit(dims, frame, 1)
  {
    FramePositive(dims);
    LocateGroup(dims, frame);
    FrameChunkInRange(dims, frame);
    SecondDigit(FrameChunk(dims, frame), ChunkCounts(FrameDims(dims)));
  }

  lemma FrameChunkInRange(dims: seq<Dim>, frame: nat)
    requires ValidDims(dims)
    ensures InTail(FrameChunk(dims, frame), ChunkCounts(FrameDims(dims)))
  {
    FramePositive(dims);
    var f := FrameDims(dims);
    RankUnrank(frame, ArraySizes(f));
    QuotientsInCounts(FrameCoord(dims, frame), ArraySizes(f), ChunkSizes(f));
  }

  lemma SecondDigit(q: seq<nat>, counts: seq<nat>)
    requires |q| >= 2 && InTail(q, counts)
    ensures Size(counts[2..]) > 0 && Row(Rank(q[1..], counts[1..]), Size(counts[2..])) == q[1]
  {
    assert counts[1..][1..] == counts[2..];
    RankHead(q[1..], counts[1..]);
  }

  // ----- How the submissions grow ------------------------------------------------------------

  lemma EntryLayerIs(dims: seq<Dim>, gen: nat, layer: nat, i: nat)
    requires ValidDims(dims)
    ensures EntryLayerOf(dims, gen, i) == gen * dims[0].shard + layer <==> EntryOfLayer(dims, layer, i)
  {
    EntryLayer(dims, layer, i);
  }

  /** Nothing is due in a generation that has not begun. */
  lemma NothingDueYet(dims: seq<Dim>, task: Tasks, gen: nat, s: nat, full: nat)
    requires ValidDims(dims) && full <= gen * dims[0].shard
    ensures ShardIs(map[], dims, task, gen, s, full, 0)
  {
    forall i: nat ensures !EntryDone(dims, gen, s, i, full, 0) {
      EntryLayer(dims, 0, i);
    }
  }

  /** The entry a chunk of the open layer goes to is not due yet, and is due for exactly that chunk. */
  lemma ChunkEntry(dims: seq<Dim>, task: Tasks, gen: nat, layer: nat, full: nat, s: nat, chunkIndex: nat, slot: nat)
    requires ValidDims(dims) && layer < dims[0].shard && full == gen * dims[0].shard + layer
    requires ChunkOfShardLayer(dims, s, layer, chunkIndex) && chunkIndex == layer * LayerChunks(dims) + slot
    requires slot < LayerChunks(dims)
    ensures var i := InternalOf(dims, ChunkCoord(dims, chunkIndex));
            && s < ShardCount(dims) && i < ChunksPerShard(dims)
            && LiveEntry(dims, s, i) && EntryOfLayer(dims, layer, i)
            && EntryLayerOf(dims, gen, i) == full && EntrySlot(dims, s, i) == slot
            && ChunkOf(dims, s, i) == chunkIndex
            && EntryTask(dims, task, gen, s, i) == task(full, slot)
  {
    ChunkFillsEntry(dims, s, layer, chunkIndex);
    ChunkIdSplits(dims, chunkIndex);
    RowColOf(layer, LayerChunks(dims), slot);
    EntryLayerIs(dims, gen, layer, InternalOf(dims, ChunkCoord(dims, chunkIndex)));
  }

  /** A live entry of the open layer belongs to one slot; flushing slots one by one makes it due at its own. */
  lemma DueNext(dims: seq<Dim>, gen: nat, layer: nat, full: nat, s: nat, i: nat, slot: nat, chunkIndex: nat)
    requires ValidDims(dims) && layer < dims[0].shard && s < ShardCount(dims) && slot < LayerChunks(dims)
    requires i < ChunksPerShard(dims) && full == gen * dims[0].shard + layer
    requires chunkIndex == layer * LayerChunks(dims) + slot
    ensures EntryDone(dims, gen, s, i, full, slot + 1) <==>
              EntryDone(dims, gen, s, i, full, slot)
              || (ShardOf(dims, ChunkCoord(dims, chunkIndex)) == s && InternalOf(dims, ChunkCoord(dims, chunkIndex)) == i)
  {
    ChunkIdSplits(dims, chunkIndex);
    RowColOf(layer, LayerChunks(dims), slot);
    EntryLayerIs(dims, gen, layer, i);
    var q := ChunkCoord(dims, chunkIndex);
    if ShardOf(dims, q) == s && InternalOf(dims, q) == i {
      ChunkFillsEntry(dims, s, layer, chunkIndex);
    } else if EntryOfLayer(dims, layer, i) && LiveEntry(dims, s, i) && EntrySlot(dims, s, i) == slot {
      EntryFilledByChunk(dims, s, layer, i);
      ChunkIdSplits(dims, ChunkOf(dims, s, i));
    }
  }

  /** With every slot of the open layer flushed, only padding is missing from the complete layer. */
  lemma DueWhenComplete(dims: seq<Dim>, gen: nat, layer: nat, full: nat, s: nat, i: nat)
    requires ValidDims(dims) && layer < dims[0].shard && s < ShardCount(dims) && full == gen * dims[0].shard + layer
    ensures EntryDone(dims, gen, s, i, full + 1, 0) <==>
              EntryDone(dims, gen, s, i, full, LayerChunks(dims))
              || (EntryOfLayer(dims, layer, i) && !LiveEntry(dims, s, i))
    ensures EntryDone(dims, gen, s, i, full + 1, 0) <==> EntryDone(dims, gen, s, i, full, 0) || EntryOfLayer(dims, layer, i)
  {
    EntryLayerIs(dims, gen, layer, i);
    if EntryOfLayer(dims, layer, i) && LiveEntry(dims, s, i) {
      EntrySlotInRange(dims, s, i);
    }
  }

  lemma EntrySlotInRange(dims: seq<Dim>, s: nat, i: nat)
    requires ValidDims(dims) && LiveEntry(dims, s, i)
    ensures EntrySlot(dims, s, i) < LayerChunks(dims)
  {
    GridPositive(dims);
    RankBound(EntryCoord(dims, s, i)[1..], ChunkCounts(dims)[1..]);
  }

  /** Jobs that agree on what has been flushed have submitted the same. */
  lemma SubmittedStays(m: map<nat, Task>, dims: seq<Dim>, task: Tasks, task': Tasks, gen: nat, s: nat, full: nat, extra: nat)
    requires ValidDims(dims) && ShardIs(m, dims, task, gen, s, full, extra)
    requires forall layer: nat, slot: nat :: slot < LayerChunks(dims) && (layer < full || (layer == full && slot < extra)) ==>
               task'(layer, slot) == task(layer, slot)
    ensures ShardIs(m, dims, task', gen, s, full, extra)
  {
    forall i | i in m ensures EntryTask(dims, task', gen, s, i) == EntryTask(dims, task, gen, s, i) {
      if LiveEntry(dims, s, i) {
        EntrySlotInRange(dims, s, i);
      }
    }
  }

  /** A generation whose layers are all flushed has every entry, and stays as it is. */
  lemma CompleteStays(m: map<nat, Task>, dims: seq<Dim>, task: Tasks, gen: nat, s: nat, full: nat, extra: nat, full': nat, extra': nat)
    requires ValidDims(dims) && ShardIs(m, dims, task, gen, s, full, extra)
    requires (gen + 1) * dims[0].shard <= full && (gen + 1) * dims[0].shard <= full'
    ensures ShardIs(m, dims, task, gen, s, full', extra')
    ensures forall i: nat :: i in m <==> i < ChunksPerShard(dims)
  {
    forall i: nat | i < ChunksPerShard(dims)
      ensures EntryDone(dims, gen, s, i, full, extra) && EntryDone(dims, gen, s, i, full', extra')
    {
      EntryLayerBound(dims, gen, i);
    }
  }

  lemma EntryLayerBound(dims: seq<Dim>, gen: nat, i: nat)
    requires ValidDims(dims) && i < ChunksPerShard(dims)
    ensures gen * dims[0].shard <= EntryLayerOf(dims, gen, i) < (gen + 1) * dims[0].shard
  {
    EntryLayer(dims, 0, i);
    RowColDiv(i, EntriesPerLayer(dims));
    DivLess(i, dims[0].shard, EntriesPerLayer(dims));
    assert (gen + 1) * dims[0].shard == gen * dims[0].shard + dims[0].shard;
  }
}

/**
 How jobs accumulate at the shards of the open generation, one chunk or padding entry at a time,
 from "so many layers flushed" to "one layer more".
 */
module Submission {
  import opened Arith
  import opened Lattice
  import opened Grid
  import opened Dimensions
  import opened ShardTables
  import opened ArraySpec
  import opened ArrayGeometry
  import opened Permutation
  import opened ShardMachine

  type Jobs = map<nat, Task>

  /** One more job for entry `i` of shard `s`. */
  function Submitted(shards: seq<Jobs>, s: nat, i: nat, task: Task): (r: seq<Jobs>)
    requires s < |shards|
    ensures |r| == |shards| && forall t :: 0 <= t < |r| && t != s ==> r[t] == shards[t]
    ensures r[s] == shards[s][i := task]
  {
    var m: Jobs := shards[s][i := task];
    shards[s := m]
  }

  ghost predicate ShardsAre(shards: seq<Jobs>, dims: seq<Dim>, task: Tasks, gen: nat, full: nat, extra: nat)
    requires ValidDims(dims)
  {
    && |shards| == ShardCount(dims)
    && forall s :: 0 <= s < |shards| ==> ShardIs(shards[s], dims, task, gen, s, full, extra)
  }

  /** The shard and the index entry of a chunk id. */
  function ShardOfId(dims: seq<Dim>, chunkIndex: nat): nat
    requires ValidDims(dims)
  {
    ShardOf(dims, ChunkCoord(dims, chunkIndex))
  }

  function EntryOfId(dims: seq<Dim>, chunkIndex: nat): nat
    requires ValidDims(dims)
  {
    InternalOf(dims, ChunkCoord(dims, chunkIndex))
  }

  function ChunkId(dims: seq<Dim>, layer: nat, slot: nat): nat
    requires ValidDims(dims)
  {
    layer * LayerChunks(dims) + slot
  }

  /** A chunk of the open layer, its place, and that the place is still free. */
  lemma ChunkGoes(dims: seq<Dim>, task: Tasks, gen: nat, layer: nat, full: nat, slot: nat, chunkIndex: nat)
    requires ValidDims(dims) && layer < dims[0].shard && full == gen * dims[0].shard + layer
    requires slot < LayerChunks(dims) && chunkIndex == ChunkId(dims, layer, slot)
    ensures var s, i := ShardOfId(dims, chunkIndex), EntryOfId(dims, chunkIndex);
            && ChunkOfShardLayer(dims, s, layer, chunkIndex) && s < ShardCount(dims)
            && EntryOfLayer(dims, layer, i) && LiveEntry(dims, s, i) && i < ChunksPerShard(dims)
            && !EntryDone(dims, gen, s, i, full, slot)
            && EntryTask(dims, task, gen, s, i) == task(full, slot)
  {
    RowColOf(layer, LayerChunks(dims), slot);
    ChunkEntry(dims, task, gen, layer, full, ShardOfId(dims, chunkIndex), chunkIndex, slot);
  }

  // ----- Slot by slot, as a band is flushed ---------------------------------------------------

  /** Whether entry `i` of shard `s` is submitted after one more slot. */
  lemma SlotPoint(before: seq<Jobs>, after: seq<Jobs>, dims: seq<Dim>, task: Tasks, gen: nat, layer: nat, full: nat,
                  slot: nat, chunkIndex: nat, s: nat, i: nat)
    requires ValidDims(dims) && layer < dims[0].shard && full == gen * dims[0].shard + layer
    requires slot < LayerChunks(dims) && chunkIndex == ChunkId(dims, layer, slot)
    requires ShardsAre(before, dims, task, gen, full, slot)
    requires ShardOfId(dims, chunkIndex) < |before|
    requires after == Submitted(before, ShardOfId(dims, chunkIndex), EntryOfId(dims, chunkIndex), task(full, slot))
    requires s < |after|
    ensures i in after[s] <==> i < ChunksPerShard(dims) && EntryDone(dims, gen, s, i, full, slot + 1)
    ensures i in after[s] ==> after[s][i] == EntryTask(dims, task, gen, s, i)
  {
    ChunkGoes(dims, task, gen, layer, full, slot, chunkIndex);
    if i < ChunksPerShard(dims) {
      DueNext(dims, gen, layer, full, s, i, slot, chunkIndex);
    }
    assert ShardIs(before[s], dims, task, gen, s, full, slot);
    assert i in before[s] <==> i < ChunksPerShard(dims) && EntryDone(dims, gen, s, i, full, slot);
  }

  lemma SlotSubmitted(before: seq<Jobs>, after: seq<Jobs>, dims: seq<Dim>, task: Tasks, gen: nat, layer: nat, full: nat,
                      slot: nat, chunkIndex: nat)
    requires ValidDims(dims) && layer < dims[0].shard && full == gen * dims[0].shard + layer
    requires slot < LayerChunks(dims) && chunkIndex == ChunkId(dims, layer, slot)
    requires ShardsAre(before, dims, task, gen, full, slot)
    requires ShardOfId(dims, chunkIndex) < |before|
    requires after == Submitted(before, ShardOfId(dims, chunkIndex), EntryOfId(dims, chunkIndex), task(full, slot))
    ensures ShardsAre(after, dims, task, gen, full, slot + 1)
  {
    forall s: nat | s < |after| ensures ShardIs(after[s], dims, task, gen, s, full, slot + 1) {
      forall i: nat
        ensures i in after[s] <==> i < ChunksPerShard(dims) && EntryDone(dims, gen, s, i, full, slot + 1)
        ensures i in after[s] ==> after[s][i] == EntryTask(dims, task, gen, s, i)
      {
        SlotPoint(before, after, dims, task, gen, layer, full, slot, chunkIndex, s, i);
      }
    }
  }

  // ----- A whole layer of one shard ------------------------------------------------------------

  /** Jobs for `entries` added to one shard, each new, `jobs[j]` for `entries[j]`. */
  ghost predicate Added(before: Jobs, after: Jobs, entries: seq<nat>, jobs: seq<Task>) {
    && |entries| == |jobs|
    && (forall i: nat :: i in after <==> i in before || i in entries)
    && (forall i: nat :: i in before ==> i in after && after[i] == before[i])
    && (forall j :: 0 <= j < |entries| ==> entries[j] in after && after[entries[j]] == jobs[j])
  }

  ghost predicate AllNew(m: Jobs, entries: seq<nat>) {
    Distinct(entries) && forall j :: 0 <= j < |entries| ==> entries[j] !in m
  }

  lemma AddOne(before: Jobs, m: Jobs, entries: seq<nat>, jobs: seq<Task>, k: nat)
    requires k < |entries| == |jobs| && AllNew(before, entries) && Added(before, m, entries[..k], jobs[..k])
    ensures entries[k] !in m
    ensures Added(before, m[entries[k] := jobs[k]], entries[..k + 1], jobs[..k + 1])
  {
    var e, t := entries[..k + 1], jobs[..k + 1];
    assert e == entries[..k] + [entries[k]] && t == jobs[..k] + [jobs[k]];
    assert entries[k] !in entries[..k];
    var after := m[entries[k] := jobs[k]];
    forall j | 0 <= j < |e| ensures e[j] in after && after[e[j]] == t[j] {
      if j < k {
        assert entries[..k][j] == e[j] && jobs[..k][j] == t[j];
      }
    }
  }

  /** The jobs of a list of entries are the ones the array asks for. */
  ghost predicate AsAsked(dims: seq<Dim>, task: Tasks, gen: nat, s: nat, entries: seq<nat>, jobs: seq<Task>)
    requires ValidDims(dims)
  {
    |entries| == |jobs| && forall j :: 0 <= j < |entries| ==> jobs[j] == EntryTask(dims, task, gen, s, entries[j])
  }

  lemma AddedTask(before: Jobs, after: Jobs, dims: seq<Dim>, task: Tasks, gen: nat, s: nat, full: nat, extra: nat,
                  entries: seq<nat>, jobs: seq<Task>, i: nat)
    requires ValidDims(dims) && ShardIs(before, dims, task, gen, s, full, extra)
    requires Added(before, after, entries, jobs) && AsAsked(dims, task, gen, s, entries, jobs)
    requires i in after
    ensures after[i] == EntryTask(dims, task, gen, s, i)
  {
    if i in entries {
      var j :| 0 <= j < |entries| && entries[j] == i;
    }
  }

  /** The padding of the open layer is not due yet, and is due as skips. */
  lemma PaddingNew(m: Jobs, dims: seq<Dim>, task: Tasks, gen: nat, layer: nat, s: nat, full: nat, extra: nat, skipped: seq<nat>)
    requires ValidDims(dims) && layer < dims[0].shard && full == gen * dims[0].shard + layer
    requires ShardIs(m, dims, task, gen, s, full, extra) && Distinct(skipped)
    requires forall i: nat :: i in skipped ==> EntryOfLayer(dims, layer, i) && !LiveEntry(dims, s, i)
    ensures AllNew(m, skipped) && AsAsked(dims, task, gen, s, skipped, seq(|skipped|, j => Skip))
  {
    forall j | 0 <= j < |skipped|
      ensures skipped[j] !in m && EntryTask(dims, task, gen, s, skipped[j]) == Skip
    {
      assert skipped[j] in skipped;
      EntryLayerIs(dims, gen, layer, skipped[j]);
    }
  }

  /** All of the layer's padding, added to all of its chunks, completes it. */
  lemma PaddingCompletes(before: Jobs, after: Jobs, dims: seq<Dim>, task: Tasks, gen: nat, layer: nat, s: nat, full: nat,
                         extra: nat, skipped: seq<nat>, jobs: seq<Task>)
    requires ValidDims(dims) && layer < dims[0].shard && s < ShardCount(dims) && full == gen * dims[0].shard + layer
    requires extra == LayerChunks(dims)
    requires ShardIs(before, dims, task, gen, s, full, extra)
    requires Added(before, after, skipped, jobs) && AsAsked(dims, task, gen, s, skipped, jobs)
    requires forall i: nat :: i in skipped <==> EntryOfLayer(dims, layer, i) && !LiveEntry(dims, s, i)
    ensures ShardIs(after, dims, task, gen, s, full + 1, 0)
  {
    forall i: nat
      ensures i in after <==> i < ChunksPerShard(dims) && EntryDone(dims, gen, s, i, full + 1, 0)
      ensures i in after ==> after[i] == EntryTask(dims, task, gen, s, i)
    {
      assert i in after <==> i in before || i in skipped;
      DueWhenComplete(dims, gen, layer, full, s, i);
      EntryLayer(dims, layer, i);
      if i in after {
        AddedTask(before, after, dims, task, gen, s, full, extra, skipped, jobs, i);
      }
    }
  }

  /** So does adding all of the layer's entries, padding first. */
  lemma LayerCompletes(before: Jobs, mid: Jobs, after: Jobs, dims: seq<Dim>, task: Tasks, gen: nat, layer: nat, s: nat,
                       full: nat, skipped: seq<nat>, skips: seq<Task>, entries: seq<nat>, jobs: seq<Task>)
    requires ValidDims(dims) && layer < dims[0].shard && s < ShardCount(dims) && full == gen * dims[0].shard + layer
    requires ShardIs(before, dims, task, gen, s, full, 0)
    requires Added(before, mid, skipped, skips) && AsAsked(dims, task, gen, s, skipped, skips)
    requires Added(mid, after, entries, jobs) && AsAsked(dims, task, gen, s, entries, jobs)
    requires forall i: nat :: i in skipped || i in entries <==> EntryOfLayer(dims, layer, i)
    ensures ShardIs(after, dims, task, gen, s, full + 1, 0)
  {
    forall i: nat
      ensures i in after <==> i < ChunksPerShard(dims) && EntryDone(dims, gen, s, i, full + 1, 0)
      ensures i in after ==> after[i] == EntryTask(dims, task, gen, s, i)
    {
      assert i in mid <==> i in before || i in skipped;
      assert i in after <==> i in mid || i in entries;
      DueWhenComplete(dims, gen, layer, full, s, i);
      EntryLayer(dims, layer, i);
      if i in mid {
        AddedTask(before, mid, dims, task, gen, s, full, 0, skipped, skips, i);
      } else if i in entries {
        var j :| 0 <= j < |entries| && entries[j] == i;
      }
    }
  }

  /** The index entries of the chunk ids listed. */
  ghost predicate EntriesOf(dims: seq<Dim>, ids: seq<nat>, entries: seq<nat>)
    requires ValidDims(dims)
  {
    |entries| == |ids| && forall j :: 0 <= j < |ids| ==> entries[j] == EntryOfId(dims, ids[j])
  }

  function IdEntries(dims: seq<Dim>, ids: seq<nat>): (entries: seq<nat>)
    requires ValidDims(dims)
    ensures EntriesOf(dims, ids, entries)
  {
    seq(|ids|, j requires 0 <= j < |ids| => EntryOfId(dims, ids[j]))
  }

  /** The jobs of the slots the ids come from. */
  function IdJobs(ids: seq<nat>, offset: nat, task: Tasks, full: nat): (jobs: seq<Task>)
    ensures |jobs| == |ids|
    ensures forall j :: 0 <= j < |ids| && offset <= ids[j] ==> jobs[j] == task(full, ids[j] - offset)
  {
    seq(|ids|, j requires 0 <= j < |ids| => if offset <= ids[j] then task(full, ids[j] - offset) else Skip)
  }

  /** The chunk ids of a shard layer, and the slots they come from. */
  ghost predicate LayerIds(dims: seq<Dim>, s: nat, layer: nat, ids: seq<nat>)
    requires ValidDims(dims)
  {
    Distinct(ids) && forall c: nat :: c in ids <==> ChunkOfShardLayer(dims, s, layer, c)
  }

  lemma SlotOfId(dims: seq<Dim>, layer: nat, s: nat, c: nat)
    requires ValidDims(dims) && ChunkOfShardLayer(dims, s, layer, c)
    ensures layer * LayerChunks(dims) <= c < layer * LayerChunks(dims) + LayerChunks(dims)
  {
    ChunkIdSplits(dims, c);
    RowColDiv(c, LayerChunks(dims));
  }

  /** The chunks of a shard layer go to distinct entries that are still free. */
  lemma ChunksNew(before: Jobs, mid: Jobs, dims: seq<Dim>, task: Tasks, gen: nat, layer: nat, s: nat, full: nat,
                  skipped: seq<nat>, skips: seq<Task>, ids: seq<nat>, entries: seq<nat>)
    requires ValidDims(dims) && layer < dims[0].shard && full == gen * dims[0].shard + layer
    requires ShardIs(before, dims, task, gen, s, full, 0) && Added(before, mid, skipped, skips)
    requires forall i: nat :: i in skipped ==> !LiveEntry(dims, s, i)
    requires LayerIds(dims, s, layer, ids) && EntriesOf(dims, ids, entries)
    ensures AllNew(mid, entries)
  {
    forall i, j | 0 <= i < j < |entries| ensures entries[i] != entries[j] {
      assert ids[i] in ids && ids[j] in ids;
      if entries[i] == entries[j] {
        EntryFilledByOne(dims, s, layer, ids[i], ids[j]);
      }
    }
    forall j | 0 <= j < |entries| ensures entries[j] !in mid {
      assert ids[j] in ids;
      SlotOfId(dims, layer, s, ids[j]);
      ChunkGoes(dims, task, gen, layer, full, ids[j] - layer * LayerChunks(dims), ids[j]);
      EntryLayerIs(dims, gen, layer, entries[j]);
      assert entries[j] !in before;
    }
  }

  lemma ChunksAsAsked(dims: seq<Dim>, task: Tasks, gen: nat, layer: nat, s: nat, full: nat, ids: seq<nat>, offset: nat)
    requires ValidDims(dims) && layer < dims[0].shard && full == gen * dims[0].shard + layer
    requires LayerIds(dims, s, layer, ids) && offset == ChunkId(dims, layer, 0)
    ensures AsAsked(dims, task, gen, s, IdEntries(dims, ids), IdJobs(ids, offset, task, full))
  {
    forall j | 0 <= j < |ids|
      ensures IdJobs(ids, offset, task, full)[j] == EntryTask(dims, task, gen, s, IdEntries(dims, ids)[j])
    {
      assert ids[j] in ids;
      SlotOfId(dims, layer, s, ids[j]);
      ChunkGoes(dims, task, gen, layer, full, ids[j] - offset, ids[j]);
    }
  }

  /** Its padding and the entries of its chunks are all the entries of a shard layer. */
  lemma EntriesComplete(dims: seq<Dim>, layer: nat, s: nat, skipped: seq<nat>, ids: seq<nat>, entries: seq<nat>, i: nat)
    requires ValidDims(dims) && layer < dims[0].shard && s < ShardCount(dims)
    requires forall i: nat :: i in skipped <==> EntryOfLayer(dims, layer, i) && !LiveEntry(dims, s, i)
    requires LayerIds(dims, s, layer, ids) && EntriesOf(dims, ids, entries)
    ensures i in skipped || i in entries <==> EntryOfLayer(dims, layer, i)
  {
    if i in entries {
      var j :| 0 <= j < |entries| && entries[j] == i;
      assert ids[j] in ids;
      ChunkFillsEntry(dims, s, layer, ids[j]);
    }
    if EntryOfLayer(dims, layer, i) && LiveEntry(dims, s, i) {
      EntryFilledByChunk(dims, s, layer, i);
      var j :| 0 <= j < |ids| && ids[j] == ChunkOf(dims, s, i);
      assert entries[j] == i;
    }
  }
}
