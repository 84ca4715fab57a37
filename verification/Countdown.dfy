/**
 The countdown of a shard is exact: over a complete generation every entry is submitted, once, and the
 count of unwritten chunks reaches zero with the last of them and never before.
 */
module Countdown {
  import opened Arith
  import opened Lattice
  import opened Grid
  import opened ShardTables
  import opened Permutation
  import opened ArraySpec
  import opened Submission
  import opened ShardFormat
  import opened ShardMachine

  /** What a shard is to receive is determined: bands and layers cannot differ. */
  lemma JobsAreUnique(a: Jobs, b: Jobs, dims: seq<Dim>, task: Tasks, gen: nat, s: nat, full: nat, extra: nat)
    requires ValidDims(dims)
    requires ShardIs(a, dims, task, gen, s, full, extra) && ShardIs(b, dims, task, gen, s, full, extra)
    ensures a == b
  {
    assert forall i: nat :: i in a <==> i in b;
  }

  lemma ShardsAreUnique(a: seq<Jobs>, b: seq<Jobs>, dims: seq<Dim>, task: Tasks, gen: nat, full: nat, extra: nat)
    requires ValidDims(dims)
    requires ShardsAre(a, dims, task, gen, full, extra) && ShardsAre(b, dims, task, gen, full, extra)
    ensures a == b
  {
    forall s: nat | s < |a| ensures a[s] == b[s] {
      JobsAreUnique(a[s], b[s], dims, task, gen, s, full, extra);
    }
  }

  /** The last entry of a shard belongs to the last layer of its generation. */
  lemma LastEntry(dims: seq<Dim>, gen: nat) returns (i: nat)
    requires ValidDims(dims)
    ensures i < ChunksPerShard(dims) && EntryLayerOf(dims, gen, i) + 1 == (gen + 1) * dims[0].shard
  {
    EntryLayer(dims, dims[0].shard - 1, LayerStart(dims, dims[0].shard - 1));
    i := LayerStart(dims, dims[0].shard - 1);
    assert EntryOfLayer(dims, dims[0].shard - 1, i);
    EntryLayerIs(dims, gen, dims[0].shard - 1, i);
    assert (gen + 1) * dims[0].shard == gen * dims[0].shard + dims[0].shard;
  }

  /**
   At any moment, with any number of slots of the open layer flushed and whatever the threads do: the count is zero
   only if every entry of the shard has been submitted.
   */
  lemma NeverEarly(st: State, dims: seq<Dim>, task: Tasks, gen: nat, s: nat, full: nat, extra: nat)
    requires ValidDims(dims) && Shape(st) && |st.f.offsets| == ChunksPerShard(dims)
    requires ShardIs(st.tasks, dims, task, gen, s, full, extra)
    ensures st.f.unwritten == 0 ==> forall i: nat :: i < ChunksPerShard(dims) ==> EntryDone(dims, gen, s, i, full, extra)
    ensures full + 1 < (gen + 1) * dims[0].shard || (full < (gen + 1) * dims[0].shard && extra == 0) ==> st.f.unwritten > 0
  {
    var n := |st.f.offsets|;
    forall i: nat | i < n && !EntryDone(dims, gen, s, i, full, extra) ensures st.f.unwritten > 0 {
      assert i !in st.counted;
      assert st.counted <= Below(n) - {i};
      SubsetSize(st.counted, Below(n) - {i});
    }
    var last := LastEntry(dims, gen);
    assert full + 1 < (gen + 1) * dims[0].shard || (full < (gen + 1) * dims[0].shard && extra == 0) ==>
      !EntryDone(dims, gen, s, last, full, extra);
  }

  /** Once it is flushed, and all its jobs have succeeded, the count is zero and the shard is published. */
  lemma ReachesZero(st: State, enc: TableCodec, dims: seq<Dim>, task: Tasks, gen: nat, s: nat, full: nat)
    requires ValidDims(dims) && Inv(st, enc) && |st.f.offsets| == ChunksPerShard(dims)
    requires ShardIs(st.tasks, dims, task, gen, s, full, 0) && (gen + 1) * dims[0].shard <= full
    requires forall i :: i in st.tasks ==> At(st.runs, i, Returned(true))
    ensures st.f.unwritten == 0 && st.f.finalized && st.f.finalizeOk && st.f.tableFlushed
    ensures forall i: nat :: i < ChunksPerShard(dims) ==> i in st.counted
  {
    GridPositive(dims);
    CompleteStays(st.tasks, dims, task, gen, s, full, 0, full, 0);
    AllJobsSucceeded(st, enc);
  }
}
