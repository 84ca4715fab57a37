/**
 An array being written (src/streaming/array.cpp, class Array): frames come in one at a time, fill the
 chunk buffers of the open layer, and leave by layers or by bands.
 */
module StreamArray {
  import opened Arith
  import opened Lattice
  import opened Bytes
  import opened Grid
  import opened Dimensions
  import opened Chunk
  import opened ChunkContent
  import opened Transposition
  import opened Acquisition
  import opened ArrayGeometry
  import opened ArraySpec
  import opened Submission
  import opened ArrayTasks
  import opened ShardMachine
  import opened Flush
  import opened FrameWriter
  import opened Wrappers
  import opened Closing
  import opened Answers

  class Array {
    const geo: Geo
    const mapping: Mapping
    const flush: FlushState
    /** What is due when. */
    ghost const plan: Plan
    const maxBytes: nat
    const bytesPerFrame: nat
    /** Bytes of the chunks that can be in use at once. */
    ghost const limit: nat
    var totalBytesWritten: nat
    var bytesToFlush: nat
    /** The frames accepted, in order. */
    ghost var acquired: seq<seq<Byte>>

    ghost predicate Built() {
      && geo.Valid() && plan.geo == geo && flush.dims.dims == geo.dims && bytesPerFrame > 0
      && plan.banded == SupportsDim1Banding() && Follows(plan, flush.encode)
      && forall x {:trigger Look(x)} :: Look(x) ==> Answers()
    }

    /** The geometry's answers are the numbering and the form; kept closed as well. */
    ghost predicate Answers()
      requires geo.Valid()
    {
      && bytesPerFrame == geo.FrameBytes()
      && Numbers(mapping, plan.place, maxBytes, bytesPerFrame) && Forms(mapping, geo, plan.form)
      && IsRoom(geo, SupportsDim1Banding(), limit)
    }

    ghost function Frames(): Frames
      reads this`acquired
    {
      FramesOf(plan.place, plan.form, acquired)
    }

    /** Append chunk 1, an intermediate axis, no transposition. */
    predicate SupportsDim1Banding() {
      Banded(geo.dims) && mapping.None?
    }

    ghost predicate Counted(n: nat, done: bool)
      reads this`totalBytesWritten, this`bytesToFlush
    {
      totalBytesWritten == n * bytesPerFrame && (bytesToFlush == 0 <==> done)
    }

    ghost predicate Sized(frames: seq<seq<Byte>>) {
      forall f :: 0 <= f < |frames| ==> |frames[f]| == bytesPerFrame
    }

    /** Everything flushed is what it has to be. */
    ghost predicate Submits(task: Tasks, full: nat, extra: nat, bands: nat)
      reads flush
    {
      && flush.AtLayer(full) && flush.Open(task, full, extra) && flush.Archived(task, full)
      && flush.flushedBandCount == bands
    }

    /** And the slots hold the rest. */
    ghost predicate Flushing(task: Tasks, contents: seq<seq<Byte>>, full: nat, extra: nat, bands: nat)
      reads flush, flush.chunks
    {
      Submits(task, full, extra, bands) && SlotsHold(flush.chunks, contents, extra) && Separate(flush.chunks)
    }

    ghost predicate FlushingAt(n: nat)
      reads this`acquired, flush, flush.chunks
    {
      Flushing(plan.task(Frames()), plan.contents(Frames(), plan.full(n)), plan.full(n), plan.extra(n), plan.bands(n))
    }

    ghost predicate Valid()
      reads this, flush, flush.chunks
    {
      && Built() && Sized(acquired) && Counted(|acquired|, plan.done(|acquired|)) && FlushingAt(|acquired|)
      && EmptyFrom(flush.chunks, plan.live(|acquired|))
    }

    constructor (g: Geo, t: Mapping, d: ArrayDimensions, encode: seq<Byte> -> seq<Byte>, ghost room: nat)
      requires IsRoom(g, Banded(g.dims) && t.None?, room)
      requires g.Valid() && ValidMapping(t, g.dims) && d.Valid() && d.dims == g.dims
      ensures Valid() && acquired == [] && geo == g && mapping == t && fresh(flush)
      ensures forall slot :: 0 <= slot < |flush.chunks| ==> flush.chunks[slot] == null
      ensures plan == PlanOf(g, NumberingOf(t, g.dims), FormOf(t, g), Banded(g.dims) && t.None?, encode)
      ensures flush.encode == encode && maxBytes == MaxByteCount(g) && bytesPerFrame == g.FrameBytes()
      ensures limit == room
    {
      geo, mapping := g, t;
      plan := PlanOf(g, NumberingOf(t, g.dims), FormOf(t, g), Banded(g.dims) && t.None?, encode);
      maxBytes := MaxByteCount(g);
      bytesPerFrame := g.FrameBytes();
      limit := room;
      flush := new FlushState(d, encode);
      totalBytesWritten, bytesToFlush := 0, 0;
      acquired := [];
      new;
      IsBuilt(g, t);
      StartsValid();
    }

    lemma IsBuilt(g: Geo, t: Mapping)
      requires g.Valid() && ValidMapping(t, g.dims) && geo == g && mapping == t && flush.dims.dims == g.dims
      requires plan == PlanOf(g, NumberingOf(t, g.dims), FormOf(t, g), Banded(g.dims) && t.None?, flush.encode)
      requires maxBytes == MaxByteCount(g) && bytesPerFrame == g.FrameBytes()
      requires IsRoom(g, Banded(g.dims) && t.None?, limit)
      ensures Built()
    {
      MappingIsBuilt(t, g);
      PlanFollows(g, NumberingOf(t, g.dims), FormOf(t, g), Banded(g.dims) && t.None?, flush.encode);
    }

    lemma StartsValid()
      requires Built() && flush.dims.Valid() && acquired == [] && totalBytesWritten == 0 && bytesToFlush == 0
      requires Blank()
      ensures Valid()
    {
      PlanStarts(plan, flush.encode);
      flush.dims.Sizes();
      BlankIsFlushing(plan.task(Frames()), plan.contents(Frames(), 0));
    }

    /** Nothing flushed, nothing in the slots. */
    ghost predicate Blank()
      reads flush
    {
      && flush.shards == [] && flush.archive == [] && flush.appendChunkIndex == 0
      && flush.currentLayer == 0 && flush.flushedBandCount == 0
      && |flush.chunks| == flush.dims.numberOfChunksInMemory
      && forall slot :: 0 <= slot < |flush.chunks| ==> flush.chunks[slot] == null
    }

    lemma BlankIsFlushing(task: Tasks, contents: seq<seq<Byte>>)
      requires flush.dims.Valid() && Blank() && |contents| == |flush.chunks|
      requires forall slot :: 0 <= slot < |contents| ==> AllZero(contents[slot])
      ensures Flushing(task, contents, 0, 0, 0)
    {
    }

    function FramesWritten(): nat
      requires bytesPerFrame > 0
      reads this`totalBytesWritten
    {
      totalBytesWritten / bytesPerFrame
    }

    lemma FramesCounted(n: nat)
      requires bytesPerFrame > 0 && totalBytesWritten == n * bytesPerFrame
      ensures FramesWritten() == n
    {
      DivModUnique(n, bytesPerFrame, 0);
    }

    /** Where the next frame goes. */
    method Target(ghost n: nat) returns (frameId: nat, groupOffset: nat, chunkOffset: nat, ghost at: Place)
      requires Built() && n == |acquired| && totalBytesWritten == n * bytesPerFrame
      requires maxBytes > 0 ==> totalBytesWritten + bytesPerFrame <= maxBytes
      ensures frameId == plan.place(n) && frameId !in Frames()
      ensures at == Locate(geo.dims, frameId) && at.layer == plan.full(n)
      ensures plan.extra(n) <= groupOffset && groupOffset + geo.Tiles() <= plan.live(n)
      ensures groupOffset == SlotIn(geo, at.group, 0)
      ensures chunkOffset == at.plane * geo.TileBytes()
    {
      NextTarget(n);
      FramesCounted(n);
      frameId := TransposeFrameId(mapping, FramesWritten());
      groupOffset := TileGroupOffset(geo.dims, frameId);
      chunkOffset := ChunkInternalOffset(geo.dims, frameId, geo.bpp);
      at := Locate(geo.dims, frameId);
    }

    lemma NextTarget(n: nat)
      requires Built() && n == |acquired| && (maxBytes > 0 ==> n * bytesPerFrame + bytesPerFrame <= maxBytes)
      ensures Looks(mapping, n, plan.place(n)) && plan.place(n) !in Frames()
      ensures var at := Locate(geo.dims, plan.place(n));
              && at.layer == plan.full(n)
              && plan.extra(n) <= SlotIn(geo, at.group, 0) && SlotIn(geo, at.group, 0) + geo.Tiles() <= plan.live(n)
    {
      assert Look(0);
      NextFrameFits(geo, plan.place, plan.form, acquired, plan.banded);
    }

    /** Rows and columns swapped if the storage order asks for it. */
    method StorageForm(frame: seq<Byte>) returns (stored: seq<Byte>)
      requires Built() && |frame| == bytesPerFrame
      ensures stored == plan.form(frame) && |stored| == |frame|
    {
      assert Look(0);
      if NeedsXyTransposition(mapping, |geo.dims|) {
        stored := TransposeFrame(frame, AcquisitionRows(mapping, geo.dims), AcquisitionCols(mapping, geo.dims), geo.bpp);
      } else {
        stored := frame;
      }
    }

    /** One frame into the slots of the open layer. */
    method WriteFrameToChunks(frame: seq<Byte>, ghost n: nat, ghost frames': Frames)
      returns (bytesWritten: nat)
      requires Built() && n == |acquired| && totalBytesWritten == n * bytesPerFrame && |frame| == bytesPerFrame
      requires maxBytes > 0 ==> totalBytesWritten + bytesPerFrame <= maxBytes
      requires frames' == Frames()[plan.place(n) := plan.form(frame)]
      requires SlotsHold(flush.chunks, plan.contents(Frames(), plan.full(n)), plan.extra(n)) && Separate(flush.chunks)
      modifies flush`chunks, flush.chunks
      ensures SlotsHold(flush.chunks, plan.contents(frames', plan.full(n)), plan.extra(n)) && Separate(flush.chunks)
      ensures |flush.chunks| == |old(flush.chunks)|
      ensures forall i :: 0 <= i < |flush.chunks| ==> flush.chunks[i] == old(flush.chunks[i]) || fresh(flush.chunks[i])
      ensures forall i :: plan.live(n) <= i < |flush.chunks| ==> flush.chunks[i] == old(flush.chunks[i])
      ensures bytesWritten == |frame|
    {
      var stored := StorageForm(frame);
      var frameId, groupOffset, chunkOffset, at := Target(n);
      ghost var before, after := plan.contents(Frames(), plan.full(n)), plan.contents(frames', plan.full(n));
      PlanContents(Frames(), frames', plan.full(n));
      bytesWritten := WriteTiles(geo, flush, groupOffset, chunkOffset, stored, Frames(), frames', frameId, at, plan.full(n),
                                 before, after, plan.extra(n));
    }

    lemma PlanContents(frames: Frames, frames': Frames, layer: nat)
      requires Built()
      ensures AreContents(plan.contents(frames, layer), geo, frames, layer)
      ensures AreContents(plan.contents(frames', layer), geo, frames', layer)
      ensures bytesPerFrame == geo.FrameBytes()
    {
      assert Look(0);
    }

    // ----- Flushing ------------------------------------------------------------------------

    /** Slots that hold contents give the jobs asked for. */
    lemma ReadyOf(frames: Frames, full: nat, extra: nat)
      requires Built() && SlotsHold(flush.chunks, plan.contents(frames, full), extra)
      ensures flush.Ready(plan.task(frames), full, extra)
    {
      assert Look(0);
      forall slot: nat | slot < |flush.chunks| && extra <= slot
        ensures flush.JobOf(flush.chunks[slot]) == plan.task(frames)(full, slot)
      {
        assert plan.task(frames)(full, slot) == ChunkTask(geo, flush.encode, frames, full, slot);
        assert SlotHolds(flush.chunks[slot], plan.contents(frames, full)[slot]);
      }
    }

    /** A band flush empties slots from the front and touches no others. */
    lemma BandsSettled(held: seq<Chunk?>, task: Tasks, contents: seq<seq<Byte>>, full: nat, bands: nat, bands': nat)
      requires geo.Valid() && Banded(geo.dims) && bands <= bands' && flush.dims.dims == geo.dims
      requires SlotsHold(held, contents, BandStart(geo.dims, bands)) && Separate(held)
      requires BandsFlushed(task, full, bands') && Kept(held, flush.chunks, BandStart(geo.dims, bands'))
      ensures Flushing(task, contents, full, BandStart(geo.dims, bands'), bands')
    {
      MulMono(bands, bands', ChunksPerBand(geo.dims));
    }

    /** Whatever the new frame completes is flushed. */
    method FlushStepBands(ghost n: nat, ghost task: Tasks, ghost contents: seq<seq<Byte>>, ghost full: nat, ghost bands: nat)
      requires geo.Valid() && flush.dims.dims == geo.dims && bytesPerFrame > 0 && totalBytesWritten == n * bytesPerFrame
      requires Banded(geo.dims) && BandsAdvance(geo.dims, n, full, bands)
      requires Flushing(task, contents, full, BandStart(geo.dims, bands), bands)
      requires flush.Ready(task, full, BandStart(geo.dims, bands))
      modifies flush, this`bytesToFlush
      ensures Shrunk(old(flush.chunks), flush.chunks)
      ensures LayerDone(geo.dims, n) ==> bytesToFlush == 0 && LayerFlushed(task, full + 1)
      ensures !LayerDone(geo.dims, n) ==>
                && bytesToFlush == old(bytesToFlush)
                && Flushing(task, contents, full, BandStart(geo.dims, BandsDone(geo.dims, n)), BandsDone(geo.dims, n))
    {
      ghost var held := flush.chunks;
      FlushCompletedBands(n, task, full, bands);
      if !LayerDone(geo.dims, n) {
        BandsSettled(held, task, contents, full, bands, BandsDone(geo.dims, n));
      }
    }

    method FlushStepLayer(ghost n: nat, ghost task: Tasks, ghost contents: seq<seq<Byte>>, ghost full: nat)
      requires geo.Valid() && flush.dims.dims == geo.dims && bytesPerFrame > 0 && totalBytesWritten == n * bytesPerFrame
      requires LayerDone(geo.dims, n) ==> FullLayers(geo.dims, n) == full + 1
      requires Flushing(task, contents, full, 0, 0) && flush.Ready(task, full, 0)
      modifies flush, this`bytesToFlush
      ensures Shrunk(old(flush.chunks), flush.chunks)
      ensures LayerDone(geo.dims, n) ==> bytesToFlush == 0 && LayerFlushed(task, full + 1)
      ensures !LayerDone(geo.dims, n) ==> bytesToFlush == old(bytesToFlush) && Flushing(task, contents, full, 0, 0)
    {
      FlushCompletedLayer(n, task, full);
    }

    /** The new frame is in; whatever it completes is flushed, in one way or the other. */
    method FlushStep(ghost n: nat, ghost task: Tasks, ghost contents: seq<seq<Byte>>)
      requires Built() && totalBytesWritten == (n + 1) * bytesPerFrame
      requires Flushing(task, contents, plan.full(n), plan.extra(n), plan.bands(n)) && flush.Ready(task, plan.full(n), plan.extra(n))
      modifies flush, this`bytesToFlush
      ensures Shrunk(old(flush.chunks), flush.chunks)
      ensures plan.done(n + 1) ==> bytesToFlush == 0 && LayerFlushed(task, plan.full(n + 1))
      ensures !plan.done(n + 1) ==>
                bytesToFlush == old(bytesToFlush) && Flushing(task, contents, plan.full(n), plan.extra(n + 1), plan.bands(n + 1))
    {
      PlanCounts(plan, flush.encode, n);
      PlanIs(n);
      PlanIs(n + 1);
      if SupportsDim1Banding() {
        BandsStep(geo.dims, n);
        FlushStepBands(n + 1, task, contents, plan.full(n), plan.bands(n));
      } else {
        FlushStepLayer(n + 1, task, contents, plan.full(n));
      }
    }

    lemma PlanIs(n: nat)
      requires Built()
      ensures plan.full(n) == FullLayers(geo.dims, n) && (plan.done(n) <==> LayerDone(geo.dims, n))
      ensures if SupportsDim1Banding() then plan.bands(n) == BandsDone(geo.dims, n) && plan.extra(n) == BandStart(geo.dims, plan.bands(n))
              else plan.bands(n) == 0 && plan.extra(n) == 0
    {
      assert Look(0);
    }

    /** A frame is taken in: written to its slots, counted, and whatever it completes is flushed. */
    method TakeFrame(frame: seq<Byte>) returns (bytesWritten: nat)
      requires Valid() && |frame| == bytesPerFrame
      requires maxBytes > 0 ==> totalBytesWritten + bytesPerFrame <= maxBytes
      modifies this`acquired, this`totalBytesWritten, this`bytesToFlush, flush, flush.chunks
      ensures acquired == old(acquired) + [frame] && bytesWritten == |frame|
      ensures forall i :: 0 <= i < |flush.chunks| ==>
                flush.chunks[i] == null || flush.chunks[i] in old(flush.chunks) || fresh(flush.chunks[i])
      ensures Valid()
    {
      ghost var n, frames' := |acquired|, Frames()[plan.place(|acquired|) := plan.form(frame)];
      OneFrameMore(plan.place, plan.form, acquired, frame);
      bytesWritten := FillSlots(frame, n, frames');
      totalBytesWritten := totalBytesWritten + bytesWritten;
      bytesToFlush := bytesToFlush + bytesWritten;
      acquired := acquired + [frame];
      NextMultiple(n, bytesPerFrame);
      CompleteFrame(n);
    }

    /** What the new frame completes is flushed. */
    method CompleteFrame(ghost n: nat)
      requires Built() && Sized(acquired) && |acquired| == n + 1
      requires totalBytesWritten == (n + 1) * bytesPerFrame && bytesToFlush > 0
      requires Flushing(plan.task(Frames()), plan.contents(Frames(), plan.full(n)), plan.full(n), plan.extra(n), plan.bands(n))
      requires EmptyFrom(flush.chunks, plan.live(n))
      modifies flush, this`bytesToFlush
      ensures Valid()
      ensures Shrunk(old(flush.chunks), flush.chunks)
    {
      ReadyOf(Frames(), plan.full(n), plan.extra(n));
      FlushStep(n, plan.task(Frames()), plan.contents(Frames(), plan.full(n)));
      Settled(n);
      PlanLive(plan, flush.encode, n);
    }

    /** The program's counters are functions of the number of frames accepted. */
    lemma Counters()
      requires Valid()
      ensures var n, perLayer := |acquired|, FramesPerLayer(geo.dims);
              && perLayer > 0 && perLayer * geo.dims[0].shard > 0
              && flush.currentLayer == n / perLayer % geo.dims[0].shard
              && flush.appendChunkIndex == n / (perLayer * geo.dims[0].shard)
              && totalBytesWritten == n * bytesPerFrame
              && (bytesToFlush > 0 <==> n % perLayer > 0)
      ensures SupportsDim1Banding() ==>
                FramesPerBand(geo.dims) > 0
                && flush.flushedBandCount == |acquired| % FramesPerLayer(geo.dims) / FramesPerBand(geo.dims)
      ensures !SupportsDim1Banding() ==> flush.flushedBandCount == 0
    {
      PlanIs(|acquired|);
      LayerOfFrame(geo.dims, 0);
      var perLayer := FramesPerLayer(geo.dims);
      RowColDiv(|acquired|, perLayer);
      CountersAre(|acquired|, perLayer, geo.dims[0].shard, flush.appendChunkIndex, flush.currentLayer);
      if SupportsDim1Banding() {
        BandSizes(geo.dims);
        RowColDiv(Col(|acquired|, perLayer), FramesPerBand(geo.dims));
      }
    }

    /** One frame offered to the array. */
    method WriteFrame(frame: seq<Byte>, frameId: nat) returns (r: WriteResult, bytesWritten: nat)
      requires Valid()
      modifies this`acquired, this`totalBytesWritten, this`bytesToFlush, flush, flush.chunks
      ensures Valid()
      ensures r == Answer(bytesPerFrame, maxBytes, |old(acquired)|, |frame|, frameId)
      ensures forall i :: 0 <= i < |flush.chunks| ==>
                flush.chunks[i] == null || flush.chunks[i] in old(flush.chunks) || fresh(flush.chunks[i])
      ensures r.Ok? ==> acquired == old(acquired) + [frame] && bytesWritten == |frame|
      ensures !r.Ok? ==> bytesWritten == 0 && unchanged(this) && unchanged(flush)
                         && forall c: Chunk :: c in old(flush.chunks) ==> unchanged(c)
    {
      if bytesPerFrame != |frame| {
        return FrameSizeMismatch, 0;
      }
      if maxBytes > 0 && totalBytesWritten + |frame| > maxBytes {
        return OutOfBounds, 0;
      }
      FramesCounted(|acquired|);
      if frameId != FramesWritten() {
        return FrameOutOfOrder, 0;
      }
      bytesWritten := TakeFrame(frame);
      r := if bytesWritten == |frame| then Ok else PartialWrite;
    }

    /** Chunks that can be in use at once: a band of them, or a layer. */
    ghost function Room(): nat
      requires geo.Valid()
    {
      if SupportsDim1Banding() then ChunksPerBand(geo.dims) else LayerChunks(geo.dims)
    }

    /** Bytes of the chunk buffers allocated. */
    method MemoryUsage() returns (total: nat)
      ensures total == BytesIn(flush.chunks, |flush.chunks|)
    {
      total := 0;
      for i := 0 to |flush.chunks|
        invariant total == BytesIn(flush.chunks, i)
      {
        if flush.chunks[i] != null {
          total := total + flush.chunks[i].sizeBytes;
        }
      }
    }

    /** That is a chunk's bytes for each slot that holds one, and no more than a band of chunks, or a layer, takes. */
    lemma UsageBound()
      requires Valid()
      ensures BytesIn(flush.chunks, |flush.chunks|) == |LiveIn(flush.chunks, |flush.chunks|)| * geo.ChunkBytes() <= limit
    {
      PlanRoom(plan, flush.encode, |acquired|);
      LimitIs();
      SlotsSized(geo.ChunkBytes());
      LiveWithin(flush.chunks, plan.extra(|acquired|), plan.live(|acquired|), Room(), geo.ChunkBytes(), limit);
    }

    /** A band of chunks, or a layer. */
    lemma LimitIs()
      requires Built()
      ensures limit == Room() * geo.ChunkBytes()
    {
      assert Look(0);
    }

    lemma SlotsSized(size: nat)
      requires Valid() && size == geo.ChunkBytes()
      ensures forall i :: 0 <= i < |flush.chunks| && flush.chunks[i] != null ==>
                plan.extra(|acquired|) <= i < plan.live(|acquired|) && flush.chunks[i].sizeBytes == size
    {
      var n := |acquired|;
      forall i | 0 <= i < |flush.chunks| && flush.chunks[i] != null
        ensures plan.extra(n) <= i < plan.live(n) && flush.chunks[i].sizeBytes == size
      {
        PlanContentSize(plan, flush.encode, Frames(), plan.full(n), i);
      }
    }

    /** Flushes what the frames left in the slots; then the shards have everything. */
    method Close()
      requires Valid()
      modifies flush
      ensures |Frames()| == |acquired|
      ensures flush.Delivered(plan.task(Frames()), LayersUsed(geo.dims, |acquired|))
    {
      FramesDistinct();
      ReadyOf(Frames(), plan.full(|acquired|), plan.extra(|acquired|));
      if plan.done(|acquired|) {
        DoneExtra(|acquired|);
      }
      if bytesToFlush > 0 {
        FlushRest(|acquired|, plan.task(Frames()));
      } else {
        NothingLeft(|acquired|, plan.task(Frames()));
      }
    }

    /** The layer a new frame would go to has not been touched. */
    lemma NothingLeft(n: nat, task: Tasks)
      requires Built() && Submits(task, plan.full(n), plan.extra(n), plan.bands(n)) && plan.done(n) && plan.extra(n) == 0
      ensures flush.Delivered(task, LayersUsed(geo.dims, n))
    {
      PlanIs(n);
      LayersAre(geo.dims, n);
      flush.AllDelivered(task, plan.full(n), plan.full(n));
    }

    method FlushRest(ghost n: nat, ghost task: Tasks)
      requires Built() && Submits(task, plan.full(n), plan.extra(n), plan.bands(n)) && !plan.done(n)
      requires flush.Ready(task, plan.full(n), plan.extra(n)) && bytesPerFrame > 0
      modifies flush
      ensures flush.Delivered(task, LayersUsed(geo.dims, n))
    {
      PlanIs(n);
      LayersAre(geo.dims, n);
      ghost var gen, full := flush.appendChunkIndex, plan.full(n);
      if SupportsDim1Banding() {
        BandInRange(geo.dims, n);
        flush.FlushLayerRemainder(task, full);
      } else {
        flush.CompressAndFlushData(task, full, false);
      }
      NextMultiple(gen, geo.dims[0].shard);
      NonemptyShards(geo.dims, flush.shards, task, gen, full + 1);
      flush.AllDelivered(task, full + 1, full);
    }

    lemma DoneExtra(n: nat)
      requires Built() && plan.done(n)
      ensures plan.extra(n) == 0
    {
      PlanIs(n);
      if SupportsDim1Banding() {
        DoneNoBands(geo.dims, n);
      }
    }

    lemma FramesDistinct()
      requires Built()
      ensures |Frames()| == |acquired|
    {
      assert Look(0);
      FramesCount(plan.place, plan.form, acquired);
    }

    /** The slots take the frame; what has been flushed stays right for the frames with it. */
    method FillSlots(frame: seq<Byte>, ghost n: nat, ghost frames': Frames) returns (bytesWritten: nat)
      requires Valid() && n == |acquired| && |frame| == bytesPerFrame
      requires maxBytes > 0 ==> totalBytesWritten + bytesPerFrame <= maxBytes
      requires frames' == Frames()[plan.place(n) := plan.form(frame)]
      modifies flush`chunks, flush.chunks
      ensures Flushing(plan.task(frames'), plan.contents(frames', plan.full(n)), plan.full(n), plan.extra(n), plan.bands(n))
      ensures forall i :: 0 <= i < |flush.chunks| ==> flush.chunks[i] == old(flush.chunks[i]) || fresh(flush.chunks[i])
      ensures EmptyFrom(flush.chunks, plan.live(n))
      ensures bytesWritten == |frame|
    {
      PlanAgrees(plan, flush.encode, Frames(), n, plan.form(frame));
      flush.TasksCarried(plan.task(Frames()), plan.task(frames'), plan.full(n), plan.extra(n));
      bytesWritten := WriteFrameToChunks(frame, n, frames');
    }

    lemma Settled(n: nat)
      requires Built() && |acquired| == n + 1
      requires plan.done(n + 1) ==> LayerFlushed(plan.task(Frames()), plan.full(n + 1))
      requires !plan.done(n + 1) ==>
                 Flushing(plan.task(Frames()), plan.contents(Frames(), plan.full(n)), plan.full(n), plan.extra(n + 1), plan.bands(n + 1))
      ensures FlushingAt(n + 1)
    {
      PlanCounts(plan, flush.encode, n);
      if plan.done(n + 1) {
        PlanEmpty(plan, flush.encode, acquired);
        flush.dims.Sizes();
      }
    }

    /** All slots are empty and everything up to layer `full` is flushed. */
    ghost predicate LayerFlushed(task: Tasks, full: nat)
      reads flush
    {
      && flush.AtLayer(full) && flush.Open(task, full, 0) && flush.Archived(task, full) && flush.flushedBandCount == 0
      && forall slot :: 0 <= slot < |flush.chunks| ==> flush.chunks[slot] == null
    }

    /** Whole layers: nothing happens until the layer is complete. */
    method FlushCompletedLayer(ghost n: nat, ghost task: Tasks, ghost full: nat)
      requires geo.Valid() && flush.dims.dims == geo.dims && bytesPerFrame > 0 && totalBytesWritten == n * bytesPerFrame
      requires flush.AtLayer(full) && flush.Open(task, full, 0) && flush.Archived(task, full) && flush.flushedBandCount == 0
      requires flush.Ready(task, full, 0)
      requires LayerDone(geo.dims, n) ==> FullLayers(geo.dims, n) == full + 1
      modifies flush, this`bytesToFlush
      ensures if LayerDone(geo.dims, n) then bytesToFlush == 0 && LayerFlushed(task, full + 1)
              else bytesToFlush == old(bytesToFlush) && unchanged(flush)
      ensures |flush.chunks| == |old(flush.chunks)|
    {
      FramesCounted(n);
      var framesPerLayer := FramesPerChunkLayer();
      RowColDiv(n, framesPerLayer);
      if FramesWritten() % framesPerLayer == 0 {
        ghost var shards0, archive0, layer0 := flush.shards, flush.archive, flush.currentLayer;
        RolloverAt(n, framesPerLayer, geo.dims[0].shard, |archive0|, layer0);
        var rollsOver := FramesWritten() % (framesPerLayer * geo.dims[0].shard) == 0;
        flush.CompressAndFlushData(task, full, rollsOver);
        shards0 := flush.shards;
        if rollsOver {
          flush.Rollover();
        }
        flush.Advanced(task, full, shards0, archive0, layer0, rollsOver);
        bytesToFlush := 0;
      }
    }

    /** Bands: each is flushed when its last frame is in, the last one with the layer. */
    method FlushCompletedBands(ghost n: nat, ghost task: Tasks, ghost full: nat, ghost bands: nat)
      requires geo.Valid() && flush.dims.dims == geo.dims && bytesPerFrame > 0 && totalBytesWritten == n * bytesPerFrame
      requires Banded(geo.dims) && BandsAdvance(geo.dims, n, full, bands)
      requires flush.AtLayer(full) && flush.Open(task, full, BandStart(geo.dims, bands)) && flush.Archived(task, full)
      requires flush.flushedBandCount == bands && flush.Ready(task, full, BandStart(geo.dims, bands))
      modifies flush, this`bytesToFlush
      ensures |flush.chunks| == |old(flush.chunks)|
      ensures LayerDone(geo.dims, n) ==> bytesToFlush == 0 && LayerFlushed(task, full + 1)
      ensures !LayerDone(geo.dims, n) ==>
                bytesToFlush == old(bytesToFlush)
                && BandsFlushed(task, full, BandsDone(geo.dims, n)) && Kept(old(flush.chunks), flush.chunks, BandStart(geo.dims, BandsDone(geo.dims, n)))
    {
      FramesCounted(n);
      var framesPerLayer := FramesPerChunkLayer();
      var framesPerBand := FramesPerDim1Band();
      RowColDiv(n, framesPerLayer);
      var framesInLayer := FramesWritten() % framesPerLayer;
      if framesInLayer == 0 {
        LayerByBands(n, task, full, framesPerLayer);
      } else if framesInLayer % framesPerBand == 0 {
        RowColDiv(framesInLayer, framesPerBand);
        var completed := framesInLayer / framesPerBand;
        flush.FlushBands(completed, BandCount(geo.dims), task, full);
      } else {
        RowColDiv(framesInLayer, framesPerBand);
      }
    }

    /** The first `bands` bands of the open layer are flushed. */
    ghost predicate BandsFlushed(task: Tasks, full: nat, bands: nat)
      requires geo.Valid() && Banded(geo.dims)
      reads flush, flush.chunks
    {
      && flush.AtLayer(full) && flush.Open(task, full, BandStart(geo.dims, bands)) && flush.Archived(task, full)
      && flush.Ready(task, full, BandStart(geo.dims, bands)) && flush.flushedBandCount == bands
    }

    /** The trailing bands, then the next layer or the next generation. */
    method LayerByBands(ghost n: nat, ghost task: Tasks, ghost full: nat, framesPerLayer: nat)
      requires geo.Valid() && flush.dims.dims == geo.dims && bytesPerFrame > 0 && totalBytesWritten == n * bytesPerFrame
      requires Banded(geo.dims) && flush.flushedBandCount < BandCount(geo.dims)
      requires framesPerLayer == FramesPerLayer(geo.dims) > 0 && LayerDone(geo.dims, n) && FullLayers(geo.dims, n) == full + 1
      requires flush.AtLayer(full) && flush.Open(task, full, BandStart(geo.dims, flush.flushedBandCount)) && flush.Archived(task, full)
      requires flush.Ready(task, full, BandStart(geo.dims, flush.flushedBandCount))
      modifies flush, this`bytesToFlush
      ensures |flush.chunks| == |old(flush.chunks)| && bytesToFlush == 0 && LayerFlushed(task, full + 1)
    {
      FramesCounted(n);
      ghost var archive0, layer0 := flush.archive, flush.currentLayer;
      RolloverAt(n, framesPerLayer, geo.dims[0].shard, |archive0|, layer0);
      flush.FlushLayerRemainder(task, full);
      ghost var shards0 := flush.shards;
      var rollsOver := FramesWritten() % (framesPerLayer * geo.dims[0].shard) == 0;
      if rollsOver {
        flush.Rollover();
        flush.currentLayer := 0;
      } else {
        flush.currentLayer := flush.currentLayer + 1;
      }
      flush.flushedBandCount := 0;
      flush.Advanced(task, full, shards0, archive0, layer0, rollsOver);
      bytesToFlush := 0;
    }

    /** Frames that fill the chunks of a layer. */
    method FramesPerChunkLayer() returns (frames: nat)
      requires geo.Valid()
      ensures frames == FramesPerLayer(geo.dims) > 0
    {
      LayerOfFrame(geo.dims, 0);
      var inner := InnerFrames(geo.dims, 1);
      frames := geo.dims[0].chunk * inner;
    }

    method FramesPerDim1Band() returns (frames: nat)
      requires geo.Valid() && Banded(geo.dims)
      ensures frames == FramesPerBand(geo.dims) > 0
    {
      BandSizes(geo.dims);
      var inner := InnerFrames(geo.dims, 2);
      frames := geo.dims[1].chunk * inner;
    }
  }

  /** Bytes of the chunks in use at once, a band or a layer of them; kept closed. */
  ghost predicate IsRoom(g: Geo, banded: bool, room: nat) {
    g.Valid() && (banded ==> Banded(g.dims))
    && forall x {:trigger Look(x)} :: Look(x) ==>
         room == (if banded then ChunksPerBand(g.dims) else LayerChunks(g.dims)) * g.ChunkBytes()
  }

  lemma RoomOf(g: Geo, banded: bool) returns (room: nat)
    requires g.Valid() && (banded ==> Banded(g.dims))
    ensures IsRoom(g, banded, room)
  {
    room := NatProduct(if banded then ChunksPerBand(g.dims) else LayerChunks(g.dims), g.ChunkBytes());
  }

  function NatProduct(a: nat, b: nat): nat {
    a * b
  }

  /** How many numbers before `i` lie between the two. */
  function Between(from: nat, to: nat, i: nat): nat {
    if i <= from || to <= from then 0 else if i <= to then i - from else to - from
  }

  /** Bytes of the chunks in the first `n` slots. */
  function BytesIn(chunks: seq<Chunk?>, n: nat): nat
    requires n <= |chunks|
  {
    if n == 0 then 0 else BytesIn(chunks, n - 1) + if chunks[n - 1] != null then chunks[n - 1].sizeBytes else 0
  }

  lemma {:induction false} LiveBound(chunks: seq<Chunk?>, n: nat, from: nat, to: nat, size: nat)
    requires n <= |chunks|
    requires forall i :: 0 <= i < |chunks| && chunks[i] != null ==> from <= i < to && chunks[i].sizeBytes == size
    ensures BytesIn(chunks, n) == |LiveIn(chunks, n)| * size && |LiveIn(chunks, n)| <= Between(from, to, n)
  {
    if n > 0 {
      LiveBound(chunks, n - 1, from, to, size);
      LiveNext(chunks, n - 1);
      NextMultiple(|LiveIn(chunks, n - 1)|, size);
    } else {
      assert LiveIn(chunks, 0) == {};
    }
  }

  /** Slots before `n` that hold a chunk. */
  ghost function LiveIn(chunks: seq<Chunk?>, n: nat): set<nat>
    requires n <= |chunks|
  {
    set i: nat | i < n && chunks[i] != null
  }

  lemma LiveWithin(chunks: seq<Chunk?>, from: nat, to: nat, room: nat, size: nat, limit: nat)
    requires forall i :: 0 <= i < |chunks| && chunks[i] != null ==> from <= i < to && chunks[i].sizeBytes == size
    requires to - from == room && limit == room * size
    ensures BytesIn(chunks, |chunks|) == |LiveIn(chunks, |chunks|)| * size <= limit
  {
    LiveBound(chunks, |chunks|, from, to, size);
    MulMono(|LiveIn(chunks, |chunks|)|, room, size);
  }

  lemma LiveNext(chunks: seq<Chunk?>, i: nat)
    requires i < |chunks|
    ensures |LiveIn(chunks, i + 1)| == |LiveIn(chunks, i)| + if chunks[i] != null then 1 else 0
  {
    assert LiveIn(chunks, i + 1) == if chunks[i] != null then LiveIn(chunks, i) + {i} else LiveIn(chunks, i);
  }

  /** Flushing only empties slots. */
  ghost predicate Shrunk(held: seq<Chunk?>, now: seq<Chunk?>) {
    |now| == |held| && forall slot :: 0 <= slot < |now| ==> now[slot] == null || now[slot] == held[slot]
  }

  lemma NextFrameFits(g: Geo, place: Numbering, form: Form, acquired: seq<seq<Byte>>, banded: bool)
    requires g.Valid() && KeepsLayers(g.dims, place) && (banded ==> Banded(g.dims) && IsPlain(place))
    ensures var n := |acquired|;
            && place(n) !in FramesOf(place, form, acquired)
            && Locate(g.dims, place(n)).layer == FullLayers(g.dims, n)
            && ExtraSlots(g.dims, banded, n) <= SlotIn(g, Locate(g.dims, place(n)).group, 0)
            && SlotIn(g, Locate(g.dims, place(n)).group, 0) + g.Tiles() <= LiveSlots(g.dims, banded, n)
  {
    FramesAre(place, form, acquired, |acquired|);
    GroupBehind(g, place, banded, |acquired|);
    GroupBefore(g, place, banded, |acquired|);
  }

  lemma MappingIsBuilt(t: Mapping, g: Geo)
    requires g.Valid() && ValidMapping(t, g.dims)
    ensures KeepsLayers(g.dims, NumberingOf(t, g.dims)) && (t.None? ==> IsPlain(NumberingOf(t, g.dims)))
    ensures Numbers(t, NumberingOf(t, g.dims), MaxByteCount(g), g.FrameBytes()) && Forms(t, g, FormOf(t, g))
    ensures g.FrameBytes() > 0
  {
    GeoPositive(g);
    MappingKeepsLayers(t, g.dims);
    MappingNumbers(t, g);
    MappingForms(t, g);
  }

  /** The frame before the `n`-th left `bands` bands complete; how the next one moves them. */
  ghost predicate BandsAdvance(dims: seq<Dim>, n: nat, full: nat, bands: nat)
    requires ValidDims(dims) && Banded(dims)
  {
    BandSizes(dims);
    LayerOfFrame(dims, 0);
    && bands < BandCount(dims)
    && (LayerDone(dims, n) ==> FullLayers(dims, n) == full + 1)
    && (!LayerDone(dims, n) ==>
          && FullLayers(dims, n) == full && bands <= BandsDone(dims, n) < BandCount(dims)
          && (Col(Col(n, FramesPerLayer(dims)), FramesPerBand(dims)) != 0 ==> BandsDone(dims, n) == bands))
  }

  lemma BandsStep(dims: seq<Dim>, n: nat)
    requires ValidDims(dims) && Banded(dims)
    ensures BandsAdvance(dims, n + 1, FullLayers(dims, n), BandsDone(dims, n))
  {
    BandSizes(dims);
    LayerOfFrame(dims, 0);
    BandInRange(dims, n);
    BandInRange(dims, n + 1);
    RowNext(n, FramesPerLayer(dims));
    RowNext(Col(n, FramesPerLayer(dims)), FramesPerBand(dims));
  }

  /** Layers that have a frame. */
  ghost function LayersUsed(dims: seq<Dim>, n: nat): nat
    requires ValidDims(dims)
  {
    LayerOfFrame(dims, 0);
    CeilDiv(n, FramesPerLayer(dims))
  }

  lemma LayersAre(dims: seq<Dim>, n: nat)
    requires ValidDims(dims)
    ensures LayersUsed(dims, n) == if LayerDone(dims, n) then FullLayers(dims, n) else FullLayers(dims, n) + 1
  {
    LayerOfFrame(dims, 0);
    RoundUp(n, FramesPerLayer(dims));
  }

  lemma RoundUp(n: nat, d: nat)
    requires d > 0
    ensures CeilDiv(n, d) == if Col(n, d) == 0 then Row(n, d) else Row(n, d) + 1
  {
    RowColDiv(n, d);
    var k := if Col(n, d) == 0 then Row(n, d) else Row(n, d) + 1;
    assert (Row(n, d) + 1) * d == Row(n, d) * d + d;
    CeilDivUnique(n, d, k);
  }

  lemma NonemptyShards(dims: seq<Dim>, shards: seq<Jobs>, task: Tasks, gen: nat, full: nat)
    requires ValidDims(dims) && ShardsAre(shards, dims, task, gen, full, 0)
    ensures shards != []
  {
    GridPositive(dims);
  }
}
