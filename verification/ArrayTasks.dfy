/**
 Which job each chunk of an array gives rise to, and why a flushed chunk never needs another one:
 a new frame falls into the open layer, behind every band flushed before it.

 A `Plan` holds, as functions of the number of frames received, what the array has to have done by then: the
 layers and bands that are full, the slots that may be in use, the content of each slot.  `Follows` ties it to
 the array's shape; the lemmas after it are how the array's methods use the plan.
 */
module ArrayTasks {
  import opened Arith
  import opened Lattice
  import opened Bytes
  import opened Grid
  import opened Dimensions
  import opened ShardTables
  import opened ChunkContent
  import opened Acquisition
  import opened ArraySpec
  import opened Submission
  import opened ShardMachine
  import opened Closing

  /** A chunk with any nonzero byte is stored compressed; any other is left out. */
  ghost function ChunkTask(g: Geo, encode: seq<Byte> -> seq<Byte>, frames: Frames, layer: nat, slot: nat): Task
    requires g.Valid()
  {
    var c := Content(g, frames, layer, slot);
    if AllZero(c) then Skip else Put(encode(c))
  }

  ghost function TasksOf(g: Geo, encode: seq<Byte> -> seq<Byte>, frames: Frames): Tasks
    requires g.Valid()
  {
    (layer: nat, slot: nat) => ChunkTask(g, encode, frames, layer, slot)
  }

  /** Contents of the slots of a layer. */
  ghost function LayerContents(g: Geo, frames: Frames, layer: nat): (contents: seq<seq<Byte>>)
    requires g.Valid()
    ensures |contents| == LayerChunks(g.dims)
    ensures forall slot :: 0 <= slot < |contents| ==> contents[slot] == Content(g, frames, layer, slot)
  {
    seq(LayerChunks(g.dims), slot requires 0 <= slot < LayerChunks(g.dims) => Content(g, frames, layer, slot))
  }

  /** The same, kept closed. */
  ghost predicate AreContents(contents: seq<seq<Byte>>, g: Geo, frames: Frames, layer: nat)
    requires g.Valid()
  {
    forall x {:trigger Look(x)} :: Look(x) ==> contents == LayerContents(g, frames, layer)
  }

  /** Whether chunk (layer, slot) has been flushed. */
  predicate Flushed(layer: nat, slot: nat, full: nat, extra: nat) {
    layer < full || (layer == full && slot < extra)
  }

  /** The tasks of flushed chunks do not change. */
  ghost predicate Agree(dims: seq<Dim>, task: Tasks, task': Tasks, full: nat, extra: nat)
    requires ValidDims(dims)
  {
    forall layer: nat, slot: nat :: slot < LayerChunks(dims) && Flushed(layer, slot, full, extra) ==>
      task'(layer, slot) == task(layer, slot)
  }

  lemma StillAre(shards: seq<Jobs>, dims: seq<Dim>, task: Tasks, task': Tasks, gen: nat, full: nat, extra: nat)
    requires ValidDims(dims) && ShardsAre(shards, dims, task, gen, full, extra) && Agree(dims, task, task', full, extra)
    ensures ShardsAre(shards, dims, task', gen, full, extra)
  {
    forall s: nat | s < |shards| ensures ShardIs(shards[s], dims, task', gen, s, full, extra) {
      SubmittedStays(shards[s], dims, task, task', gen, s, full, extra);
    }
  }

  lemma CompleteStill(shards: seq<Jobs>, dims: seq<Dim>, task: Tasks, gen: nat, full: nat, full': nat)
    requires ValidDims(dims) && ShardsAre(shards, dims, task, gen, full, 0)
    requires (gen + 1) * dims[0].shard <= full <= full'
    ensures ShardsAre(shards, dims, task, gen, full', 0)
  {
    forall s: nat | s < |shards| ensures ShardIs(shards[s], dims, task, gen, s, full', 0) {
      CompleteStays(shards[s], dims, task, gen, s, full, 0, full', 0);
    }
  }

  /** How many slots of the open layer are flushed after `n` frames. */
  ghost function ExtraSlots(dims: seq<Dim>, banded: bool, n: nat): nat
    requires ValidDims(dims) && (banded ==> Banded(dims))
  {
    if banded then BandStart(dims, BandsDone(dims, n)) else 0
  }

  /** Slots before this one can hold a chunk after `n` frames. */
  ghost function LiveSlots(dims: seq<Dim>, banded: bool, n: nat): nat
    requires ValidDims(dims) && (banded ==> Banded(dims))
  {
    if banded then BandStart(dims, BandsDone(dims, n) + 1) else LayerChunks(dims)
  }

  /** Bands of the open layer complete after `n` frames. */
  ghost function BandsDone(dims: seq<Dim>, n: nat): nat
    requires ValidDims(dims) && Banded(dims)
  {
    BandSizes(dims);
    LayerOfFrame(dims, 0);
    Row(Col(n, FramesPerLayer(dims)), FramesPerBand(dims))
  }

  /** Layers complete after `n` frames. */
  ghost function FullLayers(dims: seq<Dim>, n: nat): nat
    requires ValidDims(dims)
  {
    LayerOfFrame(dims, 0);
    Row(n, FramesPerLayer(dims))
  }

  /** Distinct frames are stored at distinct ids, each in the layer it is acquired in. */
  ghost predicate KeepsLayers(dims: seq<Dim>, place: Numbering)
    requires ValidDims(dims)
  {
    && Injective(place)
    && forall f: nat :: Locate(dims, place(f)).layer == FullLayers(dims, f)
  }

  ghost predicate IsPlain(place: Numbering) {
    forall f: nat :: place(f) == f
  }

  lemma MappingKeepsLayers(t: Mapping, dims: seq<Dim>)
    requires ValidMapping(t, dims)
    ensures KeepsLayers(dims, NumberingOf(t, dims))
    ensures t.None? ==> IsPlain(NumberingOf(t, dims))
  {
    NumberingInjective(t, dims);
    forall f: nat ensures Locate(dims, StorageId(t, dims, f)).layer == FullLayers(dims, f) {
      StorageIdLayer(t, dims, f);
      LayerOfFrame(dims, StorageId(t, dims, f));
      RowColDiv(f, FramesPerLayer(dims));
      RowColDiv(StorageId(t, dims, f), FramesPerLayer(dims));
    }
  }

  /** The first slot of the group of frame `n` of a banded array lies in the open band. */
  lemma GroupInBand(g: Geo, n: nat, tile: nat)
    requires g.Valid() && Banded(g.dims) && tile < g.Tiles()
    ensures BandStart(g.dims, BandsDone(g.dims, n)) <= SlotIn(g, Locate(g.dims, n).group, tile)
    ensures SlotIn(g, Locate(g.dims, n).group, tile) < BandStart(g.dims, BandsDone(g.dims, n) + 1)
  {
    BandOfFrame(g.dims, n, tile);
    RowStarts(SlotIn(g, Locate(g.dims, n).group, tile), ChunksPerBand(g.dims));
  }

  lemma RowStarts(x: nat, d: nat)
    requires d > 0
    ensures Row(x, d) * d <= x < (Row(x, d) + 1) * d
  {
    RowColDiv(x, d);
    assert (Row(x, d) + 1) * d == Row(x, d) * d + d;
  }

  /** So its group lies behind the bands flushed. */
  lemma GroupBehind(g: Geo, place: Numbering, banded: bool, n: nat)
    requires g.Valid() && (banded ==> Banded(g.dims) && IsPlain(place))
    ensures ExtraSlots(g.dims, banded, n) <= SlotIn(g, Locate(g.dims, place(n)).group, 0)
  {
    if banded {
      GeoPositive(g);
      GroupInBand(g, n, 0);
    }
  }

  /** And before the slots that can be in use. */
  lemma GroupBefore(g: Geo, place: Numbering, banded: bool, n: nat)
    requires g.Valid() && (banded ==> Banded(g.dims) && IsPlain(place))
    ensures SlotIn(g, Locate(g.dims, place(n)).group, 0) + g.Tiles() <= LiveSlots(g.dims, banded, n)
  {
    if banded {
      TilesPositive(g);
      GroupInBand(g, n, g.Tiles() - 1);
    } else {
      GroupInside(g, place(n), Locate(g.dims, place(n)).group);
    }
  }

  lemma TilesPositive(g: Geo)
    requires g.Valid()
    ensures g.Tiles() > 0
  {
    GeoPositive(g);
  }

  lemma GroupInside(g: Geo, sf: nat, group: nat)
    requires g.Valid() && group == Locate(g.dims, sf).group
    ensures SlotIn(g, group, 0) + g.Tiles() <= LayerChunks(g.dims)
  {
    PlaceOfFrame(g.dims, sf);
    SlotsAreGroups(g.dims);
    LastStep(group, GroupCount(g.dims), g.Tiles());
  }

  /** Contents of flushed chunks survive the next frame. */
  lemma NextFrameElsewhere(g: Geo, place: Numbering, frames: Frames, n: nat, stored: seq<Byte>, banded: bool, layer: nat, slot: nat)
    requires g.Valid() && KeepsLayers(g.dims, place) && (banded ==> Banded(g.dims) && IsPlain(place))
    requires slot < LayerChunks(g.dims) && Flushed(layer, slot, FullLayers(g.dims, n), ExtraSlots(g.dims, banded, n))
    ensures Content(g, frames[place(n) := stored], layer, slot) == Content(g, frames, layer, slot)
  {
    GeoPositive(g);
    SlotsAreGroups(g.dims);
    assert Locate(g.dims, place(n)).layer == FullLayers(g.dims, n);
    if layer == FullLayers(g.dims, n) && Locate(g.dims, n).group == Row(slot, g.Tiles()) {
      RowColDiv(slot, g.Tiles());
      GroupInBand(g, n, Col(slot, g.Tiles()));
    }
    OtherContent(g, frames, place(n), stored, layer, slot);
  }

  /** So do their jobs. */
  lemma NextFrameAgrees(g: Geo, place: Numbering, encode: seq<Byte> -> seq<Byte>, frames: Frames, n: nat, stored: seq<Byte>,
                        banded: bool)
    requires g.Valid() && KeepsLayers(g.dims, place) && (banded ==> Banded(g.dims) && IsPlain(place))
    ensures Agree(g.dims, TasksOf(g, encode, frames), TasksOf(g, encode, frames[place(n) := stored]),
                  FullLayers(g.dims, n), ExtraSlots(g.dims, banded, n))
  {
    var frames' := frames[place(n) := stored];
    var task, task', full, extra :=
      TasksOf(g, encode, frames), TasksOf(g, encode, frames'), FullLayers(g.dims, n), ExtraSlots(g.dims, banded, n);
    forall layer: nat, slot: nat | slot < LayerChunks(g.dims) && Flushed(layer, slot, full, extra)
      ensures task'(layer, slot) == task(layer, slot)
    {
      NextFrameElsewhere(g, place, frames, n, stored, banded, layer, slot);
      SameTask(g, encode, frames, frames', layer, slot);
    }
  }

  lemma SameTask(g: Geo, encode: seq<Byte> -> seq<Byte>, frames: Frames, frames': Frames, layer: nat, slot: nat)
    requires g.Valid() && Content(g, frames', layer, slot) == Content(g, frames, layer, slot)
    ensures TasksOf(g, encode, frames')(layer, slot) == TasksOf(g, encode, frames)(layer, slot)
  {
  }

  /** A layer that no frame has reached is empty. */
  lemma NextLayerEmpty(g: Geo, place: Numbering, form: Form, acquired: seq<seq<Byte>>, layer: nat, slot: nat)
    requires g.Valid() && KeepsLayers(g.dims, place) && slot < LayerChunks(g.dims)
    requires forall f: nat :: f < |acquired| ==> FullLayers(g.dims, f) < layer
    ensures AllZero(Content(g, FramesOf(place, form, acquired), layer, slot))
  {
    var frames := FramesOf(place, form, acquired);
    forall sf | sf in frames ensures Locate(g.dims, sf).layer != layer {
      var f := StoredWasAcquired(place, form, acquired, sf);
    }
    SlotsAreGroups(g.dims);
    NoFramesNoContent(g, frames, layer, slot);
  }

  // ----- Counting frames -------------------------------------------------------------------

  /** Before a layer is complete all its frames lie in complete layers or this one. */
  lemma FullBefore(dims: seq<Dim>, n: nat, f: nat)
    requires ValidDims(dims) && f <= n
    ensures FullLayers(dims, f) <= FullLayers(dims, n)
  {
    LayerOfFrame(dims, 0);
    RowColDiv(f, FramesPerLayer(dims));
    RowColDiv(n, FramesPerLayer(dims));
    DivMono(f, n, FramesPerLayer(dims));
  }

  /** Frames of the open layer lie in the bands counted. */
  lemma BandInRange(dims: seq<Dim>, n: nat)
    requires ValidDims(dims) && Banded(dims)
    ensures BandsDone(dims, n) < BandCount(dims)
  {
    BandSizes(dims);
    LayerOfFrame(dims, 0);
    CeilDivCovers(dims[1].size, dims[1].chunk);
    BandCover(dims[1].size, dims[1].chunk, BandCount(dims), Size(ArraySizes(FrameDims(dims))[2..]));
    RowBound(Col(n, FramesPerLayer(dims)), BandCount(dims), FramesPerBand(dims));
  }

  lemma BandCover(size: nat, chunk: nat, bands: nat, inner: nat)
    requires size <= bands * chunk
    ensures size * inner <= bands * (chunk * inner)
  {
    MulMono(size, bands * chunk, inner);
    MulAssoc(bands, chunk, inner);
  }

  // ----- The plan of an array ----------------------------------------------------------------

  /** After `n` frames no frame of the layer is in yet. */
  ghost predicate LayerDone(dims: seq<Dim>, n: nat)
    requires ValidDims(dims)
  {
    LayerOfFrame(dims, 0);
    Col(n, FramesPerLayer(dims)) == 0
  }

  lemma DoneNoBands(dims: seq<Dim>, n: nat)
    requires ValidDims(dims) && Banded(dims) && LayerDone(dims, n)
    ensures BandsDone(dims, n) == 0 && BandStart(dims, 0) == 0
  {
    BandSizes(dims);
  }

  /**
   What is to be flushed when, as functions of the number of frames: complete layers, bands and slots
   flushed of the open one, slots that can be in use, whether it is still empty, its contents, the jobs.
   */
  datatype Plan = Plan(
    geo: Geo,
    place: Numbering,
    form: Form,
    banded: bool,
    full: nat -> nat,
    bands: nat -> nat,
    extra: nat -> nat,
    live: nat -> nat,
    done: nat -> bool,
    contents: (Frames, nat) -> seq<seq<Byte>>,
    task: Frames -> Tasks)

  ghost function PlanOf(g: Geo, place: Numbering, form: Form, banded: bool, encode: seq<Byte> -> seq<Byte>): Plan
    requires g.Valid() && (banded ==> Banded(g.dims))
  {
    Plan(g, place, form, banded,
         (n: nat) => FullLayers(g.dims, n),
         (n: nat) => if banded then BandsDone(g.dims, n) else 0,
         (n: nat) => ExtraSlots(g.dims, banded, n),
         (n: nat) => LiveSlots(g.dims, banded, n),
         (n: nat) => LayerDone(g.dims, n),
         (frames: Frames, layer: nat) => LayerContents(g, frames, layer),
         (frames: Frames) => TasksOf(g, encode, frames))
  }

  ghost predicate IsPlan(p: Plan, encode: seq<Byte> -> seq<Byte>) {
    && p.geo.Valid() && KeepsLayers(p.geo.dims, p.place) && (p.banded ==> Banded(p.geo.dims) && IsPlain(p.place))
    && p == PlanOf(p.geo, p.place, p.form, p.banded, encode)
  }

  /** Kept closed: the lemmas below are all that most proofs need. */
  ghost predicate Follows(p: Plan, encode: seq<Byte> -> seq<Byte>) {
    p.geo.Valid() && forall x {:trigger Look(x)} :: Look(x) ==> IsPlan(p, encode)
  }

  lemma PlanStarts(p: Plan, encode: seq<Byte> -> seq<Byte>)
    requires Follows(p, encode)
    ensures p.full(0) == 0 && p.bands(0) == 0 && p.extra(0) == 0 && p.done(0)
    ensures |p.contents(map[], 0)| == LayerChunks(p.geo.dims)
    ensures forall slot :: 0 <= slot < |p.contents(map[], 0)| ==> AllZero(p.contents(map[], 0)[slot])
  {
    assert Look(0);
    LayerOfFrame(p.geo.dims, 0);
    if p.banded {
      BandSizes(p.geo.dims);
    }
    forall slot: nat | slot < LayerChunks(p.geo.dims) ensures AllZero(Content(p.geo, map[], 0, slot)) {
      NextLayerEmpty(p.geo, p.place, p.form, [], 0, slot);
    }
  }

  lemma PlanCounts(p: Plan, encode: seq<Byte> -> seq<Byte>, n: nat)
    requires Follows(p, encode)
    ensures p.full(n + 1) == if p.done(n + 1) then p.full(n) + 1 else p.full(n)
    ensures p.done(n + 1) ==> p.extra(n + 1) == 0 && p.bands(n + 1) == 0
  {
    assert Look(0);
    LayerOfFrame(p.geo.dims, 0);
    RowNext(n, FramesPerLayer(p.geo.dims));
    if p.banded {
      BandSizes(p.geo.dims);
    }
  }

  /** Within a layer the slots in use move up. */
  lemma PlanLive(p: Plan, encode: seq<Byte> -> seq<Byte>, n: nat)
    requires Follows(p, encode)
    ensures !p.done(n + 1) ==> p.live(n) <= p.live(n + 1)
  {
    assert Look(0);
    if p.banded && !p.done(n + 1) {
      BandsGrow(p.geo.dims, n);
      MulMono(BandsDone(p.geo.dims, n) + 1, BandsDone(p.geo.dims, n + 1) + 1, ChunksPerBand(p.geo.dims));
    }
  }

  lemma PlanContentSize(p: Plan, encode: seq<Byte> -> seq<Byte>, frames: Frames, layer: nat, i: nat)
    requires Follows(p, encode) && i < |p.contents(frames, layer)|
    ensures |p.contents(frames, layer)[i]| == p.geo.ChunkBytes()
  {
    assert Look(0);
    assert p.contents(frames, layer)[i] == Content(p.geo, frames, layer, i);
  }

  /** Room for a band of chunks, or for a layer. */
  lemma PlanRoom(p: Plan, encode: seq<Byte> -> seq<Byte>, n: nat)
    requires Follows(p, encode)
    ensures p.banded ==> Banded(p.geo.dims)
    ensures p.live(n) - p.extra(n) == if p.banded then ChunksPerBand(p.geo.dims) else LayerChunks(p.geo.dims)
  {
    assert Look(0);
    if p.banded {
      NextMultiple(BandsDone(p.geo.dims, n), ChunksPerBand(p.geo.dims));
    }
  }

  lemma NextMultiple(n: nat, b: nat)
    ensures (n + 1) * b == n * b + b
  {
  }

  lemma BandsGrow(dims: seq<Dim>, n: nat)
    requires ValidDims(dims) && Banded(dims) && !LayerDone(dims, n + 1)
    ensures BandsDone(dims, n) <= BandsDone(dims, n + 1)
  {
    LayerOfFrame(dims, 0);
    BandSizes(dims);
    RowNext(n, FramesPerLayer(dims));
    RowNext(Col(n, FramesPerLayer(dims)), FramesPerBand(dims));
  }

  /** What has been flushed stays right. */
  lemma PlanAgrees(p: Plan, encode: seq<Byte> -> seq<Byte>, frames: Frames, n: nat, stored: seq<Byte>)
    requires Follows(p, encode)
    ensures Agree(p.geo.dims, p.task(frames), p.task(frames[p.place(n) := stored]), p.full(n), p.extra(n))
  {
    assert Look(0);
    NextFrameAgrees(p.geo, p.place, encode, frames, n, stored, p.banded);
  }

  /** When a layer is done the next one is empty. */
  lemma PlanEmpty(p: Plan, encode: seq<Byte> -> seq<Byte>, acquired: seq<seq<Byte>>)
    requires Follows(p, encode) && |acquired| > 0 && p.done(|acquired|)
    ensures var contents := p.contents(FramesOf(p.place, p.form, acquired), p.full(|acquired|));
            |contents| == LayerChunks(p.geo.dims) && forall slot :: 0 <= slot < |contents| ==> AllZero(contents[slot])
  {
    var n := |acquired|;
    PlanCounts(p, encode, n - 1);
    assert Look(0);
    forall f: nat | f < n ensures FullLayers(p.geo.dims, f) < p.full(n) {
      FullBefore(p.geo.dims, n - 1, f);
    }
    forall slot: nat | slot < LayerChunks(p.geo.dims)
      ensures AllZero(Content(p.geo, FramesOf(p.place, p.form, acquired), p.full(n), slot))
    {
      NextLayerEmpty(p.geo, p.place, p.form, acquired, p.full(n), slot);
    }
  }

  /** The plan of a new array. */
  lemma PlanFollows(g: Geo, place: Numbering, form: Form, banded: bool, encode: seq<Byte> -> seq<Byte>)
    requires g.Valid() && KeepsLayers(g.dims, place) && (banded ==> Banded(g.dims) && IsPlain(place))
    ensures Follows(PlanOf(g, place, form, banded, encode), encode)
  {
  }

  /** The append index advances exactly when the generation's last layer is complete. */
  lemma RolloverAt(n: nat, perLayer: nat, shard: nat, gen: nat, layer: nat)
    requires perLayer > 0 && layer < shard && Col(n, perLayer) == 0
    requires Row(n, perLayer) == gen * shard + layer + 1
    ensures perLayer * shard > 0
    ensures n % (perLayer * shard) == 0 <==> layer + 1 == shard
  {
    RowColDiv(n, perLayer);
    DivDiv(n, perLayer, shard);
    if layer + 1 < shard {
      DivModUnique(gen, shard, layer + 1);
      MulPos(n / perLayer % shard, perLayer);
    } else {
      assert gen * shard + shard == (gen + 1) * shard + 0;
      DivModUnique(gen + 1, shard, 0);
    }
  }

  /** The program's counters as functions of the number of frames. */
  lemma CountersAre(n: nat, perLayer: nat, shard: nat, gen: nat, layer: nat)
    requires perLayer > 0 && layer < shard && Row(n, perLayer) == gen * shard + layer
    ensures perLayer * shard > 0
    ensures layer == n / perLayer % shard && gen == n / (perLayer * shard)
  {
    RowColDiv(n, perLayer);
    DivDiv(n, perLayer, shard);
    DivModUnique(gen, shard, layer);
  }
}
