/**
 End to end: what a reader of the store finds at every coordinate after an array is closed.  Submissions (Flush), the interleavings
 that carry them out (ShardMachine), the binary shard format (ShardFormat) and the regular grid (RegularGrid), put together.
 */
module ReadBack {
  import opened Arith
  import opened Lattice
  import opened Tiling
  import opened Bytes
  import opened Grid
  import opened Dimensions
  import opened ShardTables
  import opened ShardFormat
  import opened ChunkContent
  import opened RegularGrid
  import opened Acquisition
  import opened AcquiredPixels
  import opened ArraySpec
  import opened ArrayTasks
  import opened Submission
  import opened ShardMachine
  import opened SerialRun
  import opened Flush
  import opened StreamArray
  import opened DataPaths
  import opened Wrappers
  import opened Closing

  type Codec = seq<Byte> -> seq<Byte>

  /** Shard files by generation and shard; none where no shard was ever made. */
  type Store = (nat, nat) -> Option<seq<Byte>>

  /** Some order of the threads carried out exactly these jobs, each with success, and closed the shard with success. */
  ghost predicate Ran(n: nat, jobs: Jobs, crc: Checksum, steps: seq<Step>, file: seq<Byte>) {
    && IsRun(Init(n), steps, TableOf(crc))
    && var st := Outcome(Init(n), steps, TableOf(crc));
       && st.tasks == jobs && (forall i :: i in jobs ==> At(st.runs, i, Returned(true)))
       && st.closed && st.f.finalizeOk && st.f.file == file
  }

  ghost predicate Persisted(n: nat, jobs: Jobs, crc: Checksum, file: Option<seq<Byte>>) {
    if jobs == map[] then file == None
    else file.Some? && exists steps :: Ran(n, jobs, crc, steps, file.value)
  }

  /** Jobs whose bytes fit below the largest offset have such a file. */
  lemma CanPersist(n: nat, jobs: Jobs, crc: Checksum) returns (file: Option<seq<Byte>>)
    requires (forall i :: i in jobs ==> i < n) && TotalBelow(jobs, n) < EMPTY
    ensures Persisted(n, jobs, crc, file)
  {
    if jobs == map[] {
      file := None;
    } else {
      var i :| i in jobs;
      var steps, t := AllJobs(n, jobs, TableOf(crc));
      file := Some(t.f.file);
      assert Ran(n, jobs, crc, steps, t.f.file);
    }
  }

  /** What a reader finds at index entry `i` of a shard file. */
  function EntryRead(file: Option<seq<Byte>>, n: nat, i: nat): Option<seq<Byte>> {
    if file.Some? && i < n && |file.value| >= 16 * n + 4 then ReadChunk(file.value, n, i) else None
  }

  /** It finds the chunk put there, and nothing in any other entry. */
  lemma EntryReadsBack(n: nat, jobs: Jobs, crc: Checksum, file: Option<seq<Byte>>, i: nat)
    requires Persisted(n, jobs, crc, file) && i < n
    ensures EntryRead(file, n, i) == if i in jobs && jobs[i].Put? then Some(jobs[i].data) else None
  {
    if jobs != map[] {
      var steps :| Ran(n, jobs, crc, steps, file.value);
      InitInv(n, TableOf(crc));
      RunsKeepInv(Init(n), steps, TableOf(crc));
      ShardReadsBack(n, steps, crc, i);
      var st := Outcome(Init(n), steps, TableOf(crc));
      if i in jobs {
        assert Point(st, i);
      }
    }
  }

  /** The bytes of a chunk as the reader decodes them; fill value 0 for a chunk that is not there. */
  function Decoded(read: Option<seq<Byte>>, decode: Codec, size: nat): seq<Byte> {
    match read
    case None => Zeros(size)
    case Some(z) => decode(z)
  }

  /** Reading what was flushed for a chunk gives its content back, stored or left out. */
  lemma ChunkReadsBack(g: Geo, encode: Codec, decode: Codec, frames: Frames, layer: nat, slot: nat, read: Option<seq<Byte>>)
    requires g.Valid() && (forall c :: decode(encode(c)) == c)
    requires var t := ChunkTask(g, encode, frames, layer, slot); read == if t.Put? then Some(t.data) else None
    ensures Decoded(read, decode, g.ChunkBytes()) == Content(g, frames, layer, slot)
  {
  }

  /** Nothing is read, and nothing is there, beyond the layers that have frames. */
  lemma UnusedReadsBack(g: Geo, place: Numbering, form: Form, acquired: seq<seq<Byte>>, decode: Codec, layer: nat, slot: nat)
    requires g.Valid() && KeepsLayers(g.dims, place) && slot < LayerChunks(g.dims)
    requires LayersUsed(g.dims, |acquired|) <= layer
    ensures Decoded(None, decode, g.ChunkBytes()) == Content(g, FramesOf(place, form, acquired), layer, slot)
  {
    forall f: nat | f < |acquired| ensures FullLayers(g.dims, f) < layer {
      UsedLayer(g.dims, |acquired|, f);
    }
    NextLayerEmpty(g, place, form, acquired, layer, slot);
  }

  lemma UsedLayer(dims: seq<Dim>, n: nat, f: nat)
    requires ValidDims(dims) && f < n
    ensures FullLayers(dims, f) < LayersUsed(dims, n)
  {
    LayerOfFrame(dims, 0);
    RowColDiv(f, FramesPerLayer(dims));
    CeilDivOf(f, n, FramesPerLayer(dims));
  }

  /** Where the reader looks for byte `b` of an element: generation, shard, entry, offset in the chunk. */
  datatype Address = Address(gen: nat, s: nat, i: nat, o: nat)

  function AddressOf(dims: seq<Dim>, bpp: nat, c: seq<nat>, b: nat): Address
    requires ValidDims(dims) && |c| == |dims|
  {
    var q := ChunkAt(dims, c);
    Address(Row(q[0], dims[0].shard), ShardOf(dims, InGeneration(dims, q)), InternalOf(dims, InGeneration(dims, q)),
            ByteOffset(dims, bpp, c, b))
  }

  /** The chunk's shard and entry, and the way back from them to the chunk. */
  lemma EntryOfChunkAt(dims: seq<Dim>, q: seq<nat>, gen: nat, s: nat, i: nat)
    requires ValidDims(dims) && InTail(q, ChunkCounts(dims))
    requires gen == Row(q[0], dims[0].shard)
    requires s == ShardOf(dims, InGeneration(dims, q)) && i == InternalOf(dims, InGeneration(dims, q))
    ensures s < ShardCount(dims) && i < ChunksPerShard(dims) && LiveEntry(dims, s, i)
    ensures EntryLayerOf(dims, gen, i) == q[0] && EntrySlot(dims, s, i) == SlotOf(dims, q)
    ensures SlotOf(dims, q) < LayerChunks(dims)
  {
    var q' := InGeneration(dims, q);
    RowColDiv(q[0], dims[0].shard);
    assert q'[1..] == q[1..];
    EntryOfChunk(dims, q');
    ChunkOfEntry(dims, s, i);
    EntrySlotInRange(dims, s, i);
  }

  /** Byte `o` of the chunk in entry `i`, as the reader decodes it. */
  function ReadAt(store: Store, n: nat, size: nat, decode: Codec, at: Address): Byte {
    var chunk := Decoded(EntryRead(store(at.gen, at.s), n, at.i), decode, size);
    if at.o < |chunk| then chunk[at.o] else 0
  }

  /** Byte `b` of the element at coordinate `c`, as a reader of the store finds it. */
  function ReadByte(store: Store, g: Geo, decode: Codec, c: seq<nat>, b: nat): Byte
    requires g.Valid() && |c| == |g.dims|
  {
    ReadAt(store, ChunksPerShard(g.dims), g.ChunkBytes(), decode, AddressOf(g.dims, g.bpp, c, b))
  }

  /** The job of a live entry. */
  lemma EntryJob(jobs: Jobs, dims: seq<Dim>, task: Tasks, gen: nat, s: nat, i: nat, layers: nat, layer: nat, slot: nat)
    requires ValidDims(dims) && i < ChunksPerShard(dims) && LiveEntry(dims, s, i)
    requires layer == EntryLayerOf(dims, gen, i) && slot == EntrySlot(dims, s, i)
    requires ShardIs(jobs, dims, task, gen, s, layers, 0)
    ensures i in jobs <==> layer < layers
    ensures i in jobs ==> jobs[i] == task(layer, slot)
  {
  }

  /** The entry of a chunk decodes to its content. */
  lemma EntryHoldsContent(g: Geo, place: Numbering, form: Form, acquired: seq<seq<Byte>>, encode: Codec, decode: Codec,
                          crc: Checksum, n: nat, jobs: Jobs, file: Option<seq<Byte>>, i: nat, layer: nat, slot: nat)
    requires g.Valid() && KeepsLayers(g.dims, place) && (forall c :: decode(encode(c)) == c)
    requires i < n && slot < LayerChunks(g.dims) && Persisted(n, jobs, crc, file)
    requires i in jobs <==> layer < LayersUsed(g.dims, |acquired|)
    requires i in jobs ==> jobs[i] == ChunkTask(g, encode, FramesOf(place, form, acquired), layer, slot)
    ensures Decoded(EntryRead(file, n, i), decode, g.ChunkBytes()) == Content(g, FramesOf(place, form, acquired), layer, slot)
  {
    EntryReadsBack(n, jobs, crc, file, i);
    if i in jobs {
      ChunkReadsBack(g, encode, decode, FramesOf(place, form, acquired), layer, slot, EntryRead(file, n, i));
    } else {
      UnusedReadsBack(g, place, form, acquired, decode, layer, slot);
    }
  }

  /** An element of a chunk that decodes to its content. */
  lemma ElementOfContent(g: Geo, frames: Frames, c: seq<nat>, b: nat, chunk: seq<Byte>, o: nat, q: seq<nat>)
    requires g.Valid() && InArray(g.dims, c) && b < g.bpp && o == ByteOffset(g.dims, g.bpp, c, b) && q == ChunkAt(g.dims, c)
    requires chunk == Content(g, frames, q[0], SlotOf(g.dims, q))
    ensures o < |chunk| && chunk[o] == FrameByte(frames, FrameIdAt(g.dims, c), ByteInFrame(g, c, b))
  {
    ContentIsElement(g, frames, c, b);
  }

  /**
   The end-to-end law.  If the shard files carry out what the closed array submitted, then at every
   coordinate inside the array a reader finds the byte of the frame stored there, and 0 where none was.
   */
  lemma EndToEnd(a: Array, store: Store, decode: Codec, crc: Checksum, c: seq<nat>, b: nat)
    requires a.Built() && InArray(a.geo.dims, c) && b < a.geo.bpp
    requires forall x :: decode(a.flush.encode(x)) == x
    requires a.flush.Delivered(a.plan.task(a.Frames()), LayersUsed(a.geo.dims, |a.acquired|))
    requires forall gen: nat, s: nat :: s < ShardCount(a.geo.dims) ==>
               Persisted(ChunksPerShard(a.geo.dims), a.flush.Received(gen, s), crc, store(gen, s))
    ensures ReadByte(store, a.geo, decode, c, b)
            == FrameByte(a.Frames(), FrameIdAt(a.geo.dims, c), ByteInFrame(a.geo, c, b))
  {
    var g, q, at := a.geo, ChunkAt(a.geo.dims, c), AddressOf(a.geo.dims, a.geo.bpp, c, b);
    OpenPlan(a);
    ChunkInGrid(g.dims, c);
    EntryOfChunkAt(g.dims, q, at.gen, at.s, at.i);
    var jobs, task := a.flush.Received(at.gen, at.s), a.plan.task(a.Frames());
    EntryJob(jobs, g.dims, task, at.gen, at.s, at.i, LayersUsed(g.dims, |a.acquired|), q[0], SlotOf(g.dims, q));
    EntryHoldsContent(g, a.plan.place, a.plan.form, a.acquired, a.flush.encode, decode, crc, ChunksPerShard(g.dims), jobs,
                      store(at.gen, at.s), at.i, q[0], SlotOf(g.dims, q));
    ElementOfContent(g, a.Frames(), c, b, Decoded(EntryRead(store(at.gen, at.s), ChunksPerShard(g.dims), at.i), decode,
                     g.ChunkBytes()), at.o, q);
  }

  /** A chunk as the store holds it: encoded, or not at all if it is zero throughout. */
  ghost predicate IsStored(read: Option<seq<Byte>>, content: seq<Byte>, encode: Codec) {
    read == if AllZero(content) then None else Some(encode(content))
  }

  /** What an entry holds: the encoded content of its chunk, and nothing if that is zero throughout or was never written. */
  lemma EntryStores(g: Geo, place: Numbering, form: Form, acquired: seq<seq<Byte>>, encode: Codec,
                    crc: Checksum, n: nat, jobs: Jobs, file: Option<seq<Byte>>, i: nat, layer: nat, slot: nat)
    requires g.Valid() && KeepsLayers(g.dims, place) && i < n && slot < LayerChunks(g.dims) && Persisted(n, jobs, crc, file)
    requires i in jobs <==> layer < LayersUsed(g.dims, |acquired|)
    requires i in jobs ==> jobs[i] == ChunkTask(g, encode, FramesOf(place, form, acquired), layer, slot)
    ensures IsStored(EntryRead(file, n, i), Content(g, FramesOf(place, form, acquired), layer, slot), encode)
  {
    EntryReadsBack(n, jobs, crc, file, i);
    if i !in jobs {
      UnusedReadsBack(g, place, form, acquired, c => c, layer, slot);
    }
  }

  /** The store of a closed array holds exactly the chunks with a byte other than 0, each under its entry, encoded. */
  lemma StoreHolds(a: Array, store: Store, crc: Checksum, c: seq<nat>, b: nat)
    requires a.Built() && InArray(a.geo.dims, c)
    requires a.flush.Delivered(a.plan.task(a.Frames()), LayersUsed(a.geo.dims, |a.acquired|))
    requires forall gen: nat, s: nat :: s < ShardCount(a.geo.dims) ==>
               Persisted(ChunksPerShard(a.geo.dims), a.flush.Received(gen, s), crc, store(gen, s))
    ensures var q, at := ChunkAt(a.geo.dims, c), AddressOf(a.geo.dims, a.geo.bpp, c, b);
            |q| > 0 && SlotOf(a.geo.dims, q) < LayerChunks(a.geo.dims)
            && IsStored(EntryRead(store(at.gen, at.s), ChunksPerShard(a.geo.dims), at.i),
                        Content(a.geo, a.Frames(), q[0], SlotOf(a.geo.dims, q)), a.flush.encode)
  {
    var g, q, at := a.geo, ChunkAt(a.geo.dims, c), AddressOf(a.geo.dims, a.geo.bpp, c, b);
    OpenPlan(a);
    ChunkInGrid(g.dims, c);
    EntryOfChunkAt(g.dims, q, at.gen, at.s, at.i);
    var jobs, task := a.flush.Received(at.gen, at.s), a.plan.task(a.Frames());
    EntryJob(jobs, g.dims, task, at.gen, at.s, at.i, LayersUsed(g.dims, |a.acquired|), q[0], SlotOf(g.dims, q));
    EntryStores(g, a.plan.place, a.plan.form, a.acquired, a.flush.encode, crc, ChunksPerShard(g.dims), jobs,
                store(at.gen, at.s), at.i, q[0], SlotOf(g.dims, q));
  }

  lemma OpenPlan(a: Array)
    requires a.Built()
    ensures KeepsLayers(a.geo.dims, a.plan.place)
    ensures forall layer: nat, slot: nat {:trigger a.plan.task(a.Frames())(layer, slot)} ::
              a.plan.task(a.Frames())(layer, slot) == ChunkTask(a.geo, a.flush.encode, a.Frames(), layer, slot)
  {
    assert Look(0);
  }

  /** The array has been closed, and the shard files carry out everything it submitted. */
  ghost predicate Carried(a: Array, store: Store, crc: Checksum)
    requires a.Built()
    reads a, a.flush
  {
    && a.flush.Delivered(a.plan.task(a.Frames()), LayersUsed(a.geo.dims, |a.acquired|))
    && forall gen: nat, s: nat :: s < ShardCount(a.geo.dims) ==>
         Persisted(ChunksPerShard(a.geo.dims), a.flush.Received(gen, s), crc, store(gen, s))
  }

  /** The same for the pixels as they were acquired: each is read back at its reordered coordinate, and 0 elsewhere. */
  lemma AcquiredReadsBack(a: Array, store: Store, decode: Codec, crc: Checksum, e: seq<nat>, c: seq<nat>, f: nat, b: nat)
    requires a.Built() && a.Sized(a.acquired) && b < a.geo.bpp
    requires StoredAt(a.mapping, a.geo.dims, a.plan.place, e, c, f)
    requires (forall x :: decode(a.flush.encode(x)) == x) && Carried(a, store, crc)
    ensures LastTwo(a.mapping, a.geo, e, c)
    ensures var at := AcquiredByte(a.mapping, a.geo, e, b);
            && (f < |a.acquired| ==> at < |a.acquired[f]|)
            && ReadByte(store, a.geo, decode, c, b) == if f < |a.acquired| then a.acquired[f][at] else 0
  {
    StoredAtMeans(a.mapping, a.geo, a.plan.place, e, c, f);
    EndToEnd(a, store, decode, crc, c, b);
    FrameByteOf(a, f, e, c, b);
  }

  lemma FrameByteOf(a: Array, f: nat, e: seq<nat>, c: seq<nat>, b: nat)
    requires a.Built() && a.Sized(a.acquired) && b < a.geo.bpp && LastTwo(a.mapping, a.geo, e, c)
    ensures var at := AcquiredByte(a.mapping, a.geo, e, b);
            && (f < |a.acquired| ==> at < |a.acquired[f]|)
            && FrameByte(a.Frames(), a.plan.place(f), ByteInFrame(a.geo, c, b)) == if f < |a.acquired| then a.acquired[f][at] else 0
  {
    assert Look(0);
    FramesAre(a.plan.place, a.plan.form, a.acquired, f);
    if f < |a.acquired| {
      StoredByte(a.mapping, a.geo, a.plan.form, a.acquired[f], e, c, b);
    }
  }

  // ----- By path -------------------------------------------------------------------------------------------

  /** Files by path, as the store the laws above speak of. */
  function StoreOf(files: string -> Option<seq<Byte>>, node: string, twoD: bool, dims: seq<Dim>): Store
    requires ValidDims(dims)
  {
    (gen, s) => files(ShardFile(node, twoD, dims, gen, s))
  }

  /** What a reader finds at a coordinate is in the file at the chunk's path, under its index in the shard. */
  lemma ReadsAtPath(files: string -> Option<seq<Byte>>, node: string, twoD: bool, dims: seq<Dim>, bpp: nat, c: seq<nat>, b: nat)
    requires ValidDims(dims) && InArray(dims, c)
    ensures var at, q := AddressOf(dims, bpp, c, b), ChunkAt(dims, c);
            && StoreOf(files, node, twoD, dims)(at.gen, at.s) == files(ChunkPath(node, twoD, dims, q))
            && at.i == InternalOf(dims, InGeneration(dims, q))
  {
    ChunkInGrid(dims, c);
    ChunkInFile(node, twoD, dims, ChunkAt(dims, c));
  }
}
