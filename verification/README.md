# Verification of the streaming data path

This project models in Dafny how a stream of bytes becomes a sharded Zarr v3 array, and proves properties of the
model. It follows five parts of the program.

1. **Address arithmetic.** Frame ids, chunk ids, shards and inner chunk indices are mixed-radix numbers over ragged
   chunks and shards. `MixedRadix.dfy` holds their theory: `Lattice` defines row-major rank and its inverse, `Tiling`
   splits coordinates into tile and position. `Grid` states where a chunk and a frame belong. `Dimensions`, `ArrayDimensions`, `Transposition` and
   `DataPaths` are the program's loops, proved against them. `RowMajor` and `RepeatedAxes` say what comes out.
2. **Flushing.** `Array`, `Flush`, `FrameWriter` and `Chunk` are the array writer, with its slots, bands, layers and
   rollovers. `Shard`, `ShardMachine` and `Countdown` are what the writers of one shard do under every interleaving.
   `ReadBack` joins the two: decoding the files gives back the pixels that were acquired.
3. **Pyramid.** `Pyramid` and `PyramidForms` describe every voxel of every level; `Downsampler` and `Multiscale` are
   the online computation, proved to produce exactly those voxels. `Levels` is which levels there are.
4. **File handle pool.** `HandlePool` is the cache; `HandleMachine` is every interleaving of the threads that use it,
   with the window in which a failed open has dropped the lock; `HandleRecency` is what it evicts.
5. **Stream protocol.** `Append` cuts bytes into frames and queues them, `FrameQueue` is the ring buffer, `Drain`
   interleaves producer, consumer and finaliser, `ThreadPool` and `PoolOrder` are the job queue, `Reporting` and `Verdicts`
   are what a closed stream answers after its jobs, `Memory` is the memory estimate.
   `Stream` puts the machine of `Drain` next to the queue, outputs and arrays it stands for.

Conventions. `Row(x, d)` and `Col(x, d)` are quotient and remainder, kept apart from `/` and `%` so that proofs do not
depend on nonlinear arithmetic. `Look` is a predicate that is always true; a quantified fact triggered by it stays
closed until a proof asks for it. Ghost parameters of methods carry what has been received so far; they do not change
what a method computes. A section held under a lock is one step of a machine. What happens in an interleaving is a
sequence of steps, and theorems about runs are about every such sequence.

What the results need: chunk and shard sizes of at least 1, sizes of at least 1 on every axis but the append axis,
three axes or more after the phantom axis of a two-dimensional array, and products that fit their C++ types.

Findings about the code, stated by the members named:

- A reordering of the axes can pass the checks of `compute_transposition` and still index outside its tables. The
  tables are kept to if and only if there is an axis to look up besides an unbounded append axis, and the index map
  sends every such axis to a position of the table (`Transposition.ComputeTransposition`). The index map keeps the last
  position that names an axis, and 0 for one that is not named, so an order that repeats an axis is among those that
  can fail (`Transposition.AcceptedWithoutTable`).
- When such an order gets its table, the frame ids it gives are distinct if and only if, of the axes the map sends to
  position 0, all but the last have size 1; and no frame leaves the storage array if and only if the last of them is
  no longer than the append axis (`RepeatedAxes.FramesKept`). With an unbounded append axis no order loses a frame
  (`RepeatedAxes.UnboundedKeepsFrames`). Repeating the column axis loses none (`RepeatedAxes.RepeatedColumns`), repeating
  a channel does, and can leave the array (`RepeatedAxes.RepeatedChannel`) or look a frame up past the end of the table
  (`RepeatedAxes.AcceptedPastTable`). As a statement about axes rather than ids, what is stored is a reordering of
  them if and only if the order names each once (`Transposition.MapIsValid`).
- A shard can be finalised with success while the table leads to a chunk that never landed: its job failed, and the
  closing thread wrote the table (`ShardMachine.LostChunkIsPublished`). Every entry is right whatever failed writes have
  left behind if and only if every claimed chunk has landed (`ShardMachine.EntriesRight`).
- The failure of a job of the pool is recorded and makes the stream report failure. The failure of a job run inline,
  because there is one thread or the pool refused it, is only logged: the stream can report success without the
  chunk (`Reporting.LossNotReported`). Every job of the flush at the end of a stream is run inline, since the pool has
  been stopped by then. A reported success means that every shard is complete if and only if no job run inline has
  failed (`Reporting.SuccessMeans`).
- The number of levels compares each axis with its own chunk size, the rule for halving the smaller frame axis with the
  larger chunk size. For chunks that are not square a level can therefore be made that equals the one before
  (`Levels.LevelRepeats` says when), and the last level can be larger than a chunk in both axes (`Levels.LastFrameFits`
  says when); `Levels.LevelWithoutHalving` is an input with both.
- The finaliser's wait can end while the last frame is still being written (`Drain.WaitCanEndEarly`). Arrays are still
  complete before they are finalised, because the thread is joined first (`Drain.AllWrittenBeforeFinalize`).
- The counter of outstanding writes reaches 0 exactly only because array jobs never ask the pool for a retry
  (`ThreadPools.AllJobsRun`): a retried job would count down again (`ThreadPools.RetryCountsTwice`).
- `PartialWrite` is never returned by `write_frame` (`StreamArray.Array.WriteFrame`), the size checks of `add_frame`
  never fail, no downsampled frame is dropped and the answers of the level arrays, which the caller does not look at,
  are all Ok (`Multiscale.MultiscaleWriter.WriteFrame`), the check on the countdown of a shard never fails
  (`ShardMachine.CountNeverFails`), and the second readiness checks of the ring buffer never fail (`FrameQueues.FrameQueue.Push`, `FrameQueues.FrameQueue.Pop`).

## Model

| member | source | states |
|---|---|---|
| `Grid.EntryOfChunk` | src/streaming/array.dimensions.cpp:462-548 | For every ragged grid, a chunk coordinate inside one generation has its (shard, inner index) in range, and the coordinate read from that pair is the chunk again: the placement is injective. |
| `Grid.ChunkOfEntry` | src/streaming/array.dimensions.cpp:462-548 | The other direction: the coordinate of any table entry, padding included, is placed back into that entry, so the placement is onto. |
| `Dimensions.ChunkLatticeIndices` | src/streaming/array.dimensions.cpp:462-487 | Dividing a chunk id by the strides gives the row-major chunk coordinate on every axis but the first, whose index starts at 0. |
| `Dimensions.ShardIndexForChunk` | src/streaming/array.dimensions.cpp:462-502 | The stride loops compute the shard of the chunk's grid coordinate, `Grid.ShardOf`, which is row-major over the shard grid. |
| `Dimensions.ShardInternalIndex` | src/streaming/array.dimensions.cpp:505-548 | The stride loops compute the chunk's row-major position inside its shard, `Grid.InternalOf`. |
| `Dimensions.ChunkLatticeIndex` | src/streaming/array.dimensions.cpp:233-262 | The modulus and divisor products give the chunk index, along the asked axis, of the frame's row-major coordinate; the append axis is not reduced. |
| `Dimensions.TileGroupOffset` | src/streaming/array.dimensions.cpp:265-282 | The offset is the group of the frame in `Grid.Locate` times the tiles per frame: the first slot of the chunks the frame touches. |
| `Dimensions.ChunkInternalOffset` | src/streaming/array.dimensions.cpp:285-314 | The offset is the frame's plane inside its chunk times the bytes of one tile. |
| `Grid.PlaceOfFrame` | src/streaming/array.dimensions.cpp:233-314 | Every frame id has a (layer, group, plane) with group and plane in range, and the frame at that place is the frame: frame addressing is injective. |
| `Grid.FrameOfPlace` | src/streaming/array.dimensions.cpp:233-314 | Every in-range place that lies inside the array is the place of its frame, so ragged places that hold no frame are exactly the ones outside the array. |
| `ArraySpec.BandOfFrame` | src/streaming/array.dimensions.cpp:345-373 | When banding applies, each slot a frame touches lies in the band whose number is (frame in layer) / (frames per band). |
| `Transposition.ComputeTransposition` | src/streaming/array.dimensions.cpp:11-135 | For every order, repeated axes included: it is rejected if and only if its length is wrong, it does not start with axis 0, it has an index out of range, or one of its last two axes is not spatial; there is no table if and only if it is empty or the identity; every order that keeps the frame axes before rows and columns, in either order, gets its table. Otherwise the tables are filled if and only if there is an axis to put in them and each is sent to a position of theirs; and what is stored is a valid map if and only if the order names each axis once. |
| `Transposition.RowsAndColumns` | src/streaming/array.dimensions.cpp:38-135 | A concrete order that exchanges rows and columns of four axes passes every check and has its table targets. |
| `Transposition.MapIsValid` | src/streaming/array.dimensions.cpp:38-135 | As a map of axes: what is stored has index maps that are inverse and entries that permute coordinates if and only if the order names each axis once; the next rows say when its ids are distinct and in range. |
| `RepeatedAxes.FramesKept` | src/streaming/array.dimensions.cpp:42-131 | For every order that gives a table: no two frames get the same id if and only if, of the axes sent to position 0, all but the last have size 1; and no id lies outside the storage array if and only if the last of them is no longer than the append axis. |
| `RepeatedAxes.UnboundedKeepsFrames` | src/streaming/array.dimensions.cpp:42-131 | With an unbounded append axis, whatever the order, two frames never get the same id and each keeps its append index. |
| `RepeatedAxes.OneWriter` | src/streaming/array.dimensions.cpp:42-54 | A position after the first that an axis is sent to is one that names it, so no other axis is sent there. |
| `RepeatedAxes.RepeatedColumns` | src/streaming/array.dimensions.cpp:42-131 | A concrete order that repeats an axis, is accepted, fills its table and loses no frame. |
| `RepeatedAxes.RepeatedChannel` | src/streaming/array.dimensions.cpp:42-131 | Orders that lose frames, for each size of the axis not named, and exactly when frames leave the array. |
| `RepeatedAxes.AcceptedPastTable` | src/streaming/array.dimensions.cpp:198-206 | A concrete order for which the limit, which is the storage array's, lets more frames in than the table has. |
| `Transposition.TargetsKeepFrameAxes` | src/streaming/array.dimensions.cpp:107-131 | For such an order, every axis has its position in the table if and only if the last two axes stay last. |
| `Transposition.RepeatedAxisLosesFrames` | src/streaming/array.dimensions.cpp:42-131 | A concrete order that repeats an axis, passes every check and fills its table: two frames get the same storage id. |
| `Transposition.AcceptedWithoutTable` | src/streaming/array.dimensions.cpp:42-124 | Three concrete orders pass every check and leave the tables' range: an unbounded append axis alone, a frame axis exchanged with `z`, and a repeated axis. |
| `Transposition.StrideLoopInRange` | src/streaming/array.dimensions.cpp:74-97 | In 64-bit arithmetic the first index of the stride loop is inside the stride table if and only if some lookup axis exists. |
| `Transposition.Reorder` | src/streaming/array.dimensions.cpp:38-54 | Succeeds if and only if every requested index names an axis; each axis is mapped to the last position that names it, or 0; the two index maps are inverse if and only if no axis is named twice. |
| `Transposition.LookupEntry` | src/streaming/array.dimensions.cpp:107-131 | Splitting an id by acquisition strides, writing the coordinates to their targets over what the previous id left, and joining them by storage strides gives the table's entry, whatever the targets are. |
| `Transposition.EntryRenumbers` | src/streaming/array.dimensions.cpp:107-131 | With targets that invert an order of the axes, that entry is the id renumbered along the permuted axes. |
| `Transposition.TransposeIsToStorage` | src/streaming/array.dimensions.cpp:603-620 | Looking an id up, with the unbounded append axis kept apart, permutes its mixed-radix coordinates, for every frame the array has room for. |
| `Transposition.ToStorageKeepsLayer` | src/streaming/array.dimensions.cpp:603-620 | Transposition keeps the append index and the chunk layer of every frame. |
| `Permutation.RenumberInverse` | src/streaming/array.dimensions.cpp:601-620 | Renumbering by a permutation that fixes the append axis and then by its inverse is the identity on frame ids. |
| `Permutation.RenumberSplits` | src/streaming/array.dimensions.cpp:601-620 | Renumbering acts on the inner id alone and leaves the append index, which is what justifies a table of the inner frames only. |
| `Acquisition.StorageIdInjective` | src/streaming/array.dimensions.cpp:601-620 | Two acquisition frames never share a storage frame id. |
| `Acquisition.StorageIdLayer` | src/streaming/array.dimensions.cpp:601-620 | The storage frame of an acquired frame is in the same layer, so counting frames in acquisition order completes exactly the storage layers. |
| `Acquisition.LookupInRange` | src/streaming/array.dimensions.cpp:603-620 | A frame that passes the size limit is always found in the table, and what is found is its storage id. |
| `Acquisition.MaxBytesInFrames` | src/streaming/array.dimensions.cpp:198-206 | The byte limit is the number of frames of the array times the bytes of a frame, and is 0 exactly for an unbounded append axis. |
| `Acquisition.XySwapTwice` | src/streaming/array.cpp:489-505 | Exchanging rows and columns of a frame, pixel by pixel, and exchanging them back is the identity. |
| `Acquisition.TransposeFrame` | src/streaming/array.cpp:489-505 | The nested copy loops fill every byte of the result with the byte of the mirrored pixel. |
| `ShardTables.ChunkFillsEntry` | src/streaming/array.dimensions.cpp:406-422 | Every chunk listed for a shard and layer has an inner index of that layer, inside the table, with the chunk's coordinate. |
| `ShardTables.EntryFilledByChunk` | src/streaming/array.dimensions.cpp:406-422 | Every entry of the layer that lies inside the array is filled by exactly one listed chunk. |
| `ShardTables.TableCoversChunks` | src/streaming/array.dimensions.cpp:168-188 | The tables built by the constructor have an entry for every live chunk id of a generation. |
| `ShardTables.FullLayerHasNoPadding` | src/streaming/array.dimensions.cpp:425-453 | The early return is right: as many listed chunks as entries means no entry of the layer is padding. |
| `ArrayGeometry.Tables` | src/streaming/array.dimensions.cpp:168-188 | The constructor's loop maps every id to its grid shard and inner index, and lists for each shard exactly its ids, each once. |
| `ArrayGeometry.ArrayDimensions.constructor` | src/streaming/array.dimensions.cpp:137-190 | The object holds counts and tables that agree with the grid. |
| `ArrayGeometry.ArrayDimensions.ChunkIndicesForShardLayer` | src/streaming/array.dimensions.cpp:406-422 | Returns, without repetition, exactly the live chunk ids of the shard in that layer; phantom ids are filtered out. |
| `ArrayGeometry.ArrayDimensions.SkippedInternalIndicesForShardLayer` | src/streaming/array.dimensions.cpp:425-453 | Returns, without repetition, exactly the inner indices of the layer that no chunk of the array fills; with the previous row, both lists together are the layer's range. |
| `RowMajor.NextInShard` | src/streaming/array.dimensions.cpp:505-548 | The next chunk along an axis, in the same shard, is as many table entries on as the axes after it have in a shard: the order inside a shard is row-major, as the codec asks. |
| `RowMajor.NextShard` | src/streaming/array.dimensions.cpp:462-502 | One shard on along an axis is the same entry, as many shards on as the axes after it have in the array. |
| `ShardFormat.TableRoundTrip` | src/streaming/shard.cpp:146-165 | A file that ends with the encoded table reads back, at every entry, the offset and size that were encoded, as in section "Binary shard format" of the Zarr v3 `sharding_indexed` codec. |
| `ShardFormat.TableIsIndex` | src/streaming/shard.cpp:146-165 | Byte by byte: offsets and sizes in 8 bytes each, least significant first, and in the last 4 bytes the checksum of all of them. |
| `Shard.LandedTable` | src/streaming/shard.cpp:146-165 | What a landed write of the table leaves in the file from its offset on is that index, and nothing follows it if nothing was there. |
| `Shard.Shard.WriteTable` | src/streaming/shard.cpp:146-165 | The loop over the table buffer writes the encoded offset and size pairs and the checksum after the last claimed extent. |
| `Shard.Shard.WriteChunk` | src/streaming/shard.cpp:54-108 | Whole effect on the shard: an index out of bounds, a retry with other data and a countdown already at 0 throw; otherwise an extent is claimed once and reused by a retry, a lost write counts nothing, the last writer publishes the table. |
| `Shard.Shard.SkipChunk` | src/streaming/shard.cpp:111-133 | Whole effect on the shard: the entry keeps the empty pair, the countdown goes on or, at 0, throws, and the last one publishes. |
| `Shard.Shard.FinalizeUnlocked` | src/streaming/shard.cpp:175-196 | Whole effect: the table is written at most once successfully, and the answer is whether table and flush both succeeded. |
| `ShardMachine.StepControl` | src/streaming/shard.cpp:54-133 | Every step of every writer keeps the claimed extents disjoint, tiling the file up to the offset, the countdown equal to the jobs not counted, and finalisation after the last count. |
| `ShardMachine.StepData` | src/streaming/shard.cpp:54-165 | Every step keeps, for all chunks that have landed, their bytes in their own extents, whatever a failed write leaves behind; and a flushed table after all of them. |
| `ShardMachine.RunsKeepInv` | src/streaming/shard.cpp:54-196 | Both hold after every interleaving of writers, retries and a closing thread. |
| `ShardMachine.FinalizedOnce` | src/streaming/shard.cpp:168-196 | After finalisation no step changes the shard. |
| `ShardMachine.NoWriteAfterFinalize` | src/streaming/shard.cpp:54-108 | While a writer is between sizing and counting its chunk the table is not out, and the last writer finds every entry counted. |
| `ShardMachine.FileReadsBack` | src/streaming/shard.cpp:146-165 | When the table is out, each landed chunk is read back from the file through its entry, any claimed one reads as what its own extent holds, and an unclaimed entry reads as empty. |
| `ShardMachine.ShardReadsBack` | src/streaming/shard.cpp:54-196 | After any run that finalised well, reading through the table gives each counted chunk's bytes, for a chunk claimed and never counted what its extent holds, and nothing for the entries that were skipped or never claimed. |
| `ShardMachine.ChecksumReadsBack` | src/streaming/shard.cpp:146-196 | After any run that finalised well, the checksum a reader computes over the index at the end of the file is the one stored there. |
| `ShardMachine.RunsKeepSink` | src/streaming/shard.cpp:168-196 | In every reachable state: the sink is open until finalisation, and that went well if and only if the table is out and the flush has closed the sink. |
| `ShardMachine.EntriesRight` | src/streaming/shard.cpp:54-196 | After any run that finalised well, each entry is empty or leads to exactly its chunk's bytes, whatever failed writes have left behind, if and only if every claimed chunk has landed or is empty. |
| `ShardMachine.LostChunkIsPublished` | src/streaming/shard.cpp:92-196 | A run in which the only write is lost and the shard is finalised with success: the table leads to a byte that is not the chunk's. |
| `ShardMachine.CountNeverFails` | src/streaming/shard.cpp:96-123 | In every reachable state a job about to count down finds the countdown above 0. |
| `ShardMachine.AllJobsSucceeded` | src/streaming/shard.cpp:96-129 | If every entry's job returned success, the shard is finalised, its table is flushed and the countdown is 0. |
| `Reporting.EventGood` | src/streaming/array.cpp:625-760 | Every event, of dispatchers, pool, writers of all shards of all generations, rollover and close, keeps: a job is in the record of failures exactly if it gave up or its writer returned failure, and the error is set for each failed job of the pool. |
| `Reporting.SuccessMeans` | src/streaming/zarr.stream.cpp:1774-1811 | After any history that ends in a reported success, every shard has its table and every chunk it was given, if and only if no job that was run inline has ended in failure. |
| `Verdicts.ReportMeans` | src/streaming/zarr.stream.cpp:1774-1811 | After any history that ends in a report: it is success if and only if no job of the pool has failed and every shard not left behind by a rollover was finalised well. So a failure has one of these causes. |
| `Verdicts.RolloverReported` | src/streaming/array.cpp:924-951 | A history with a rollover that ends in a reported success. |
| `Verdicts.GivingUpReported` | src/streaming/zarr.stream.cpp:1774-1790 | A history in which a job of the pool cannot encode its chunk, and failure is reported. |
| `Verdicts.FlushFailureReported` | src/streaming/zarr.stream.cpp:1791-1811 | A history without a failed job in which the flush fails when the array closes, and failure is reported. |
| `Reporting.LossNotReported` | src/streaming/array.cpp:748-759 | A history in which the pool has stopped, a job is refused and run inline, its three writes are lost, and success is reported. |
| `Reporting.FailureShows` | src/streaming/array.cpp:665-760 | A failed job always leaves its shard without its chunk or without its table. |
| `Reporting.CompleteReadsBack` | src/streaming/shard.cpp:54-196 | A complete shard reads back, at each entry, what its job was given. |
| `Countdown.JobsAreUnique` | src/streaming/array.cpp:763-871 | What a shard has received after given layers and slots is one map: two strategies that keep the invariant have submitted the same contents and skips. |
| `Countdown.ShardsAreUnique` | src/streaming/array.cpp:763-871 | The same for all shards of a generation: band flushing and layer flushing submit the same jobs. |
| `Countdown.NeverEarly` | src/streaming/shard.cpp:96-129 | At any moment, with any number of slots of the open layer flushed, the countdown of a shard is 0 only if each of its entries has been submitted; so it is above 0 while a layer is still to come, in every interleaving. |
| `Countdown.ReachesZero` | src/streaming/shard.cpp:96-129 | Once all layers of the generation are submitted and the jobs have succeeded, the countdown is 0, the shard is finalised and every slot was counted. |
| `Chunk.Chunk.WriteTileRows` | src/streaming/chunk.cpp:18-58 | Copies exactly the covered bytes and leaves the others; the flag becomes true if and only if it was or a copied byte is not 0. |
| `ChunkContent.TileWritten` | src/streaming/array.cpp:549-621 | Copying a frame's tile into the content of its slot gives the content for the frames with that one, in every byte of the chunk. |
| `ChunkContent.OtherContent` | src/streaming/array.cpp:549-621 | A frame changes no slot outside its own layer and group. |
| `ChunkContent.FlagStaysExact` | src/streaming/chunk.cpp:29-70 | For a frame not seen before, the flag says after the copy exactly whether the slot holds a byte other than 0, so eliding a chunk loses nothing. |
| `FrameWriter.CopyInRange` | src/streaming/chunk.cpp:18-58 | Every row copy of every tile stays inside the chunk buffer and inside the frame. |
| `FrameWriter.WriteTiles` | src/streaming/array.cpp:549-621 | After the tile loops all slots of the layer hold the content for the frames with the new one, later slots are as they were, and as many bytes were copied as the frame has. |
| `TileBytes.TilesAreFrame` | src/streaming/array.cpp:549-621 | Ragged tiles partition the frame: their clipped sizes add up to the frame size. |
| `Flush.FlushState.MakeShards` | src/streaming/array.cpp:433-461 | Shards are made once per generation, one per path, and then hold what the generation has received so far. |
| `Flush.FlushState.DispatchChunkJob` | src/streaming/array.cpp:665-760 | Takes the chunk out of its slot and hands exactly its content, or a skip when it has none, to the entry of the shard. |
| `Flush.FlushState.CompressAndFlushBand` | src/streaming/array.cpp:814-860 | Submits the slots of one band, each once, to the entry its id belongs to; the last band also submits the padding of the layer. |
| `Flush.FlushState.FlushLayerRemainder` | src/streaming/array.cpp:863-871 | From any number of flushed bands, the rest of the layer is submitted and every slot is empty. |
| `Flush.FlushState.CompressAndFlushData` | src/streaming/array.cpp:763-811 | Submits the layer as a whole, padding first and chunks by shard; the shards end with the same jobs as after all the bands. |
| `Flush.FlushState.AllDelivered` | src/streaming/array.cpp:954-964 | Closed generations and the open one together have received every entry of every used layer, once. |
| `Submission.SlotSubmitted` | src/streaming/array.cpp:829-845 | Submitting one slot turns "everything before it" into "everything up to it" for all shards, and fills an entry that was empty. |
| `Submission.PaddingCompletes` | src/streaming/array.cpp:846-857 | All slots and all skipped indices of a layer together complete the layer in each shard. |
| `Submission.LayerCompletes` | src/streaming/array.cpp:778-802 | The layer strategy, padding first and then the listed chunks, completes the layer in each shard with the same jobs. |
| `ArrayTasks.GroupInBand` | src/streaming/array.cpp:874-908 | Each slot of the next frame lies in the first band not flushed. |
| `ArrayTasks.NextFrameElsewhere` | src/streaming/array.cpp:874-936 | The next frame changes no slot that has been flushed, in bands or in layers, so no slot is flushed before its last frame. |
| `ArrayTasks.RolloverAt` | src/streaming/array.cpp:924-936 | The frame count is a multiple of a whole generation exactly when the completed layer is the last of it. |
| `StreamArray.Array.constructor` | src/streaming/array.cpp:87-136 | A new array holds no frames, satisfies the invariant, and bands exactly when the axes allow it and no axes are reordered. |
| `StreamArray.Array.WriteFrame` | src/streaming/array.cpp:154-223 | Size, limit and order errors in the program's order, which change nothing; otherwise the frame is accepted whole. The invariant ties slots, shards, counters and all closed generations to the frames accepted. |
| `StreamArray.Array.WriteFrameToChunks` | src/streaming/array.cpp:508-622 | The frame goes to its storage place: afterwards every slot from the first unflushed one on holds the content for the frames with it. |
| `StreamArray.Array.FlushCompletedLayer` | src/streaming/array.cpp:911-951 | Nothing changes until the layer is complete; then it is submitted, the slots are empty and the counters stand at the next layer. |
| `StreamArray.Array.FlushCompletedBands` | src/streaming/array.cpp:874-908 | The bands completed by the frame count, and only these, are flushed; a completed layer leaves the same state as the layer strategy. |
| `StreamArray.Array.Counters` | src/streaming/array.cpp:874-951 | In every valid state `current_layer_`, `append_chunk_index_`, `flushed_band_count_`, `total_bytes_written_` and whether bytes await flushing are fixed functions of the frame count. |
| `StreamArray.Array.Close` | src/streaming/array.cpp:375-424 | At every point of the stream, closing leaves each shard of each generation with exactly the jobs of the frames accepted. |
| `StreamArray.Array.MemoryUsage` | src/streaming/array.cpp:139-151 | At any moment, the bytes of exactly the chunks the slots hold. |
| `StreamArray.Array.UsageBound` | src/streaming/array.cpp:139-151 | In every valid state that is a chunk's bytes for each slot that holds one, and no more than the chunks of one band take when banding applies and of one layer otherwise. |
| `Building.Arrange` | src/streaming/array.dimensions.cpp:137-166 | For every order: storage axes and a mapping come out if and only if the last axes are spatial and the order is one of those with a table; the mapping is valid if and only if the order names no axis twice. |
| `Building.BuildArray` | src/streaming/array.cpp:87-136 | From the axes asked for, with the phantom axis of a two-dimensional array: whether the program makes an array, and, if the order names no axis twice, an empty one in a valid state. |
| `Building.TwoAxes` | src/streaming/array.dimensions.cpp:148-153 | With its phantom axis a two-dimensional array has room for exactly one frame. |
| `RegularGrid.ContentIsElement` | src/streaming/array.dimensions.cpp:233-314 | The byte at an element's row-major offset in its row-major chunk, as in section "Regular grids" of the Zarr core specification v3, is the byte of that element in the frame with its coordinates, or 0. |
| `AcquiredPixels.StorageFrameOf` | src/streaming/array.dimensions.cpp:601-620 | The storage frame at an acquisition coordinate moved to storage order is the transposed id of the acquisition frame. |
| `AcquiredPixels.StoredByte` | src/streaming/array.cpp:489-534 | A pixel of the frame as stored is the pixel of the frame as acquired, rows and columns exchanged when the order exchanges them. |
| `ReadBack.CanPersist` | src/streaming/shard.cpp:54-196 | For all jobs of a shard whose bytes fit below the largest offset there is a run in which each succeeds, and so the file that the next rows speak of. |
| `ReadBack.EntryReadsBack` | src/streaming/shard.cpp:54-196 | A shard file left by any interleaving of its jobs gives, through the table, the bytes of each put and nothing for each skip. |
| `ReadBack.EndToEnd` | src/streaming/array.cpp:154-424 | At every storage coordinate, decoding the shard file that holds it gives the byte of the frame stored there, and 0 where no frame was written, elided chunks included. |
| `ReadBack.AcquiredReadsBack` | src/streaming/array.cpp:154-534 | At every acquisition coordinate, what is read back is the byte of the acquired frame, through frame transposition and the exchange of rows and columns, and 0 for frames never written. |
| `ReadBack.ReadsAtPath` | src/streaming/array.cpp:433-461 | For files kept by path, what is read at a coordinate is in the file at its chunk's path, which starts with the append index, under its inner index. |
| `ReadBack.StoreHolds` | src/streaming/array.cpp:665-760 | After closing, the entry of every chunk holds its encoded content if a byte of it is not 0, and is empty otherwise: no chunk is left out that has data, and none is stored that has not. |
| `Metadata.AppendSize` | src/streaming/array.cpp:243-250 | Dividing axis by axis, rounding up each time, gives the frame count divided once by the product of the intermediate sizes, rounded up. |
| `Metadata.ShapeIsTight` | src/streaming/array.cpp:243-250 | Every written frame lies inside the shape, and the last one reaches its last index. |
| `PyramidLevels.PassedStep` | src/streaming/downsampler.cpp:307-401 | For every level and count, the frame passed on and the one or two it is made of are those of the closed form, whatever odd stack sizes come before. |
| `PyramidLevels.StacksAligned` | src/streaming/downsampler.cpp:307-401 | After whole base stacks, level L has passed on exactly that many stacks of its own planes and no frame waits at any level: no average mixes two stacks. |
| `PyramidForms.ProjectIsShift` | src/streaming/downsampler.cpp:9-37 | Following the pairs up the levels divides row, column and plane of a voxel by 2 to the number of halvings of its axis, within its stack. |
| `PyramidForms.BoxBound` | src/streaming/downsampler.cpp:53-138 | Under Min and Max, signed or not, a level voxel is a bound for every base voxel that projects to it. |
| `PyramidForms.BoxAttained` | src/streaming/downsampler.cpp:53-138 | And one of these base voxels attains it, so it is the minimum or maximum of the box, clipped to the array. |
| `PyramidForms.DecimateKeeps` | src/streaming/downsampler.cpp:41-45 | Under Decimate, a level voxel is the base voxel at its origin. |
| `PyramidForms.OriginInFrame` | src/streaming/downsampler.cpp:141-206 | The origin's row and column are the voxel's times 2 to the number of halvings. |
| `PyramidForms.OriginInStack` | src/streaming/downsampler.cpp:307-401 | The origin's plane is the voxel's times 2 to the number of halvings, in the same stack. |
| `PyramidForms.MeanDrift` | src/streaming/downsampler.cpp:46-112 | Under Mean, for unsigned data, a level-L voxel never exceeds the exact recursive average and is below it by at most 5L/4. |
| `PyramidLevels.DivideTruncates` | src/streaming/downsampler.cpp:46-112 | Averages of signed data are rounded towards 0. |
| `Downsampling.ScaleImage` | src/streaming/downsampler.cpp:141-206 | The loops give an image of half the size, rounded up, whose pixels are the kernel of the four below, edges repeated for odd sizes. |
| `Downsampling.AverageTwoFrames` | src/streaming/downsampler.cpp:210-246 | Frames of one size are averaged pixel by pixel, in place of the older. |
| `Downsampling.Downsampler.PassFrame` | src/streaming/downsampler.cpp:307-401 | One level of the loop: the frame is averaged with the waiting one, held, or passed on as the closed form says, and what is passed on shows the voxels of that level. |
| `Downsampling.Downsampler.AddFrame` | src/streaming/downsampler.cpp:307-401 | After a base frame, each level that has a new frame holds exactly the one the closed form asks for, and waiting frames and counts are those of one more frame. |
| `Levels.MakeLevels` | src/streaming/downsampler.cpp:494-597 | In terms of sizes and chunks: no more levels than asked for; without a limit the least number after which halving brings planes to their chunk, if spatial, and rows or columns to theirs; then the rule has nothing left to halve at the last level. Every step is one the pyramid allows, and no level is empty. |
| `Levels.LevelCountIs` | src/streaming/downsampler.cpp:510-541 | The number of levels is at most k if and only if k reaches the limit, or k halvings bring planes, if spatial, and rows or columns to one chunk. |
| `Levels.PlanesAt` | src/streaming/downsampler.cpp:543-561 | Closed form of the planes of a level: the base's over 2 to the number of halvings, rounded up, where halving stops at the chunk size. |
| `Levels.FrameAt` | src/streaming/downsampler.cpp:563-575 | The same for rows and columns, which stop together when the smaller frame axis has come to the larger chunk axis. |
| `Levels.LastFrameFits` | src/streaming/downsampler.cpp:510-575 | Without a limit, rows or columns of the last level fit their chunk if and only if as many halvings as bring the smaller frame axis to the larger chunk axis bring one of them to its own; always for square chunks. |
| `Levels.LevelRepeats` | src/streaming/downsampler.cpp:543-575 | A level equals the one before it if and only if neither planes nor rows and columns are left to halve there. |
| `Levels.LevelWithoutHalving` | src/streaming/downsampler.cpp:510-575 | Concrete sizes for which a second level is made that equals the first, with rows and columns both larger than their chunks. |
| `Levels.DivisionsSuffice` | src/streaming/downsampler.cpp:510-541 | Halving an axis as often as its division count says leaves one chunk at most. |
| `Levels.LastLevelStays` | src/streaming/downsampler.cpp:510-585 | The number of levels is enough: with no other limit asked for, the rule would leave the last level as it is. |
| `Multiscale.LevelFits` | src/streaming/multiscale.array.cpp:292-325 | Base frames within the base array's size give, at every level, frames within that level's size. |
| `Multiscale.ArrayPixelsAre` | src/streaming/multiscale.array.cpp:292-325 | The size of a level's array is the product of stacks, planes, rows and columns. |
| `Multiscale.MultiscaleWriter.WriteMultiscaleFrames` | src/streaming/multiscale.array.cpp:292-325 | Every level's array, with the size, bound and order checks of write_frame, accepts every downsampled frame, none dropped, and holds frame by frame the voxels of its level. |
| `Multiscale.MultiscaleWriter.WriteFrame` | src/streaming/multiscale.array.cpp:57-74 | The answer is the base array's; a frame it refuses changes nothing, and with one it accepts all levels stay in step. |
| `HandlePool.ReturnSound` | src/streaming/file.handle.cpp:147-166 | Returning a handle keeps the cache sound, and leaves room or only borrowed entries. |
| `HandlePool.CloseSound` | src/streaming/file.handle.cpp:169-186 | Closing keeps the list a listing of the keys, the size within bounds and the flag equal to "there is room". |
| `HandlePool.CloseRemoves` | src/streaming/file.handle.cpp:169-186 | A close takes an idle entry out, leaves a borrowed one and touches no other. |
| `HandlePool.FileHandlePool.Serve` | src/streaming/file.handle.cpp:58-144 | Whole effect of a request that can be served: a cached handle is borrowed once more, a new one is inserted with one borrow. |
| `HandlePool.FileHandlePool.ReturnHandle` | src/streaming/file.handle.cpp:147-166 | Whole effect of a return: the count goes down and, if there is no room, one entry is evicted as in the next row. |
| `HandlePool.FileHandlePool.EvictLruHandle` | src/streaming/file.handle.cpp:189-201 | The loop from the old end evicts the least recently used idle entry, and nothing if all are borrowed. |
| `HandlePool.FileHandlePool.CloseHandle` | src/streaming/file.handle.cpp:169-186 | Whole effect of a close: an idle entry is dropped, a borrowed one stays. |
| `HandleMachine.StepInv` | src/streaming/file.handle.cpp:58-201 | Every step keeps: the list is a duplicate-free listing of the keys, counts equal outstanding borrows, size is within bounds, the flag says whether there is room, a full cache is borrowed somewhere, sleepers are blocked for a reason. |
| `HandleMachine.RunsKeepInv` | src/streaming/file.handle.cpp:58-201 | This holds after every interleaving, with opens that fail and drop the lock. |
| `HandleMachine.BorrowedStays` | src/streaming/file.handle.cpp:147-201 | No step evicts or closes a handle a thread holds after it. |
| `HandleMachine.BorrowEnds` | src/streaming/file.handle.cpp:147-166 | A borrow ends only by its own return. |
| `HandleMachine.SleeperHasBorrow` | src/streaming/file.handle.cpp:64-66 | While a thread sleeps some other thread holds a handle, and its return wakes everyone. |
| `HandleMachine.ReturnMakesRoom` | src/streaming/file.handle.cpp:147-166 | After every return there is room or every entry is borrowed. |
| `HandleMachine.ThirdFailureGivesUp` | src/streaming/file.handle.cpp:72-107 | A file that cannot be opened is tried three times; then the request ends without a handle and the pool is as it was. |
| `HandleMachine.NobodyStuck` | src/streaming/file.handle.cpp:58-201 | Every thread always has a step, and a file can be closed at any time. |
| `HandleRecency.RunsKeepRecent` | src/streaming/file.handle.cpp:58-201 | In every reachable state the list is in the order in which its names were last found by a first look or put in, latest first. |
| `HandleRecency.EvictsOldest` | src/streaming/file.handle.cpp:147-201 | In every reachable state a return evicts a name if and only if the cache was full, nobody else holds it, and of the names nobody else holds it was used longest ago. |
| `FrameQueues.FrameQueue.constructor` | src/streaming/frame.queue.cpp:7-19 | An empty bounded queue for the frames asked for. |
| `FrameQueues.FrameQueue.Push` | src/streaming/frame.queue.cpp:22-46 | Succeeds if and only if the queue is not full; then the queue is the old one followed by the item. |
| `FrameQueues.FrameQueue.Pop` | src/streaming/frame.queue.cpp:49-73 | Succeeds if and only if the queue is not empty; then the old queue is the item followed by the new one. |
| `FrameQueues.FrameQueue.Size` | src/streaming/frame.queue.cpp:76-86 | The number of items, across the wrap of the positions. |
| `FrameQueues.FrameQueue.BytesUsed` | src/streaming/frame.queue.cpp:89-107 | The bytes of exactly the items in the queue. |
| `FrameQueues.TotalIs` | src/streaming/frame.queue.cpp:89-107 | The sum is the length of the queued frames, one after the other. |
| `FrameQueues.FrameQueue.Full` | src/streaming/frame.queue.cpp:110-118 | Whether the queue holds as many items as it was made for. |
| `FrameQueues.FrameQueue.Empty` | src/streaming/frame.queue.cpp:121-129 | Whether the queue holds no item. |
| `FrameQueues.FrameQueue.Clear` | src/streaming/frame.queue.cpp:132-137 | The queue is empty afterwards and still sound, though the slots keep their flags. |
| `Appending.CutIsAll` | src/streaming/zarr.stream.cpp:941-1010 | The frames cut from a byte string and the rest are the byte string, and each frame has the frame size. |
| `Appending.CutMore` | src/streaming/zarr.stream.cpp:941-1010 | Bytes added to a rest either stay in it or complete exactly one frame. |
| `Appending.Output.Append` | src/streaming/zarr.stream.cpp:890-1016 | An empty input does nothing, an over-long one changes nothing, any other is consumed whole while the consumer takes any number of frames; what enters the queue are the frames cut from all bytes accepted, under the array's key, with ids 0, 1, 2 and so on, and the rest is held. |
| `Appending.Output.Enqueue` | src/streaming/zarr.stream.cpp:960-1004 | However often the queue is full, the frame enters it once, as the next of its array. |
| `Appending.QueuedFrames` | src/streaming/zarr.stream.cpp:920-1016 | Every frame ever queued for an array has its key, its frame size and its place as id, and ends within the array's size. |
| `Appending.SplitInvariant` | src/streaming/zarr.stream.cpp:941-1010 | Two streams that accepted the same bytes, however split into calls, have queued the same frames and hold the same part of the next. |
| `Answers.AcceptedInOrder` | src/streaming/array.cpp:161-189 | write_frame answers Ok if and only if the frame has the frame size, is the next of its array and ends within its size. |
| `Answers.RefusedInOrder` | src/streaming/array.cpp:161-189 | Which error a refused frame gets: size before bound before order; a partial write is never answered. |
| `Drain.AppendOffers` | src/streaming/zarr.stream.cpp:920-1016 | What append queues is what the machine lets its producer push: whole frames within the array's size, in order. |
| `Drain.StepInv` | src/streaming/zarr.stream.cpp:1641-1811 | Every step of producer, consumer and finaliser keeps: written, in hand and queued are together what was pushed, in id order for each key, no array has refused a frame for size, bound or order, and nothing is finalised before all is written. |
| `Drain.RunsKeepInv` | src/streaming/zarr.stream.cpp:1641-1811 | This holds after every interleaving. |
| `Drain.AllWrittenBeforeFinalize` | src/streaming/zarr.stream.cpp:1774-1811 | In every run, no array ever refuses a frame, and once any array is finalised every frame pushed for every key has been written, once and in id order. |
| `Streams.WriteStep` | src/streaming/zarr.stream.cpp:1676-1712 | In every reachable state the array itself, holding the frames written to it, answers Ok to the frame in hand, and then holds the frames of the next state. |
| `Streams.PushStep` | src/streaming/zarr.stream.cpp:960-1004 | The push step, taken on the ring buffer, gives the queue of the next state. |
| `Streams.PopStep` | src/streaming/zarr.stream.cpp:1672-1675 | The pop step, taken on the ring buffer, gives the queue of the next state and the frame it has in hand. |
| `Drain.WaitCanEndEarly` | src/streaming/zarr.stream.cpp:1748-1771 | A run in which the finaliser's wait has ended while the only frame is still being written. |
| `Drain.WakeUpPending` | src/streaming/zarr.stream.cpp:960-1004 | While the producer sleeps the consumer is not leaving, each of its steps comes nearer to a notification, and that notification wakes the producer. |
| `Drain.ConsumerNeverStuck` | src/streaming/zarr.stream.cpp:1641-1745 | Until it is done, the consumer always has a step. |
| `Drain.DrainEnds` | src/streaming/zarr.stream.cpp:1641-1771 | Once the stream is stopped each consumer step lowers a measure and no other step raises it, so joining the consumer ends. |
| `Drain.OthersNeverStuck` | src/streaming/zarr.stream.cpp:960-1004 | A frame can be pushed if and only if there is room, and the producer sleeps only if there is none; the finaliser always has its next step. |
| `ThreadPools.StepInv` | src/streaming/thread.pool.cpp:35-177 | Every step keeps each accepted job in exactly one place with its attempts counted, the count of outstanding writes equal to the jobs not finished while none asks for a retry, and no thread leaves while a job can still come. |
| `ThreadPools.RunsKeepInv` | src/streaming/thread.pool.cpp:35-177 | This holds after every interleaving. |
| `ThreadPools.AllJobsRun` | src/streaming/thread.pool.cpp:88-177 | When all threads have ended, every accepted job was started between once and `max_retries + 1` times, fatal jobs or not; without retries the count of outstanding writes is the number of jobs still run inline, so each job has counted once up and once down, in the pool or inline. |
| `ThreadPools.RetryCountsTwice` | src/streaming/array.cpp:743-745 | A run in which a job asks for a retry and the count of outstanding writes is 0 with the job still queued. |
| `ThreadPools.WorkDecreases` | src/streaming/thread.pool.cpp:137-177 | Once no job is accepted, every step of a worker lowers a measure over the attempts left. |
| `ThreadPools.StopMakesProgress` | src/streaming/thread.pool.cpp:88-134 | Until all threads have ended, some worker has a step. |
| `PoolOrder.AcceptingMeans` | src/streaming/thread.pool.cpp:88-177 | In every reachable state the pool takes jobs if and only if none has failed so far and it has not been stopped; the errors recorded are the jobs that failed. |
| `PoolOrder.RetryMeans` | src/streaming/thread.pool.cpp:150-166 | A retry is granted if and only if the job has not been started more often than it has retries; else the job is a failure, started one time more than that. |
| `PoolOrder.PushMeans` | src/streaming/thread.pool.cpp:35-51 | A job taken is queued last, with one retry if no number is given; any other is left to be run inline. Both are counted. |
| `PoolOrder.StartedInOrder` | src/streaming/thread.pool.cpp:121-147 | Unless a job asks for a retry, jobs are started in the order they were pushed. |
| `ThreadPools.ExecuteJobWithRetry` | src/streaming/thread.pool.cpp:64-85 | A job run inline is repeated only after a retry, at most as often as allowed, and exactly once if it never asks for one. |
| `DataPaths.DecimalRoundTrip` | src/streaming/sink.cpp:48-100 | A number written in decimal reads back, and holds no separator. |
| `DataPaths.RenderInjective` | src/streaming/sink.cpp:48-100 | Paths of different coordinates differ. |
| `DataPaths.PathsAreRanked` | src/streaming/sink.cpp:48-100 | The breadth-first list holds, at each index, the path of the coordinate with that row-major rank. |
| `DataPaths.ExpandQueue` | src/streaming/sink.cpp:62-95 | Popping each path and pushing its children gives the children of all paths in order. |
| `DataPaths.ConstructDataPaths` | src/streaming/sink.cpp:48-100 | The queue ends with the paths of all shards of the grid, in row-major order. |
| `DataPaths.ShardPath` | src/streaming/sink.cpp:48-100 | The path at a chunk's shard index has as digits the chunk index divided by the shard size on each axis. |
| `DataPaths.RootedInjective` | src/streaming/array.cpp:939-951 | Paths of shards of different generations, or of different coordinates, differ. |
| `DataPaths.ChunkInFile` | src/streaming/array.cpp:433-461 | The path listed at a chunk's shard index under the root of its generation is the chunk's path. |
| `DataPaths.ChunkPathIs` | src/streaming/array.cpp:433-461 | The path in full: the node, `/c`, a slash and the generation unless there are two axes, and for each other axis a slash and the number of the shard. |
| `DataPaths.PlacementInjective` | src/streaming/sink.cpp:48-100 | Two chunks of an array with the same path and inner index are the same chunk, across generations. |
| `Memory.EstimateMaxMemoryUsage` | src/streaming/acquire.zarr.cpp:238-311 | The loops add one frame buffer and the held chunks of each array, twice where compression or levels ask for it, to the queue's share. |
| `Memory.FrameCountIs` | src/streaming/acquire.zarr.cpp:236-255 | The queue is counted with 16 to 512 frames: the most that fit into 256 MiB, within these bounds. |
| `Memory.MaxFrameIs` | src/streaming/acquire.zarr.cpp:236-250 | The frame it is counted for is the largest of the arrays. |
| `Memory.EstimateIs` | src/streaming/acquire.zarr.cpp:266-300 | For flat arrays of three axes or more the estimate is exactly a layer of chunks, or a band where bands apply and no order was asked for, doubled for compression and doubled for levels. |
| `Memory.ArrayWithinEstimate` | src/streaming/acquire.zarr.cpp:266-300 | For flat arrays of three axes or more, in storage or reordered axes, the most an array's chunk buffers can take (what `StreamArray.Array.UsageBound` bounds them by) is within its part of the estimate. |
| `Streams.Open` | src/streaming/zarr.stream.cpp:1240-1285 | From settings to an array and its output, for which what the next row asks of them holds. |
| `Streams.GetMemoryUsage` | src/streaming/zarr.stream.cpp:1058-1068 | In every reachable state of the stream the answer is exactly the bytes queued, the frame buffers and the chunks allocated, and at most what `Memory.EstimateMaxMemoryUsage` computes from the settings. |

## Left out

- `Building.BuildArray`: settings are given as axes; the checks of single settings fields are left out. For an order that names an axis twice and that the program accepts, no array of the model is made, because its storage axes are not the axes acquired.
- `Flush.FlushState.MakeShards`: the paths of the shards and the root they start with are in `DataPaths`, not in this contract.
- `Flush.FlushState.CompressAndFlushData`: whether the layer is the last of its generation is decided by the caller, in `StreamArray.Array.FlushCompletedLayer`.
- `Flush.FlushState.DispatchChunkJob`: a job's content is fixed when it is dispatched, because the chunk has been moved out of its slot; encoding is a function of that content here, and its failure is an event of `Reporting`, as are the choice of pool or inline and how the job ends.
- `Flush.FlushState.CompressAndFlushBand`: the locks on single slots and the waits for the write counter are not modelled; the counter is in the thread pool model.
- `FrameWriter.WriteTiles`: the tiles of a frame are copied in order, not by parallel threads.
- `StreamArray.Array.Close`: states what the shards receive; draining the pool, finalising shards and writing metadata are in other members, and an array is not used after closing.
- `StreamArray.Array.WriteFrameToChunks`: as for the tiles, one order of the copies.
- `ReadBack.EndToEnd`: assumes that each shard file is what a run leaves in which every job succeeded. Which failures a caller sees, and which are only logged, is in `Reporting`.
- `Reporting.SuccessMeans`: errors from other places than jobs and finalisation (frame queue, metadata) can only turn a success into a failure and are left out.
- `ShardMachine.StepData`: a failed write leaves at most a part of its own extent, or other bytes within it; a store that damages bytes elsewhere is not covered.
- `Drain.AllWrittenBeforeFinalize`: appends come from one thread at a time, and no array write throws; the step that drops the queue after a refusal is there, and is never taken.
- `Appending.Output.Append`: pushing waits until there is room, so a stream stopped in the middle of an append and the errors for unknown keys are left out. Appends without data are left out too: buffers are not cleared on reuse.
- `Multiscale.MultiscaleWriter.WriteMultiscaleFrames`: the arrays of the levels are the checks of write_frame and the list of frames accepted, not the flushing behind them; sizes are in pixels; levels together with reordered axes are left out.
- `PyramidForms.MeanDrift`: pixels are unbounded integers, which is exact for 8-bit and 16-bit data; Mean over wider integers, where sums overflow, is left out.
- `PyramidForms.BoxBound`: floating-point pixels, and with them values that do not compare, are left out of all kernels.
- `Streams.GetMemoryUsage`: the bound is for usage read between calls, not while an array is in the middle of a frame; two-dimensional arrays and multiscale arrays are not bounded.
- `HandlePool.FileHandlePool.Serve`: opening a file is a value that may be missing; the file itself is not modelled.
- Sizes, offsets and counters are unbounded naturals, apart from the 64-bit index of `Transposition.StrideLoopInRange`; overflow of products is not modelled.
- Compression is a pair of functions with `decode(encode(c)) == c`; the checksum is an uninterpreted function of the table.
- Object storage, connections, multipart uploads, file system calls and directory creation: the sink is a byte string with writes at an offset that may fail.
- Time: a timed wait may end at any step, and sleeps are not modelled.
- Metadata other than the size of the append axis, HCS plates, key validation, settings files, C allocation helpers, Python bindings, logging.
