/**
 The stream put together (src/streaming/zarr.stream.cpp): the machine of module Drain next to the queue, outputs and arrays it stands
 for.  A write step is a frame the array accepts, and the memory reported in any reachable state is at most what was estimated.
 */
module Streams {
  import opened Arith
  import opened Bytes
  import opened Chunk
  import opened ChunkContent
  import opened FrameQueues
  import opened Answers
  import opened Appending
  import opened StreamArray
  import opened Memory
  import Drain
  import opened Closing
  import opened Grid
  import opened Permutation
  import opened Transposition
  import opened Acquisition
  import opened Building

  /** The array of a key, as the machine sees it: its limits, and the frames written to it. */
  ghost predicate Stands(a: Array, key: string, arrays: map<string, Drain.Limits>, written: seq<Item>)
    reads a`acquired
  {
    key in arrays && arrays[key] == Drain.Limits(a.bytesPerFrame, a.maxBytes) && a.acquired == Datas(OfKey(written, key))
  }

  /** The machine's write step: the array accepts the frame, and stands for the machine after the step. */
  method WriteStep(a: Array, item: Item, ghost s: Drain.State) returns (r: WriteResult)
    requires Drain.Inv(s) && s.consumer == Drain.Writing(item) && a.Valid() && Stands(a, item.key, s.arrays, s.written)
    modifies a, a.flush, a.flush.chunks
    ensures r == Ok && a.Valid() && Stands(a, item.key, s.arrays, Drain.Apply(s, Drain.Write).written)
  {
    Drain.NextInOrder(s);
    OfKeySnoc(s.written, item, item.key);
    ghost var acquired := a.acquired;
    r := Offer(a, item);
    assert a.acquired == acquired + [item.data];
  }

  /** The machine's push step, on the ring buffer. */
  method PushStep(queue: FrameQueue, key: string, data: seq<Byte>, frameId: nat, ghost s: Drain.State)
    requires queue.Valid() && queue.Contents() == s.queue && queue.capacity == s.capacity + 1
    requires Drain.Enabled(s, Drain.Push(key, data)) && frameId == |OfKey(s.pushed, key)|
    modifies queue, queue.buffer
    ensures queue.Valid() && queue.Contents() == Drain.Apply(s, Drain.Push(key, data)).queue
  {
    var ok := queue.Push(data, key, frameId);
  }

  /** The machine's pop step: the frame popped is the one the machine is about to write. */
  method PopStep(queue: FrameQueue, ghost s: Drain.State) returns (ok: bool, item: Item)
    requires queue.Valid() && queue.Contents() == s.queue && Drain.Enabled(s, Drain.Pop)
    modifies queue, queue.buffer
    ensures queue.Valid() && queue.Contents() == Drain.Apply(s, Drain.Pop).queue
    ensures Drain.Apply(s, Drain.Pop).consumer == if ok then Drain.Writing(item) else Drain.Head
  {
    ok, item := queue.Pop([]);
  }

  method Offer(a: Array, item: Item) returns (r: WriteResult)
    requires a.Valid()
    modifies a, a.flush, a.flush.chunks
    ensures a.Valid() && r == Answer(a.bytesPerFrame, a.maxBytes, |old(a.acquired)|, |item.data|, item.frameId)
    ensures a.acquired == if r == Ok then old(a.acquired) + [item.data] else old(a.acquired)
  {
    var bytesWritten;
    r, bytesWritten := a.WriteFrame(item.data, item.frameId);
  }

  // ----- Memory ------------------------------------------------------------------------------------------

  /** Settings of an array, the order of its axes, its output and itself belong together; kept closed. */
  ghost predicate Belong(acq: ArraySettings, order: seq<nat>, o: Output, a: Array) {
    forall x {:trigger Look(x)} :: Look(x) ==>
      && Configured(acq, order, a) && IsRoom(a.geo, a.SupportsDim1Banding(), a.limit)
      && o.frameSizeBytes == a.bytesPerFrame == a.geo.FrameBytes()
  }

  /** The estimate for the queue and the first `i` arrays; kept closed. */
  ghost predicate Estimated(acqs: seq<ArraySettings>, i: nat, estimate: nat) {
    forall x {:trigger Look(x)} :: Look(x) ==>
      i <= |acqs| && AllValid(acqs) && estimate == QueueUsage(MaxFrame(acqs)) + ArraysUsage(acqs[..i])
  }

  ghost predicate PartOf(acq: ArraySettings, part: nat) {
    forall x {:trigger Look(x)} :: Look(x) ==> ValidSettings(acq) && part == FrameBytesOf(acq) + ArrayUsage(acq)
  }

  lemma PartIs(acq: ArraySettings, order: seq<nat>, o: Output, a: Array) returns (part: nat)
    requires Belong(acq, order, o, a)
    ensures PartOf(acq, part) && o.frameSizeBytes + a.limit <= part
  {
    assert Look(0);
    FrameBytesKept(acq, order, a);
    ArrayWithinEstimate(a, acq, order);
    part := FrameBytesOf(acq) + ArrayUsage(acq);
  }

  lemma EstimateNext(acqs: seq<ArraySettings>, i: nat, estimate: nat, part: nat)
    requires i < |acqs| && Estimated(acqs, i, estimate) && PartOf(acqs[i], part)
    ensures Estimated(acqs, i + 1, estimate + part)
  {
    assert Look(0);
    assert acqs[..i + 1][..i] == acqs[..i];
  }

  /** What an output and its array report: the frame buffer, and the chunks allocated. */
  method Report(o: Output, a: Array) returns (usage: nat)
    ensures usage == |o.frameBuffer| + BytesIn(a.flush.chunks, |a.flush.chunks|)
  {
    var arrayUsage := a.MemoryUsage();
    usage := |o.frameBuffer| + arrayUsage;
  }

  lemma ReportBound(o: Output, a: Array)
    requires o.Valid() && a.Valid()
    ensures |o.frameBuffer| + BytesIn(a.flush.chunks, |a.flush.chunks|) <= o.frameSizeBytes + a.limit
  {
    a.UsageBound();
  }

  /** The machine is set up for these outputs: their limits, and a queue for the largest frame. */
  ghost predicate SetUp(outputs: seq<Output>, acqs: seq<ArraySettings>, limits: map<string, Drain.Limits>, capacity: nat) {
    && AllValid(acqs) && |outputs| == |acqs| > 0 && MaxFrame(acqs) > 0 && capacity == FrameCount(MaxFrame(acqs))
    && forall key :: key in limits ==>
         exists i :: 0 <= i < |outputs| && outputs[i].key == key && limits[key].frameBytes == outputs[i].frameSizeBytes
  }

  lemma FrameIs(acq: ArraySettings, order: seq<nat>, o: Output, a: Array)
    requires Belong(acq, order, o, a)
    ensures |acq.dims| >= 2 && o.frameSizeBytes == FrameBytesOf(acq)
  {
    assert Look(0);
    FrameBytesKept(acq, order, a);
  }

  /** In every reachable state the queue holds whole frames of the arrays, no more than it was made for. */
  lemma QueueEstimate(s: Drain.State, outputs: seq<Output>, arrays: seq<Array>, acqs: seq<ArraySettings>, orders: seq<seq<nat>>)
    returns (estimate: nat)
    requires Drain.Inv(s) && SetUp(outputs, acqs, s.arrays, s.capacity) && |arrays| == |orders| == |acqs|
    requires forall i :: 0 <= i < |acqs| ==> Belong(acqs[i], orders[i], outputs[i], arrays[i])
    ensures Estimated(acqs, 0, estimate) && TotalBytes(s.queue) <= estimate
  {
    var maxFrame := MaxFrame(acqs);
    forall n | 0 <= n < |s.queue| ensures |s.queue[n].data| <= maxFrame {
      var item, m := s.queue[n], |s.pushed| - |s.queue| + n;
      assert s.pushed[m] == item && Drain.Fits(s.arrays, s.pushed[m]);
      var i :| 0 <= i < |outputs| && outputs[i].key == item.key && s.arrays[item.key].frameBytes == outputs[i].frameSizeBytes;
      FrameIs(acqs[i], orders[i], outputs[i], arrays[i]);
      MaxFrameIs(acqs);
    }
    QueueWithin(s.queue, maxFrame);
    estimate := QueueUsage(maxFrame);
  }

  /** Whatever the stream has done, what it reports is at most what was estimated from its settings. */
  method GetMemoryUsage(queue: FrameQueue, outputs: seq<Output>, arrays: seq<Array>, ghost acqs: seq<ArraySettings>,
                        ghost orders: seq<seq<nat>>, ghost limits: map<string, Drain.Limits>, ghost capacity: nat,
                        ghost steps: seq<Drain.Step>, ghost amounts: seq<nat>)
    returns (usage: nat)
    requires capacity >= 1 && Drain.IsRun(Drain.Init(limits, capacity), steps)
    requires queue.Valid() && queue.Contents() == Drain.Outcome(Drain.Init(limits, capacity), steps).queue
    requires SetUp(outputs, acqs, limits, capacity) && |arrays| == |orders| == |acqs|
    requires forall i :: 0 <= i < |acqs| ==> Belong(acqs[i], orders[i], outputs[i], arrays[i])
    requires forall i :: 0 <= i < |acqs| ==> outputs[i].Valid() && arrays[i].Valid()
    requires |amounts| == |acqs|
    requires forall i :: 0 <= i < |acqs| ==>
               amounts[i] == |outputs[i].frameBuffer| + BytesIn(arrays[i].flush.chunks, |arrays[i].flush.chunks|)
    ensures usage == |Concatenated(queue.Contents())| + Sum(amounts) <= QueueUsage(MaxFrame(acqs)) + ArraysUsage(acqs)
  {
    ghost var parts := RunParts(outputs, arrays, acqs, orders, limits, capacity, steps);
    forall i | 0 <= i < |amounts| ensures amounts[i] <= parts[i] {
      ReportBound(outputs[i], arrays[i]);
    }
    SumMono(amounts, parts);
    usage := queue.BytesUsed();
    var reported := ReportAll(outputs, arrays, amounts);
    usage := usage + reported;
  }

  lemma RunParts(outputs: seq<Output>, arrays: seq<Array>, acqs: seq<ArraySettings>, orders: seq<seq<nat>>,
                 limits: map<string, Drain.Limits>, capacity: nat, steps: seq<Drain.Step>)
    returns (parts: seq<nat>)
    requires capacity >= 1 && Drain.IsRun(Drain.Init(limits, capacity), steps)
    requires SetUp(outputs, acqs, limits, capacity) && |arrays| == |orders| == |acqs|
    requires forall i :: 0 <= i < |acqs| ==> Belong(acqs[i], orders[i], outputs[i], arrays[i])
    ensures |parts| == |acqs| && forall i :: 0 <= i < |acqs| ==> outputs[i].frameSizeBytes + arrays[i].limit <= parts[i]
    ensures TotalBytes(Drain.Outcome(Drain.Init(limits, capacity), steps).queue) + Sum(parts)
            <= QueueUsage(MaxFrame(acqs)) + ArraysUsage(acqs)
  {
    var s := Drain.Outcome(Drain.Init(limits, capacity), steps);
    Drain.InitInv(limits, capacity);
    Drain.RunsKeepInv(Drain.Init(limits, capacity), steps);
    Drain.SettingsKept(Drain.Init(limits, capacity), steps);
    var queued := QueueEstimate(s, outputs, arrays, acqs, orders);
    parts := Parts(outputs, arrays, acqs, orders, queued);
  }

  /** The parts of the estimate. */
  lemma Parts(outputs: seq<Output>, arrays: seq<Array>, acqs: seq<ArraySettings>, orders: seq<seq<nat>>, queued: nat)
    returns (parts: seq<nat>)
    requires |outputs| == |arrays| == |orders| == |acqs| && AllValid(acqs) && Estimated(acqs, 0, queued)
    requires forall i :: 0 <= i < |acqs| ==> Belong(acqs[i], orders[i], outputs[i], arrays[i])
    ensures |parts| == |acqs| && queued + Sum(parts) == QueueUsage(MaxFrame(acqs)) + ArraysUsage(acqs)
    ensures forall i :: 0 <= i < |acqs| ==> outputs[i].frameSizeBytes + arrays[i].limit <= parts[i]
  {
    parts := [];
    for i := 0 to |acqs|
      invariant |parts| == i && Estimated(acqs, i, queued + Sum(parts))
      invariant forall j :: 0 <= j < i ==> outputs[j].frameSizeBytes + arrays[j].limit <= parts[j]
    {
      var part := PartIs(acqs[i], orders[i], outputs[i], arrays[i]);
      EstimateNext(acqs, i, queued + Sum(parts), part);
      assert (parts + [part])[..i] == parts;
      parts := parts + [part];
    }
    WholeEstimate(acqs, queued + Sum(parts));
  }

  /** What all outputs and arrays report. */
  method ReportAll(outputs: seq<Output>, arrays: seq<Array>, ghost amounts: seq<nat>) returns (usage: nat)
    requires |outputs| == |arrays| == |amounts|
    requires forall i :: 0 <= i < |arrays| ==>
               amounts[i] == |outputs[i].frameBuffer| + BytesIn(arrays[i].flush.chunks, |arrays[i].flush.chunks|)
    ensures usage == Sum(amounts)
  {
    usage := 0;
    for i := 0 to |arrays|
      invariant usage == Sum(amounts[..i])
    {
      var reported := Report(outputs[i], arrays[i]);
      assert amounts[..i + 1][..i] == amounts[..i];
      usage := usage + reported;
    }
    assert amounts[..|arrays|] == amounts;
  }

  lemma {:induction false} SumMono(s: seq<nat>, t: seq<nat>)
    requires |s| == |t| && forall i :: 0 <= i < |s| ==> s[i] <= t[i]
    ensures Sum(s) <= Sum(t)
  {
    if s != [] {
      SumMono(s[..|s| - 1], t[..|t| - 1]);
    }
  }

  lemma WholeEstimate(acqs: seq<ArraySettings>, estimate: nat)
    requires AllValid(acqs) && Estimated(acqs, |acqs|, estimate)
    ensures estimate == QueueUsage(MaxFrame(acqs)) + ArraysUsage(acqs)
  {
    assert Look(0);
    assert acqs[..|acqs|] == acqs;
  }

  // ----- Opening -----------------------------------------------------------------------------------------

  /** The order of the axes when none is asked for. */
  function AxesOrder(order: seq<nat>, n: nat): seq<nat> {
    if order == [] then seq(n, i => i) else order
  }

  /** An array for its settings, and its output; they are what the theorem above asks for. */
  method Open(acq: ArraySettings, order: seq<nat>, key: string, encode: seq<Byte> -> seq<Byte>)
    returns (ok: bool, a: Array?, o: Output?)
    requires ValidSettings(acq) && (acq.reordered <==> order != [])
    ensures ok <==> Buildable(acq.dims, order)
    ensures (a != null <==> ok && Distinct(order)) && (o != null <==> a != null)
    ensures a != null ==> a.Valid() && o.Valid() && o.key == key && fresh(a) && fresh(o)
    ensures a != null ==> Belong(acq, AxesOrder(order, |acq.dims|), o, a)
    ensures a != null ==> Stands(a, key, map[key := Drain.Limits(o.frameSizeBytes, o.maxArraySizeBytes)], [])
  {
    assert WithPhantom(acq.dims) == acq.dims;
    ok, a := BuildArray(acq.dims, order, acq.bpp, encode);
    if a == null {
      return ok, null, null;
    }
    BuiltConfigured(acq, order, a);
    FrameBytesKept(acq, AxesOrder(order, |acq.dims|), a);
    o := OutputFor(key, a.bytesPerFrame, a.maxBytes);
    BelongTogether(acq, AxesOrder(order, |acq.dims|), o, a);
  }

  method OutputFor(key: string, frameBytes: nat, maxBytes: nat) returns (o: Output)
    requires frameBytes > 0
    ensures fresh(o) && o.Valid() && o.key == key && o.frameSizeBytes == frameBytes && o.maxArraySizeBytes == maxBytes
  {
    o := new Output(key, frameBytes, maxBytes);
  }

  lemma BelongTogether(acq: ArraySettings, order: seq<nat>, o: Output, a: Array)
    requires Configured(acq, order, a) && IsRoom(a.geo, a.SupportsDim1Banding(), a.limit)
    requires o.frameSizeBytes == a.bytesPerFrame == a.geo.FrameBytes()
    ensures Belong(acq, order, o, a)
  {
  }

  lemma BuiltConfigured(acq: ArraySettings, order: seq<nat>, a: Array)
    requires ValidSettings(acq) && Buildable(acq.dims, order) && Distinct(order) && (acq.reordered <==> order != [])
    requires a.geo.bpp == acq.bpp && ValidMapping(a.mapping, a.geo.dims) && Arranged(acq.dims, order, a.geo.dims, a.mapping)
    ensures Configured(acq, AxesOrder(order, |acq.dims|), a)
  {
    if order != [] {
      TargetsKeepFrameAxes(acq.dims, order);
    }
  }
}
