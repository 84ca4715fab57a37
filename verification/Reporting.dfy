/**
 What a stream reports when it is closed (src/streaming/array.cpp, the dispatch functions and close_; src/streaming/zarr.stream.cpp,
 finalize_stream): a failed job of the pool is recorded, one that was run inline is only logged.
 */
module Reporting {
  import opened Wrappers
  import opened Closing
  import opened ShardFormat
  import opened Shard
  import opened ShardMachine

  /** A job of a shard: its entry, what it does, and whether the pool took it. */
  datatype Key = Key(shard: nat, i: nat)
  datatype Job = Job(task: Task, attempts: nat, pooled: bool)

  /**
   All shards ever made; those left behind by a rollover; jobs, and those that ended in failure; the error that
   the pool recorded; whether the pool has stopped; what was reported.
   */
  datatype Stream = Stream(
    shards: map<nat, State>,
    rolled: set<nat>,
    jobs: map<Key, Job>,
    failed: set<Key>,
    error: bool,
    stopped: bool,
    reported: Option<bool>)

  datatype Event =
    | Make(k: nat, n: nat)
    | Dispatch(key: Key, job: Job)
    | GiveUp(key: Key)                            // the chunk cannot be encoded
    | Progress(k: nat, step: Step)
    | RollOver(k: nat)
    | Finish(k: nat, table: Io, flushOk: bool)    // by the closing array, or by the last owner of a shard left behind
    | StopPool
    | Report

  function Opened(): Stream {
    Stream(map[], {}, map[], {}, false, false, None)
  }

  predicate Ended(s: Stream, key: Key) {
    key in s.failed || (key.shard in s.shards && key.i in s.shards[key.shard].runs && s.shards[key.shard].runs[key.i].pc.Returned?)
  }

  ghost predicate AllEnded(s: Stream, k: nat) {
    forall key :: key in s.jobs && key.shard == k ==> Ended(s, key)
  }

  predicate Submits(s: Stream, k: nat, step: Step) {
    step.Submit? ==>
      var key := Key(k, step.i);
      key in s.jobs && s.jobs[key].task == step.task && s.jobs[key].attempts == step.retries && key !in s.failed
  }

  /** A shard of the open generation. */
  predicate Open(s: Stream, k: nat) {
    k in s.shards && k !in s.rolled
  }

  ghost predicate CanHappen(s: Stream, e: Event) {
    match e
    case Make(k, n) => k !in s.shards && n > 0 && s.reported.None?
    case Dispatch(key, job) =>
      Open(s, key.shard) && !s.shards[key.shard].closed && key !in s.jobs && key.i < |s.shards[key.shard].f.offsets|
      && job.attempts > 0 && (job.pooled ==> !s.stopped) && s.reported.None?
    case GiveUp(key) =>
      key in s.jobs && s.jobs[key].task.Put? && key !in s.failed && key.shard in s.shards
      && key.i !in s.shards[key.shard].tasks && s.reported.None?
    case Progress(k, step) => k in s.shards && !step.Close? && Enabled(s.shards[k], step) && Submits(s, k, step) && s.reported.None?
    case RollOver(k) => Open(s, k) && s.reported.None? && forall i: nat :: i < |s.shards[k].f.offsets| ==> Key(k, i) in s.jobs
    case Finish(k, table, flushOk) =>
      k in s.shards && Enabled(s.shards[k], Close(table, flushOk)) && AllEnded(s, k) && (k in s.rolled || (s.stopped && s.reported.None?))
    case StopPool => !s.stopped && forall key :: key in s.jobs && s.jobs[key].pooled ==> Ended(s, key)
    case Report =>
      s.stopped && s.reported.None? && (forall key :: key in s.jobs ==> Ended(s, key))
      && forall k :: Open(s, k) ==> s.shards[k].closed
  }

  /** The job has ended in failure; the pool records it, the dispatcher of an inline job does not. */
  function Fail(s: Stream, key: Key): Stream {
    s.(failed := s.failed + {key}, error := s.error || (key in s.jobs && s.jobs[key].pooled))
  }

  ghost function After(s: Stream, e: Event, enc: TableCodec): Stream
    requires CanHappen(s, e)
  {
    match e
    case Make(k, n) => s.(shards := s.shards[k := Init(n)])
    case Dispatch(key, job) => s.(jobs := s.jobs[key := job])
    case GiveUp(key) => Fail(s, key)
    case Progress(k, step) =>
      var t := s.(shards := s.shards[k := Apply(s.shards[k], step, enc)]);
      if At(t.shards[k].runs, step.i, Returned(false)) then Fail(t, Key(k, step.i)) else t
    case RollOver(k) => s.(rolled := s.rolled + {k})
    case Finish(k, table, flushOk) => s.(shards := s.shards[k := Apply(s.shards[k], Close(table, flushOk), enc)])
    case StopPool => s.(stopped := true, reported := if s.error then Some(false) else s.reported)
    case Report => s.(reported := Some(!s.error && forall k :: Open(s, k) ==> s.shards[k].f.finalizeOk))
  }

  // ----- The invariant -----------------------------------------------------------------------------------

  /** Kept closed. */
  ghost predicate Sound(st: State, enc: TableCodec) {
    forall x {:trigger Look(x)} :: Look(x) ==> ShardMachine.Inv(st, enc) && |st.f.offsets| > 0
  }

  ghost predicate ShardOk(s: Stream, k: nat, enc: TableCodec)
    requires k in s.shards
  {
    && Sound(s.shards[k], enc)
    && (forall i :: i in s.shards[k].tasks ==> Key(k, i) in s.jobs && s.jobs[Key(k, i)].task == s.shards[k].tasks[i])
    && (forall i :: At(s.shards[k].runs, i, Returned(false)) ==> Key(k, i) in s.failed)
    && (k in s.rolled ==> forall i: nat :: i < |s.shards[k].f.offsets| ==> Key(k, i) in s.jobs)
  }

  ghost predicate FailedOk(s: Stream, key: Key) {
    && key in s.jobs && key.shard in s.shards && (s.jobs[key].pooled ==> s.error)
    && if key.i in s.shards[key.shard].tasks then At(s.shards[key.shard].runs, key.i, Returned(false)) else s.jobs[key].task.Put?
  }

  ghost predicate Good(s: Stream, enc: TableCodec) {
    && (forall k :: k in s.shards ==> ShardOk(s, k, enc))
    && (forall key :: key in s.failed ==> FailedOk(s, key))
    && (forall key :: key in s.jobs ==> key.shard in s.shards)
    && s.rolled <= s.shards.Keys
    && (s.reported == Some(true) ==> ReportOk(s))
  }

  ghost predicate ReportOk(s: Stream) {
    && !s.error && (forall key :: key in s.jobs ==> Ended(s, key))
    && forall k :: Open(s, k) ==> s.shards[k].closed && s.shards[k].f.finalizeOk
  }

  // ----- Each event keeps it -----------------------------------------------------------------------------

  /** A step moves one job of the shard, which had not ended. */
  lemma OneJobMoves(st: State, step: Step, enc: TableCodec)
    requires Sound(st, enc) && Enabled(st, step) && !step.Close?
    ensures var t := Apply(st, step, enc);
            && |t.f.offsets| == |st.f.offsets| && t.closed == st.closed && step.i in t.tasks && step.i in t.runs
            && t.tasks == (if step.Submit? then st.tasks[step.i := step.task] else st.tasks)
            && (forall j :: j != step.i ==> (j in t.runs <==> j in st.runs) && (j in st.runs ==> t.runs[j] == st.runs[j]))
            && (if step.Submit? then step.i !in st.tasks && step.i !in st.runs
                else step.i in st.runs && !st.runs[step.i].pc.Returned?)
  {
    SameKeys(st, enc);
  }

  lemma SameKeys(st: State, enc: TableCodec)
    requires Sound(st, enc)
    ensures st.tasks.Keys == st.runs.Keys
  {
    assert Look(0);
  }

  lemma StepSound(st: State, step: Step, enc: TableCodec)
    requires (forall o, e :: enc(o, e) != []) && Sound(st, enc) && Enabled(st, step)
    ensures Sound(Apply(st, step, enc), enc)
  {
    assert Look(0);
    StepControl(st, step, enc);
    StepData(st, step, enc);
  }

  lemma TasksRun(st: State, enc: TableCodec, i: nat)
    requires Sound(st, enc)
    ensures i in st.tasks <==> i in st.runs
    ensures i in st.tasks ==> i < |st.f.offsets|
  {
    assert Look(0);
  }

  lemma StartSound(n: nat, enc: TableCodec)
    requires n > 0
    ensures Sound(Init(n), enc)
  {
    InitInv(n, enc);
  }

  lemma ShardMoves(s: Stream, t: Stream, k: nat, step: Step, enc: TableCodec)
    requires (forall o, e :: enc(o, e) != []) && k in s.shards && ShardOk(s, k, enc) && CanHappen(s, Progress(k, step))
    requires k in t.shards && t.shards[k] == Apply(s.shards[k], step, enc) && t.jobs == s.jobs && t.rolled == s.rolled && s.failed <= t.failed
    requires At(t.shards[k].runs, step.i, Returned(false)) ==> Key(k, step.i) in t.failed
    ensures ShardOk(t, k, enc) && Key(k, step.i) in s.jobs && step.i in t.shards[k].tasks
  {
    OneJobMoves(s.shards[k], step, enc);
    StepSound(s.shards[k], step, enc);
  }

  /** A job that has failed does not move. */
  lemma FailureStays(s: Stream, t: Stream, k: nat, step: Step, key: Key, enc: TableCodec)
    requires k in s.shards && Sound(s.shards[k], enc) && CanHappen(s, Progress(k, step)) && FailedOk(s, key) && key in s.failed
    requires t.shards == s.shards[k := Apply(s.shards[k], step, enc)] && t.jobs == s.jobs && (s.error ==> t.error)
    ensures FailedOk(t, key)
  {
    OneJobMoves(s.shards[k], step, enc);
  }

  lemma RunGood(s: Stream, k: nat, step: Step, enc: TableCodec)
    requires (forall o, e :: enc(o, e) != []) && Good(s, enc) && CanHappen(s, Progress(k, step))
    ensures Good(After(s, Progress(k, step), enc), enc)
  {
    var t := After(s, Progress(k, step), enc);
    assert ShardOk(s, k, enc);
    ShardMoves(s, t, k, step, enc);
    forall key | key in s.failed ensures FailedOk(t, key) {
      FailureStays(s, t, k, step, key, enc);
    }
    OneShardMoved(s, t, k, enc);
  }

  /** The rest is as before. */
  lemma OneShardMoved(s: Stream, t: Stream, k: nat, enc: TableCodec)
    requires Good(s, enc) && k in s.shards && k in t.shards && t.shards == s.shards[k := t.shards[k]] && ShardOk(t, k, enc)
    requires t.jobs == s.jobs && t.rolled == s.rolled && s.failed <= t.failed
    requires t.reported == Some(true) ==> ReportOk(t)
    requires forall key :: key in t.failed ==> FailedOk(t, key)
    ensures Good(t, enc)
  {
    forall j | j in t.shards ensures ShardOk(t, j, enc) {
      if j != k {
        assert ShardOk(s, j, enc);
      }
    }
  }

  lemma ShardCloses(s: Stream, t: Stream, k: nat, table: Io, flushOk: bool, enc: TableCodec)
    requires (forall o, e :: enc(o, e) != []) && k in s.shards && ShardOk(s, k, enc) && Enabled(s.shards[k], Close(table, flushOk))
    requires t == s.(shards := s.shards[k := Apply(s.shards[k], Close(table, flushOk), enc)])
    ensures ShardOk(t, k, enc) && t.shards[k].tasks == s.shards[k].tasks && t.shards[k].runs == s.shards[k].runs
  {
    StepSound(s.shards[k], Close(table, flushOk), enc);
  }

  lemma FinishGood(s: Stream, k: nat, table: Io, flushOk: bool, enc: TableCodec)
    requires (forall o, e :: enc(o, e) != []) && Good(s, enc) && CanHappen(s, Finish(k, table, flushOk))
    ensures Good(After(s, Finish(k, table, flushOk), enc), enc)
  {
    var t := After(s, Finish(k, table, flushOk), enc);
    assert ShardOk(s, k, enc);
    ShardCloses(s, t, k, table, flushOk, enc);
    forall key | key in t.failed ensures FailedOk(t, key) {
      assert FailedOk(s, key);
    }
    if s.reported == Some(true) {
      ReportStays(s, t, k);
    }
    OneShardMoved(s, t, k, enc);
  }

  /** What was reported does not depend on a shard left behind. */
  lemma ReportStays(s: Stream, t: Stream, k: nat)
    requires ReportOk(s) && k in s.rolled && k in s.shards && k in t.shards && t.shards[k].runs == s.shards[k].runs
    requires t == s.(shards := s.shards[k := t.shards[k]])
    ensures ReportOk(t)
  {
    forall key | key in t.jobs ensures Ended(t, key) {
      assert Ended(s, key);
    }
  }

  /** Events that leave the shards there are as they are. */
  lemma OtherGood(s: Stream, e: Event, enc: TableCodec)
    requires Good(s, enc) && CanHappen(s, e) && !e.Progress? && !e.Finish?
    ensures Good(After(s, e, enc), enc)
  {
    var t := After(s, e, enc);
    if e.Make? {
      StartSound(e.n, enc);
    }
    forall j | j in t.shards ensures ShardOk(t, j, enc) {
      assert j in s.shards ==> ShardOk(s, j, enc);
    }
    forall key | key in t.failed ensures FailedOk(t, key) {
      assert key in s.failed ==> FailedOk(s, key);
    }
    if t.reported == Some(true) {
      forall key | key in t.jobs ensures Ended(t, key) {
        assert Ended(s, key);
      }
    }
  }

  lemma EventGood(s: Stream, e: Event, enc: TableCodec)
    requires (forall o, x :: enc(o, x) != []) && Good(s, enc) && CanHappen(s, e)
    ensures Good(After(s, e, enc), enc)
  {
    match e
    case Progress(k, step) => RunGood(s, k, step, enc);
    case Finish(k, table, flushOk) => FinishGood(s, k, table, flushOk, enc);
    case _ => OtherGood(s, e, enc);
  }

  ghost predicate IsHistory(s: Stream, events: seq<Event>, enc: TableCodec)
    decreases |events|
  {
    events == [] || (CanHappen(s, events[0]) && IsHistory(After(s, events[0], enc), events[1..], enc))
  }

  ghost function Finally(s: Stream, events: seq<Event>, enc: TableCodec): Stream
    requires IsHistory(s, events, enc)
    decreases |events|
  {
    if events == [] then s else Finally(After(s, events[0], enc), events[1..], enc)
  }

  lemma {:induction false} HistoriesGood(s: Stream, events: seq<Event>, enc: TableCodec)
    requires (forall o, e :: enc(o, e) != []) && Good(s, enc) && IsHistory(s, events, enc)
    ensures Good(Finally(s, events, enc), enc)
    decreases |events|
  {
    if events != [] {
      EventGood(s, events[0], enc);
      HistoriesGood(After(s, events[0], enc), events[1..], enc);
    }
  }

  // ----- What a reported success means -------------------------------------------------------------------

  /** A job of a shard ended well or badly, for the chunk and for the shard. */
  lemma JobEnds(st: State, enc: TableCodec, i: nat, ok: bool)
    requires Sound(st, enc) && At(st.runs, i, Returned(ok))
    ensures i in st.tasks
    ensures ok ==> i in st.counted && (st.tasks[i].Put? ==> i in st.stored)
    ensures !ok ==> !st.f.finalizeOk || (st.tasks[i].Put? && i !in st.stored)
  {
    assert Look(0);
    assert Shape(st);
    assert Point(st, i);
  }

  /** The chunk of the job is where its shard's table says. */
  predicate InPlace(s: Stream, key: Key) {
    key in s.jobs && key.shard in s.shards && (s.jobs[key].task.Put? ==> key.i in s.shards[key.shard].stored)
  }

  /** The shard has its table, durably, and every chunk it was given. */
  ghost predicate Complete(s: Stream, k: nat)
    requires k in s.shards
  {
    && s.shards[k].f.finalized && s.shards[k].f.finalizeOk
    && forall key :: key in s.jobs && key.shard == k ==> InPlace(s, key)
  }

  /** A failed job leaves its shard incomplete. */
  lemma FailureShows(s: Stream, key: Key, enc: TableCodec)
    requires Good(s, enc) && key in s.failed
    ensures key in s.jobs && key.shard in s.shards && !Complete(s, key.shard)
  {
    assert FailedOk(s, key);
    assert ShardOk(s, key.shard, enc);
    var st := s.shards[key.shard];
    if key.i in st.tasks {
      JobEnds(st, enc, key.i, false);
    } else {
      NotStored(st, enc, key.i);
    }
    assert !st.f.finalizeOk || !InPlace(s, key);
  }

  lemma NotStored(st: State, enc: TableCodec, i: nat)
    requires Sound(st, enc) && i !in st.tasks
    ensures i !in st.stored
  {
    assert Look(0);
  }

  /** A shard whose jobs have all succeeded has every chunk; and its table, if it has a job for each entry. */
  lemma SuccessShows(s: Stream, k: nat, enc: TableCodec)
    requires Good(s, enc) && k in s.shards && AllEnded(s, k) && forall key :: key in s.failed ==> key.shard != k
    ensures forall key :: key in s.jobs && key.shard == k ==> InPlace(s, key)
    ensures k in s.rolled ==> s.shards[k].f.finalized && s.shards[k].f.finalizeOk
  {
    assert ShardOk(s, k, enc);
    var st := s.shards[k];
    forall key | key in s.jobs && key.shard == k ensures InPlace(s, key) && At(st.runs, key.i, Returned(true)) {
      assert Ended(s, key) && key == Key(k, key.i);
      JobEnds(st, enc, key.i, true);
    }
    if k in s.rolled {
      forall i: nat | i < |st.f.offsets| ensures i in st.tasks && At(st.runs, i, Returned(true)) {
        assert Key(k, i) in s.jobs;
        TasksRun(st, enc, i);
      }
      AllDone(st, enc);
    }
  }

  lemma AllDone(st: State, enc: TableCodec)
    requires Sound(st, enc) && forall i: nat :: i < |st.f.offsets| ==> i in st.tasks && At(st.runs, i, Returned(true))
    ensures st.f.finalized && st.f.finalizeOk
  {
    assert Look(0);
    AllJobsSucceeded(st, enc);
  }

  lemma ClosedIsFinal(st: State, enc: TableCodec)
    requires Sound(st, enc) && st.closed
    ensures st.f.finalized
  {
    assert Look(0);
    assert Flags(st);
  }

  /** No job that was run inline has failed. */
  ghost predicate NoInlineFailure(s: Stream) {
    forall key :: key in s.failed ==> key in s.jobs && s.jobs[key].pooled
  }

  /**
   After any history that ends in a reported success: every shard is complete, of all generations, if and only if no
   job that was run inline has ended in failure.
   */
  lemma SuccessMeans(events: seq<Event>, enc: TableCodec)
    requires (forall o, e :: enc(o, e) != []) && IsHistory(Opened(), events, enc)
    ensures var s := Finally(Opened(), events, enc);
            s.reported == Some(true) ==> ((forall k :: k in s.shards ==> Complete(s, k)) <==> NoInlineFailure(s))
  {
    HistoriesGood(Opened(), events, enc);
    var s := Finally(Opened(), events, enc);
    if s.reported == Some(true) {
      SuccessOf(s, enc);
    }
  }

  lemma SuccessOf(s: Stream, enc: TableCodec)
    requires Good(s, enc) && s.reported == Some(true)
    ensures (forall k :: k in s.shards ==> Complete(s, k)) <==> NoInlineFailure(s)
  {
    forall key | key in s.failed ensures key in s.jobs && !s.jobs[key].pooled && key.shard in s.shards && !Complete(s, key.shard) {
      assert FailedOk(s, key);
      FailureShows(s, key, enc);
    }
    if NoInlineFailure(s) {
      forall k | k in s.shards ensures Complete(s, k) {
        assert ShardOk(s, k, enc);
        SuccessShows(s, k, enc);
        if k !in s.rolled {
          ClosedIsFinal(s.shards[k], enc);
        }
      }
    }
  }

  /** A complete shard reads back what its jobs were given. */
  lemma CompleteReadsBack(s: Stream, k: nat, i: nat, crc: Checksum)
    requires Good(s, TableOf(crc)) && k in s.shards && Complete(s, k) && Key(k, i) in s.jobs && i < |s.shards[k].f.offsets|
    ensures var f, n := s.shards[k].f, |s.shards[k].f.offsets|;
            |f.file| >= 16 * n + 4
            && ReadChunk(f.file, n, i) == match s.jobs[Key(k, i)].task case Put(data) => Some(data) case Skip => None
  {
    assert ShardOk(s, k, TableOf(crc)) && InPlace(s, Key(k, i));
    ShardReads(s.shards[k], i, crc);
  }

  lemma ShardReads(st: State, i: nat, crc: Checksum)
    requires Sound(st, TableOf(crc)) && st.f.finalized && st.f.finalizeOk && i < |st.f.offsets|
    ensures |st.f.file| >= 16 * |st.f.offsets| + 4
    ensures i in st.stored ==> i in st.tasks && IsPut(st.tasks, i) && ReadChunk(st.f.file, |st.f.offsets|, i) == Some(st.tasks[i].data)
    ensures !IsPut(st.tasks, i) ==> ReadChunk(st.f.file, |st.f.offsets|, i) == None
  {
    assert Look(0);
    FileReadsBack(st, crc, i);
    NotSized(st, i);
    assert Placed(st.f.fileOffset, st.tasks, st.claims);
  }

  // ----- A loss that is not reported ---------------------------------------------------------------------

  /** One shard of one entry, its job run inline after the pool has stopped, and where the shard is. */
  function Alone(st: State, failed: set<Key>, reported: Option<bool>): Stream {
    Stream(map[0 := st], {}, map[Key(0, 0) := Job(Put([1]), 3, false)], failed, false, true, reported)
  }

  /** Its chunk of one byte, the attempts left, and the extent claimed. */
  function Trial(left: nat, pc: Pc, f: Fields, claims: map<nat, Extent>, layout: seq<Extent>): State {
    State(f, map[0 := Put([1])], map[0 := ShardMachine.Run(left, pc)], claims, layout, {}, {}, false)
  }

  lemma Before(s: Stream, e: Event, t: Stream, rest: seq<Event>, enc: TableCodec) returns (events: seq<Event>)
    requires CanHappen(s, e) && After(s, e, enc) == t && IsHistory(t, rest, enc)
    ensures IsHistory(s, events, enc) && Finally(s, events, enc) == Finally(t, rest, enc)
  {
    events := [e] + rest;
    assert events[1..] == rest;
  }

  /** A step of the shard that does not end the job. */
  lemma Moves(st: State, step: Step, st': State, rest: seq<Event>, enc: TableCodec) returns (events: seq<Event>)
    requires !step.Close? && Enabled(st, step) && Apply(st, step, enc) == st' && !At(st'.runs, step.i, Returned(false))
    requires step.Submit? ==> step == Submit(0, Put([1]), 3)
    requires IsHistory(Alone(st', {}, None), rest, enc)
    ensures IsHistory(Alone(st, {}, None), events, enc)
    ensures Finally(Alone(st, {}, None), events, enc) == Finally(Alone(st', {}, None), rest, enc)
  {
    events := Before(Alone(st, {}, None), Progress(0, step), Alone(st', {}, None), rest, enc);
  }

  /** An attempt that is not the last: its write is lost. */
  lemma LosesAgain(left: nat, f: Fields, c: map<nat, Extent>, l: seq<Extent>, rest: seq<Event>, enc: TableCodec) returns (events: seq<Event>)
    requires left > 1 && |f.offsets| == |f.extents| == 1 && f.offsets[0] == 0 && f.file == [] && !f.finalized
    requires IsHistory(Alone(Trial(left - 1, Start, f, c, l), {}, None), rest, enc)
    ensures IsHistory(Alone(Trial(left, Start, f, c, l), {}, None), events, enc)
    ensures Finally(Alone(Trial(left, Start, f, c, l), {}, None), events, enc)
            == Finally(Alone(Trial(left - 1, Start, f, c, l), {}, None), rest, enc)
  {
    events := Moves(Trial(left, Claimed, f, c, l), Write(0, Lost([])), Trial(left - 1, Start, f, c, l), rest, enc);
    events := Returns(left, f, c, l, events, enc);
  }

  /** A retry finds the extent of the first attempt. */
  lemma Returns(left: nat, f: Fields, c: map<nat, Extent>, l: seq<Extent>, rest: seq<Event>, enc: TableCodec) returns (events: seq<Event>)
    requires |f.offsets| == |f.extents| == 1 && f.offsets[0] == 0 && !f.finalized
    requires IsHistory(Alone(Trial(left, Claimed, f, c, l), {}, None), rest, enc)
    ensures IsHistory(Alone(Trial(left, Start, f, c, l), {}, None), events, enc)
    ensures Finally(Alone(Trial(left, Start, f, c, l), {}, None), events, enc)
            == Finally(Alone(Trial(left, Claimed, f, c, l), {}, None), rest, enc)
  {
    events := Moves(Trial(left, Entered, f, c, l), Record(0), Trial(left, Claimed, f, c, l), rest, enc);
    events := Moves(Trial(left, Start, f, c, l), Check(0), Trial(left, Entered, f, c, l), events, enc);
  }

  /** A step of the shard that ends the job in failure. */
  lemma Fails(st: State, step: Step, st': State, rest: seq<Event>, enc: TableCodec) returns (events: seq<Event>)
    requires !step.Close? && !step.Submit? && step.i == 0 && Enabled(st, step) && Apply(st, step, enc) == st'
    requires At(st'.runs, 0, Returned(false)) && IsHistory(Alone(st', {Key(0, 0)}, None), rest, enc)
    ensures IsHistory(Alone(st, {}, None), events, enc)
    ensures Finally(Alone(st, {}, None), events, enc) == Finally(Alone(st', {Key(0, 0)}, None), rest, enc)
  {
    assert {} + {Key(0, 0)} == {Key(0, 0)};
    events := Before(Alone(st, {}, None), Progress(0, step), Alone(st', {Key(0, 0)}, None), rest, enc);
  }

  /** The array closes the shard, with success, and reports. */
  lemma Closes(st: State, done: State, enc: TableCodec) returns (events: seq<Event>)
    requires Enabled(st, Close(Landed, true)) && done == Apply(st, Close(Landed, true), enc) && done.f.finalizeOk
    requires At(st.runs, 0, Returned(false))
    ensures IsHistory(Alone(st, {Key(0, 0)}, None), events, enc)
    ensures Finally(Alone(st, {Key(0, 0)}, None), events, enc) == Alone(done, {Key(0, 0)}, Some(true))
  {
    var failed := {Key(0, 0)};
    assert Ended(Alone(st, failed, None), Key(0, 0)) && Ended(Alone(done, failed, None), Key(0, 0));
    events := Before(Alone(done, failed, None), Report, Alone(done, failed, Some(true)), [], enc);
    events := Before(Alone(st, failed, None), Finish(0, Landed, true), Alone(done, failed, None), events, enc);
  }

  /** The last one, and the close that succeeds. */
  lemma LosesLast(f: Fields, c: map<nat, Extent>, l: seq<Extent>, done: State, enc: TableCodec) returns (events: seq<Event>)
    requires |f.offsets| == |f.extents| == 1 && f.offsets[0] == 0 && f.file == [] && !f.finalized && !f.tableFlushed
    requires done == Trial(1, Returned(false), Finalize(f, enc(f.offsets, f.extents), Landed, true), c, l).(closed := true)
    ensures IsHistory(Alone(Trial(1, Start, f, c, l), {}, None), events, enc)
    ensures Finally(Alone(Trial(1, Start, f, c, l), {}, None), events, enc) == Alone(done, {Key(0, 0)}, Some(true))
  {
    events := Closes(Trial(1, Returned(false), f, c, l), done, enc);
    events := Fails(Trial(1, Claimed, f, c, l), Write(0, Lost([])), Trial(1, Returned(false), f, c, l), events, enc);
    events := Returns(1, f, c, l, events, enc);
  }

  /** The first one, which claims the extent. */
  lemma LosesFirst(f0: Fields, f1: Fields, f2: Fields, e: Extent, rest: seq<Event>, enc: TableCodec) returns (events: seq<Event>)
    requires f0 == Fresh(1) && f1 == StoreExtent(f0, 0, 1) && f2 == ClaimOffset(f1, 0, 1) && e == Extent(0, 0, 1)
    requires IsHistory(Alone(Trial(2, Start, f2, map[0 := e], [e]), {}, None), rest, enc)
    ensures IsHistory(Alone(Init(1), {}, None), events, enc)
    ensures Finally(Alone(Init(1), {}, None), events, enc) == Finally(Alone(Trial(2, Start, f2, map[0 := e], [e]), {}, None), rest, enc)
  {
    events := Moves(Trial(3, Claimed, f2, map[0 := e], [e]), Write(0, Lost([])), Trial(2, Start, f2, map[0 := e], [e]), rest, enc);
    events := Moves(Trial(3, Sized, f1, map[], []), Claim(0), Trial(3, Claimed, f2, map[0 := e], [e]), events, enc);
    events := Sizes(f0, f1, events, enc);
  }

  lemma Sizes(f0: Fields, f1: Fields, rest: seq<Event>, enc: TableCodec) returns (events: seq<Event>)
    requires f0 == Fresh(1) && f1 == StoreExtent(f0, 0, 1) && IsHistory(Alone(Trial(3, Sized, f1, map[], []), {}, None), rest, enc)
    ensures IsHistory(Alone(Init(1), {}, None), events, enc)
    ensures Finally(Alone(Init(1), {}, None), events, enc) == Finally(Alone(Trial(3, Sized, f1, map[], []), {}, None), rest, enc)
  {
    events := Moves(Trial(3, Entered, f0, map[], []), Record(0), Trial(3, Sized, f1, map[], []), rest, enc);
    events := Moves(Trial(3, Start, f0, map[], []), Check(0), Trial(3, Entered, f0, map[], []), events, enc);
    events := Moves(Init(1), Submit(0, Put([1]), 3), Trial(3, Start, f0, map[], []), events, enc);
  }

  /** The pool has stopped, so the job is refused and run inline; all its writes are lost; success is reported. */
  lemma LossNotReported(enc: TableCodec) returns (events: seq<Event>)
    ensures IsHistory(Opened(), events, enc)
    ensures var s := Finally(Opened(), events, enc);
            s.reported == Some(true) && 0 in s.shards && s.shards[0].f.finalizeOk && Key(0, 0) in s.jobs && !InPlace(s, Key(0, 0))
  {
    var f1, e := StoreExtent(Fresh(1), 0, 1), Extent(0, 0, 1);
    var f2 := ClaimOffset(f1, 0, 1);
    var done;
    events, done := LosesAll(f2, map[0 := e], [e], enc);
    events := LosesFirst(Fresh(1), f1, f2, e, events, enc);
    events := Opening(events, enc);
    Unplaced(done);
  }

  lemma LosesAll(f: Fields, c: map<nat, Extent>, l: seq<Extent>, enc: TableCodec) returns (events: seq<Event>, done: State)
    requires |f.offsets| == |f.extents| == 1 && f.offsets[0] == 0 && f.file == [] && !f.finalized && !f.tableFlushed
    ensures done.f.finalizeOk && done.stored == {}
    ensures IsHistory(Alone(Trial(2, Start, f, c, l), {}, None), events, enc)
    ensures Finally(Alone(Trial(2, Start, f, c, l), {}, None), events, enc) == Alone(done, {Key(0, 0)}, Some(true))
  {
    done := Trial(1, Returned(false), Finalize(f, enc(f.offsets, f.extents), Landed, true), c, l).(closed := true);
    events := LosesLast(f, c, l, done, enc);
    events := LosesAgain(2, f, c, l, events, enc);
  }

  lemma Unplaced(done: State)
    requires done.stored == {}
    ensures !InPlace(Alone(done, {Key(0, 0)}, Some(true)), Key(0, 0))
  {
  }

  lemma Opening(rest: seq<Event>, enc: TableCodec) returns (events: seq<Event>)
    requires IsHistory(Alone(Init(1), {}, None), rest, enc)
    ensures IsHistory(Opened(), events, enc) && Finally(Opened(), events, enc) == Finally(Alone(Init(1), {}, None), rest, enc)
  {
    var made := Opened().(shards := map[0 := Init(1)]);
    events := Before(made.(stopped := true), Dispatch(Key(0, 0), Job(Put([1]), 3, false)), Alone(Init(1), {}, None), rest, enc);
    events := Before(made, StopPool, made.(stopped := true), events, enc);
    events := Before(Opened(), Make(0, 1), made, events, enc);
  }
}
