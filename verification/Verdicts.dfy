/**
 When the report of a closed stream is failure (src/streaming/zarr.stream.cpp, finalize_stream; src/streaming/array.cpp, close_).
 */
module Verdicts {
  import opened Wrappers
  import opened Closing
  import opened ShardFormat
  import opened Shard
  import opened ShardMachine
  import opened Reporting

  /** A job that the pool took has ended in failure. */
  ghost predicate PooledFailure(s: Stream) {
    exists key :: key in s.failed && key in s.jobs && s.jobs[key].pooled
  }

  /** A shard that the closing array had to finalise, and could not. */
  ghost predicate CloseFailure(s: Stream) {
    exists k :: k in s.shards && k !in s.rolled && !s.shards[k].f.finalizeOk
  }

  /** A recorded error, and a reported failure, have a cause. */
  ghost predicate Blamed(s: Stream) {
    && (s.error ==> PooledFailure(s))
    && (s.reported.Some? ==> s.stopped)
    && (s.reported == Some(false) ==> PooledFailure(s) || CloseFailure(s))
  }

  lemma PooledStays(s: Stream, t: Stream)
    requires PooledFailure(s) && s.failed <= t.failed && forall key :: key in s.failed && key in s.jobs ==> key in t.jobs && t.jobs[key] == s.jobs[key]
    ensures PooledFailure(t)
  {
    var key :| key in s.failed && key in s.jobs && s.jobs[key].pooled;
    assert key in t.failed && key in t.jobs && t.jobs[key].pooled;
  }

  lemma CloseStays(s: Stream, t: Stream)
    requires CloseFailure(s) && t.rolled == s.rolled && forall k :: k in s.shards && k !in s.rolled ==> k in t.shards && t.shards[k] == s.shards[k]
    ensures CloseFailure(t)
  {
    var k :| k in s.shards && k !in s.rolled && !s.shards[k].f.finalizeOk;
    assert k in t.shards && !t.shards[k].f.finalizeOk;
  }

  lemma FailBlamed(s: Stream, key: Key)
    requires Blamed(s) && s.reported.None?
    ensures Blamed(Fail(s, key))
  {
    var t := Fail(s, key);
    if s.error {
      PooledStays(s, t);
    } else if t.error {
      assert key in t.failed && key in t.jobs && t.jobs[key].pooled;
    }
  }

  lemma EventBlamed(s: Stream, e: Event, enc: TableCodec)
    requires Blamed(s) && CanHappen(s, e)
    ensures Blamed(After(s, e, enc))
  {
    var t := After(s, e, enc);
    if e.GiveUp? {
      FailBlamed(s, e.key);
    } else if e.Progress? {
      var u := s.(shards := s.shards[e.k := Apply(s.shards[e.k], e.step, enc)]);
      if s.error {
        PooledStays(s, u);
      }
      FailBlamed(u, Key(e.k, e.step.i));
    } else {
      if PooledFailure(s) {
        PooledStays(s, t);
      }
      if s.reported == Some(false) && CloseFailure(s) {
        CloseStays(s, t);
      }
    }
  }

  lemma {:induction false} HistoryBlamed(s: Stream, events: seq<Event>, enc: TableCodec)
    requires Blamed(s) && IsHistory(s, events, enc)
    ensures Blamed(Finally(s, events, enc))
    decreases |events|
  {
    if events != [] {
      EventBlamed(s, events[0], enc);
      HistoryBlamed(After(s, events[0], enc), events[1..], enc);
    }
  }

  /**
   After any history that ends in a report: it is success if and only if no job of the pool has failed and every
   shard that no rollover has left behind was finalised well; so failure always has such a cause.
   */
  lemma ReportMeans(events: seq<Event>, enc: TableCodec)
    requires (forall o, e :: enc(o, e) != []) && IsHistory(Opened(), events, enc)
    ensures var s := Finally(Opened(), events, enc);
            s.reported.Some? ==>
              (s.reported.value <==> (forall key :: key in s.failed && key in s.jobs ==> !s.jobs[key].pooled)
                                     && forall k :: k in s.shards && k !in s.rolled ==> s.shards[k].f.finalizeOk)
  {
    HistoriesGood(Opened(), events, enc);
    HistoryBlamed(Opened(), events, enc);
    var s := Finally(Opened(), events, enc);
    if s.reported == Some(true) {
      assert forall key :: key in s.failed ==> FailedOk(s, key);
      assert forall k :: k in s.shards && k !in s.rolled ==> Open(s, k);
    }
  }

  // ----- A rollover and success ---------------------------------------------------------------------------

  /** One shard of one entry, and its job, that the pool has taken. */
  function One(st: State, rolled: set<nat>, stopped: bool, reported: Option<bool>): Stream {
    Stream(map[0 := st], rolled, map[Key(0, 0) := Job(Skip, 3, true)], {}, false, stopped, reported)
  }

  lemma Goes(st: State, step: Step, st': State, rest: seq<Event>, enc: TableCodec) returns (events: seq<Event>)
    requires !step.Close? && Enabled(st, step) && Apply(st, step, enc) == st' && !At(st'.runs, step.i, Returned(false))
    requires step.Submit? ==> step == Submit(0, Skip, 3)
    requires IsHistory(One(st', {}, false, None), rest, enc)
    ensures IsHistory(One(st, {}, false, None), events, enc)
    ensures Finally(One(st, {}, false, None), events, enc) == Finally(One(st', {}, false, None), rest, enc)
  {
    events := Before(One(st, {}, false, None), Progress(0, step), One(st', {}, false, None), rest, enc);
  }

  /** The shard is left behind, the pool stops, and nothing is open: success. */
  lemma RolledOver(st: State, enc: TableCodec) returns (events: seq<Event>)
    requires At(st.runs, 0, Returned(true)) && |st.f.offsets| == 1
    ensures IsHistory(One(st, {}, false, None), events, enc)
    ensures Finally(One(st, {}, false, None), events, enc) == One(st, {0}, true, Some(true))
  {
    assert Ended(One(st, {0}, false, None), Key(0, 0)) && Ended(One(st, {0}, true, None), Key(0, 0));
    events := Before(One(st, {0}, true, None), Report, One(st, {0}, true, Some(true)), [], enc);
    events := Before(One(st, {0}, false, None), StopPool, One(st, {0}, true, None), events, enc);
    assert {} + {0} == {0};
    events := Before(One(st, {}, false, None), RollOver(0), One(st, {0}, false, None), events, enc);
  }

  function Skipping(pc: Pc, f: Fields, counted: set<nat>): State {
    State(f, map[0 := Skip], map[0 := ShardMachine.Run(3, pc)], map[], [], {}, counted, false)
  }

  /** The last two steps: the only entry is counted, and the table is written. */
  lemma CountsAndPublishes(f: Fields, enc: TableCodec) returns (events: seq<Event>, done: State)
    requires f.unwritten == 1 && |f.offsets| == |f.extents| == 1 && !f.finalized && !f.tableFlushed
    ensures done.f.finalizeOk && done.tasks == map[0 := Skip]
    ensures IsHistory(One(Skipping(Stored, f, {}), {}, false, None), events, enc)
    ensures Finally(One(Skipping(Stored, f, {}), {}, false, None), events, enc) == One(done, {0}, true, Some(true))
  {
    var f1 := CountDown(f);
    done := Skipping(Returned(true), Finalize(f1, enc(f1.offsets, f1.extents), Landed, true), {0});
    events := RolledOver(done, enc);
    events := Goes(Skipping(Last, f1, {0}), Publish(0, Landed, true), done, events, enc);
    assert {} + {0} == {0};
    events := Goes(Skipping(Stored, f, {}), Count(0), Skipping(Last, f1, {0}), events, enc);
  }

  /** The first ones: the job looks at the shard, and stores the empty pair. */
  lemma LooksAndSkips(f: Fields, f1: Fields, rest: seq<Event>, enc: TableCodec) returns (events: seq<Event>)
    requires f == Fresh(1) && f1 == StoreSkip(f, 0) && IsHistory(One(Skipping(Stored, f1, {}), {}, false, None), rest, enc)
    ensures IsHistory(One(Init(1), {}, false, None), events, enc)
    ensures Finally(One(Init(1), {}, false, None), events, enc) == Finally(One(Skipping(Stored, f1, {}), {}, false, None), rest, enc)
  {
    events := Goes(Skipping(Entered, f, {}), Record(0), Skipping(Stored, f1, {}), rest, enc);
    events := Goes(Skipping(Start, f, {}), Check(0), Skipping(Entered, f, {}), events, enc);
    events := Goes(Init(1), Submit(0, Skip, 3), Skipping(Start, f, {}), events, enc);
  }

  lemma Opens(rest: seq<Event>, enc: TableCodec) returns (events: seq<Event>)
    requires IsHistory(One(Init(1), {}, false, None), rest, enc)
    ensures IsHistory(Opened(), events, enc) && Finally(Opened(), events, enc) == Finally(One(Init(1), {}, false, None), rest, enc)
  {
    var made := Opened().(shards := map[0 := Init(1)]);
    events := Before(made, Dispatch(Key(0, 0), Job(Skip, 3, true)), One(Init(1), {}, false, None), rest, enc);
    events := Before(Opened(), Make(0, 1), made, events, enc);
  }

  /** A generation of one skipped chunk is left behind before the stream ends: success is reported, the shard is finalised. */
  lemma RolloverReported(enc: TableCodec) returns (events: seq<Event>)
    ensures IsHistory(Opened(), events, enc)
    ensures var s := Finally(Opened(), events, enc);
            s.reported == Some(true) && s.rolled == {0} && 0 in s.shards && s.shards[0].f.finalizeOk && s.shards[0].tasks == map[0 := Skip]
  {
    var done;
    events, done := CountsAndPublishes(StoreSkip(Fresh(1), 0), enc);
    events := LooksAndSkips(Fresh(1), StoreSkip(Fresh(1), 0), events, enc);
    events := Opens(events, enc);
  }

  // ----- Both causes of failure -----------------------------------------------------------------------------

  /** One shard of one entry, whose job the pool has taken; its chunk cannot be encoded. */
  function Unencoded(failed: bool, stopped: bool, reported: Option<bool>): Stream {
    Stream(map[0 := Init(1)], {}, map[Key(0, 0) := Job(Put([1]), 3, true)], if failed then {Key(0, 0)} else {}, failed, stopped, reported)
  }

  /** A pooled job that gives up is reported, before any array is closed. */
  lemma GivingUpReported(enc: TableCodec) returns (events: seq<Event>)
    ensures IsHistory(Opened(), events, enc)
    ensures var s := Finally(Opened(), events, enc); s.reported == Some(false) && s.failed == {Key(0, 0)} && s.error
  {
    var made := Opened().(shards := map[0 := Init(1)]);
    assert {} + {Key(0, 0)} == {Key(0, 0)};
    events := Before(Unencoded(true, false, None), StopPool, Unencoded(true, true, Some(false)), [], enc);
    events := Before(Unencoded(false, false, None), GiveUp(Key(0, 0)), Unencoded(true, false, None), events, enc);
    events := Before(made, Dispatch(Key(0, 0), Job(Put([1]), 3, true)), Unencoded(false, false, None), events, enc);
    events := Before(Opened(), Make(0, 1), made, events, enc);
  }

  /** One shard of one entry, no job. */
  function Idle(st: State, stopped: bool, reported: Option<bool>): Stream {
    Stream(map[0 := st], {}, map[], {}, false, stopped, reported)
  }

  /** So is a flush that fails when the array closes, though no job has. */
  lemma FlushFailureReported(enc: TableCodec) returns (events: seq<Event>)
    ensures IsHistory(Opened(), events, enc)
    ensures var s := Finally(Opened(), events, enc); s.reported == Some(false) && s.failed == {} && !s.error
  {
    var st := Apply(Init(1), Close(Landed, false), enc);
    assert Open(Idle(st, true, None), 0) && !st.f.finalizeOk;
    events := Before(Idle(st, true, None), Report, Idle(st, true, Some(false)), [], enc);
    events := Before(Idle(Init(1), true, None), Finish(0, Landed, false), Idle(st, true, None), events, enc);
    events := Before(Idle(Init(1), false, None), StopPool, Idle(Init(1), true, None), events, enc);
    events := Before(Opened(), Make(0, 1), Idle(Init(1), false, None), events, enc);
  }
}
