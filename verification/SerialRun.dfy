/**
 Jobs whose bytes fit can be carried out (src/streaming/shard.cpp): one after the other, each write landing, then the
 close.

 Between jobs the shard is calm: no thread is inside a call, every one has returned success, and the table is out
 exactly if no entry is left.  From calm to calm a job takes its steps: it is submitted, looks at the shard, claims
 the next free extent and writes its chunk, or stores the empty pair; it counts down, and publishes if it was the last.
 The extents of the jobs so far add up to the file offset, so it is enough that all jobs together fit.
 */
module SerialRun {
  import opened ShardFormat
  import opened Shard
  import opened ShardMachine
  import opened Permutation
  import opened Closing

  function SizeOf(t: Task): nat {
    match t
    case Put(data) => |data|
    case Skip => 0
  }

  /** Bytes of the jobs of the first `m` entries. */
  function TotalBelow(jobs: map<nat, Task>, m: nat): nat {
    if m == 0 then 0 else TotalBelow(jobs, m - 1) + if m - 1 in jobs then SizeOf(jobs[m - 1]) else 0
  }

  /** Nobody is at work, everyone has succeeded, and the table is out exactly if nothing is left to write. */
  ghost predicate Calm(s: State) {
    && !s.closed && (forall j :: j in s.runs ==> s.runs[j].pc == Returned(true))
    && (s.f.finalized <==> s.f.unwritten == 0) && (s.f.finalized ==> s.f.finalizeOk)
  }

  lemma {:induction false} RunThen(s: State, a: seq<Step>, b: seq<Step>, enc: TableCodec)
    requires IsRun(s, a, enc) && IsRun(Outcome(s, a, enc), b, enc)
    ensures IsRun(s, a + b, enc) && Outcome(s, a + b, enc) == Outcome(Outcome(s, a, enc), b, enc)
    decreases |a|
  {
    if a == [] {
      assert a + b == b;
    } else {
      var t := Apply(s, a[0], enc);
      RunThen(t, a[1..], b, enc);
      assert (a + b)[0] == a[0] && (a + b)[1..] == a[1..] + b;
      assert IsRun(t, (a + b)[1..], enc);
    }
  }

  /** The thread of job `i`, at a program point. */
  function Working(s: State, i: nat, task: Task, pc: Pc): State {
    s.(tasks := s.tasks[i := task], runs := s.runs[i := Run(1, pc)])
  }

  /** From the stored chunk, or the skip, to the end of the job. */
  lemma CountsOff(s: State, i: nat, enc: TableCodec) returns (steps: seq<Step>, t: State)
    requires At(s.runs, i, Stored) && s.runs[i].left == 1 && s.f.unwritten > 0 && !s.f.finalized && !s.closed
    requires forall j :: j in s.runs && j != i ==> s.runs[j].pc == Returned(true)
    ensures IsRun(s, steps, enc) && Outcome(s, steps, enc) == t && Calm(t)
    ensures t.tasks == s.tasks && t.f.fileOffset == s.f.fileOffset && |t.f.offsets| == |s.f.offsets|
  {
    t := Apply(s, Count(i), enc);
    steps := [];
    if s.f.unwritten == 1 {
      var u := Apply(t, Publish(i, Landed, true), enc);
      steps := Prepend(t, Publish(i, Landed, true), u, [], enc);
      steps := Prepend(s, Count(i), t, steps, enc);
      t := u;
    } else {
      steps := Prepend(s, Count(i), t, [], enc);
    }
  }

  /** A chunk is claimed behind the others and lands. */
  lemma Stores(s: State, i: nat, task: Task, enc: TableCodec) returns (steps: seq<Step>, t: State)
    requires At(s.runs, i, Entered) && s.runs[i].left == 1 && i in s.tasks && s.tasks[i] == task && task.Put?
    requires i < |s.f.offsets| == |s.f.extents| && s.f.offsets[i] == EMPTY && s.f.fileOffset + SizeOf(task) < EMPTY
    ensures IsRun(s, steps, enc) && Outcome(s, steps, enc) == t && IsStored(s, t, i, SizeOf(task))
  {
    var a := Apply(s, Record(i), enc);
    var b := Apply(a, Claim(i), enc);
    t := Apply(b, Write(i, Landed), enc);
    steps := Prepend(b, Write(i, Landed), t, [], enc);
    steps := Prepend(a, Claim(i), b, steps, enc);
    steps := Prepend(s, Record(i), a, steps, enc);
  }

  /** A skip needs no room. */
  lemma Skips(s: State, i: nat, enc: TableCodec) returns (steps: seq<Step>, t: State)
    requires At(s.runs, i, Entered) && s.runs[i].left == 1 && i in s.tasks && s.tasks[i].Skip?
    requires i < |s.f.offsets| == |s.f.extents|
    ensures IsRun(s, steps, enc) && Outcome(s, steps, enc) == t && IsStored(s, t, i, 0)
  {
    t := Apply(s, Record(i), enc);
    steps := Prepend(s, Record(i), t, [], enc);
  }

  predicate IsStored(s: State, t: State, i: nat, size: nat) {
    && i in s.runs && t.tasks == s.tasks && t.runs == s.runs[i := Run(1, Stored)] && t.closed == s.closed
    && t.f.unwritten == s.f.unwritten && t.f.finalized == s.f.finalized
    && t.f.fileOffset == s.f.fileOffset + size && |t.f.offsets| == |s.f.offsets|
  }

  /** The thread of a new job, past its first look at the shard. */
  lemma Enters(s: State, i: nat, task: Task, enc: TableCodec) returns (steps: seq<Step>, t: State)
    requires i < |s.f.offsets| && i !in s.tasks && i !in s.runs && !s.closed && !s.f.finalized
    ensures t == s.(tasks := s.tasks[i := task], runs := s.runs[i := Run(1, Entered)])
    ensures IsRun(s, steps, enc) && Outcome(s, steps, enc) == t
  {
    var a := Apply(s, Submit(i, task, 1), enc);
    t := Apply(a, Check(i), enc);
    steps := Prepend(a, Check(i), t, [], enc);
    steps := Prepend(s, Submit(i, task, 1), a, steps, enc);
  }

  /** There is an entry without a job, so the countdown goes on; and its offset is still the empty one. */
  lemma EntryFree(s: State, i: nat, enc: TableCodec)
    requires Inv(s, enc) && i < |s.f.offsets| && i !in s.tasks
    ensures s.f.unwritten > 0 && s.f.offsets[i] == EMPTY && |s.f.extents| == |s.f.offsets| && i !in s.runs
  {
    assert s.counted <= Below(|s.f.offsets|) - {i};
    SubsetSize(s.counted, Below(|s.f.offsets|) - {i});
    assert i !in s.claims;
  }

  /** One job, from calm to calm. */
  lemma OneJob(s: State, i: nat, task: Task, enc: TableCodec) returns (steps: seq<Step>, t: State)
    requires (forall o, e :: enc(o, e) != []) && Inv(s, enc) && Calm(s) && i < |s.f.offsets| && i !in s.tasks
    requires s.f.fileOffset + SizeOf(task) < EMPTY
    ensures IsRun(s, steps, enc) && Outcome(s, steps, enc) == t && Inv(t, enc) && Calm(t)
    ensures t.tasks == s.tasks[i := task] && t.f.fileOffset == s.f.fileOffset + SizeOf(task) && |t.f.offsets| == |s.f.offsets|
  {
    EntryFree(s, i, enc);
    steps, t := Works(s, i, task, enc);
    RunsKeepInv(s, steps, enc);
  }

  lemma Works(s: State, i: nat, task: Task, enc: TableCodec) returns (steps: seq<Step>, t: State)
    requires Calm(s) && i < |s.f.offsets| == |s.f.extents| && i !in s.tasks && i !in s.runs
    requires s.f.unwritten > 0 && s.f.offsets[i] == EMPTY && s.f.fileOffset + SizeOf(task) < EMPTY
    ensures IsRun(s, steps, enc) && Outcome(s, steps, enc) == t && Calm(t)
    ensures t.tasks == s.tasks[i := task] && t.f.fileOffset == s.f.fileOffset + SizeOf(task) && |t.f.offsets| == |s.f.offsets|
  {
    var a, more;
    steps, a := Enters(s, i, task, enc);
    if task.Put? {
      more, t := Stores(a, i, task, enc);
    } else {
      more, t := Skips(a, i, enc);
    }
    RunThen(s, steps, more, enc);
    var rest, u := CountsOff(t, i, enc);
    RunThen(s, steps + more, rest, enc);
    steps, t := steps + more + rest, u;
  }

  /** Kept closed. */
  ghost predicate Steady(t: State, enc: TableCodec) {
    forall x {:trigger Look(x)} :: Look(x) ==> Inv(t, enc) && Calm(t)
  }

  /** Calm, after the jobs of the first `m` entries. */
  ghost predicate Did(n: nat, jobs: map<nat, Task>, m: nat, t: State, enc: TableCodec) {
    && Steady(t, enc) && |t.f.offsets| == n && t.f.fileOffset == TotalBelow(jobs, m)
    && (forall i :: i in t.tasks <==> i in jobs && i < m) && forall i :: i in t.tasks ==> t.tasks[i] == jobs[i]
  }

  lemma DidNothing(n: nat, jobs: map<nat, Task>, enc: TableCodec)
    requires n > 0
    ensures Did(n, jobs, 0, Init(n), enc)
  {
    InitInv(n, enc);
  }

  lemma SteadyJob(s: State, i: nat, task: Task, enc: TableCodec) returns (steps: seq<Step>, t: State)
    requires (forall o, e :: enc(o, e) != []) && Steady(s, enc) && i < |s.f.offsets| && i !in s.tasks
    requires s.f.fileOffset + SizeOf(task) < EMPTY
    ensures IsRun(s, steps, enc) && Outcome(s, steps, enc) == t && Steady(t, enc)
    ensures t.tasks == s.tasks[i := task] && t.f.fileOffset == s.f.fileOffset + SizeOf(task) && |t.f.offsets| == |s.f.offsets|
  {
    assert Look(0);
    steps, t := OneJob(s, i, task, enc);
  }

  lemma DidOneMore(n: nat, jobs: map<nat, Task>, m: nat, s: State, enc: TableCodec) returns (steps: seq<Step>, t: State)
    requires (forall o, e :: enc(o, e) != []) && m < n && TotalBelow(jobs, m + 1) < EMPTY && Did(n, jobs, m, s, enc)
    ensures IsRun(s, steps, enc) && Outcome(s, steps, enc) == t && Did(n, jobs, m + 1, t, enc)
  {
    steps, t := [], s;
    if m in jobs {
      steps, t := SteadyJob(s, m, jobs[m], enc);
    }
  }

  /** The jobs of the first `m` entries. */
  lemma {:induction false} FirstJobs(n: nat, jobs: map<nat, Task>, m: nat, enc: TableCodec) returns (steps: seq<Step>, t: State)
    requires (forall o, e :: enc(o, e) != []) && 0 < n && m <= n && TotalBelow(jobs, m) < EMPTY
    ensures IsRun(Init(n), steps, enc) && Outcome(Init(n), steps, enc) == t && Did(n, jobs, m, t, enc)
  {
    if m == 0 {
      DidNothing(n, jobs, enc);
      steps, t := [], Init(n);
    } else {
      var s;
      steps, s := FirstJobs(n, jobs, m - 1, enc);
      var more, u := DidOneMore(n, jobs, m - 1, s, enc);
      RunThen(Init(n), steps, more, enc);
      steps, t := steps + more, u;
    }
  }

  /** All jobs, and then the close: every job has succeeded, and so has the shard. */
  lemma AllJobs(n: nat, jobs: map<nat, Task>, enc: TableCodec) returns (steps: seq<Step>, t: State)
    requires (forall o, e :: enc(o, e) != []) && n > 0 && (forall i :: i in jobs ==> i < n) && TotalBelow(jobs, n) < EMPTY
    ensures IsRun(Init(n), steps, enc) && Outcome(Init(n), steps, enc) == t
    ensures t.tasks == jobs && (forall i :: i in jobs ==> At(t.runs, i, Returned(true))) && t.closed && t.f.finalizeOk
  {
    var s;
    steps, s := FirstJobs(n, jobs, n, enc);
    assert Look(0);
    assert s.tasks == jobs;
    Shaped(s, enc);
    t := Apply(s, Close(Landed, true), enc);
    var more := Prepend(s, Close(Landed, true), t, [], enc);
    RunThen(Init(n), steps, more, enc);
    steps := steps + more;
  }

  lemma Shaped(s: State, enc: TableCodec)
    requires Inv(s, enc)
    ensures forall i :: i in s.tasks <==> i in s.runs
  {
    assert Shape(s);
  }
}
