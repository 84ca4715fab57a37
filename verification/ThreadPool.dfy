/**
 Every interleaving of the workers of a thread pool (src/streaming/thread.pool.cpp) and the threads that
 push jobs; and the counter of outstanding writes that array jobs keep (src/streaming/array.cpp).
 */
module ThreadPools {
  import opened Wrappers

  datatype TaskResult = Success | Retry | Fatal

  datatype Job = Job(id: nat, maxRetries: nat, attempt: nat)

  datatype Worker = Waiting | Running(job: Job) | Exited

  /** History of an accepted job: where it is, retries allowed, times started, whether it asked for a retry. */
  datatype Where = Queued | Held(w: nat) | Done
  datatype Record = Record(at: Where, allowed: nat, starts: nat, retried: bool)

  datatype State = State(
    accepting: bool,
    queue: seq<Job>,
    workers: seq<Worker>,
    errors: nat,
    stopping: bool,
    records: seq<Record>,
    inline: nat,
    inlineRetried: bool,
    writeCounter: int)

  datatype Step =
    | PushJob(maxRetries: Option<nat>)       // a job that is not accepted is run inline instead
    | RunInline                              // with a single thread, without asking the pool
    | FinishInline(result: TaskResult, again: bool)
    | Take(w: nat)
    | Finish(w: nat, result: TaskResult)
    | Exit(w: nat)
    | Stop

  function Init(threads: nat): State {
    State(true, [], seq(threads, i => Waiting), 0, false, [], 0, false, 0)
  }

  predicate ShouldStop(s: State) {
    !s.accepting && s.queue == []
  }

  predicate Enabled(s: State, step: Step) {
    match step
    case PushJob(_) => true
    case RunInline => true
    case FinishInline(result, again) => s.inline > 0 && (again ==> result.Retry?)
    case Take(w) => w < |s.workers| && s.workers[w].Waiting? && s.queue != [] && s.queue[0].id < |s.records|
    case Finish(w, _) => w < |s.workers| && s.workers[w].Running? && s.workers[w].job.id < |s.records|
    case Exit(w) => w < |s.workers| && s.workers[w].Waiting? && ShouldStop(s)
    case Stop => true
  }

  function Retries(maxRetries: Option<nat>): nat {
    if maxRetries.Some? then maxRetries.value else 1
  }

  function Put(records: seq<Record>, id: nat, r: Record): seq<Record>
    requires id < |records|
  {
    records[id := r]
  }

  /** The dispatcher runs the job itself, and counts it all the same. */
  function BeginInline(s: State): State {
    s.(inline := s.inline + 1, writeCounter := s.writeCounter + 1)
  }

  function Apply(s: State, step: Step): State
    requires Enabled(s, step)
  {
    match step
    case PushJob(maxRetries) =>
      if !s.accepting then BeginInline(s)
      else s.(queue := s.queue + [Job(|s.records|, Retries(maxRetries), 0)],
              records := s.records + [Record(Queued, Retries(maxRetries), 0, false)],
              writeCounter := s.writeCounter + 1)
    case RunInline => BeginInline(s)
    case FinishInline(result, again) =>
      s.(inline := if again then s.inline else s.inline - 1, inlineRetried := s.inlineRetried || result.Retry?,
         writeCounter := s.writeCounter - 1)
    case Take(w) =>
      var job := s.queue[0];
      var r := s.records[job.id];
      s.(queue := s.queue[1..], workers := s.workers[w := Running(job)],
         records := Put(s.records, job.id, r.(at := Held(w), starts := r.starts + 1)))
    case Finish(w, result) =>
      var job := s.workers[w].job;
      var r := s.records[job.id];
      var t := s.(workers := s.workers[w := Waiting], writeCounter := s.writeCounter - 1);
      if result.Success? then t.(records := Put(s.records, job.id, r.(at := Done)))
      else if result.Retry? && job.attempt < job.maxRetries then
        t.(queue := s.queue + [job.(attempt := job.attempt + 1)],
           records := Put(s.records, job.id, r.(at := Queued, retried := true)))
      else t.(accepting := false, errors := s.errors + 1,
              records := Put(s.records, job.id, r.(at := Done, retried := r.retried || result.Retry?)))
    case Exit(w) => s.(workers := s.workers[w := Exited])
    case Stop => s.(accepting := false, stopping := true)
  }

  // ----- The invariant -------------------------------------------------------------------------------

  /** A job in hand agrees with its record. */
  predicate Agrees(records: seq<Record>, job: Job, at: Where) {
    && job.id < |records|
    && var r := records[job.id];
       && r.at == at && job.maxRetries == r.allowed && job.attempt <= job.maxRetries
       && r.starts == job.attempt + (if at.Queued? then 0 else 1)
       && (!r.retried ==> job.attempt == 0)
  }

  /** The queue holds each queued job once. */
  ghost predicate QueueOk(queue: seq<Job>, records: seq<Record>) {
    && (forall i :: 0 <= i < |queue| ==> Agrees(records, queue[i], Queued))
    && (forall i, j :: 0 <= i < j < |queue| ==> queue[i].id != queue[j].id)
    && (forall id :: 0 <= id < |records| && records[id].at.Queued? ==> exists i :: 0 <= i < |queue| && queue[i].id == id)
  }

  /** A worker holds each running job. */
  ghost predicate WorkersOk(workers: seq<Worker>, records: seq<Record>) {
    && (forall w :: 0 <= w < |workers| && workers[w].Running? ==> Agrees(records, workers[w].job, Held(w)))
    && (forall id :: 0 <= id < |records| && records[id].at.Held? ==>
          var w := records[id].at.w; w < |workers| && workers[w].Running? && workers[w].job.id == id)
  }

  /** A finished job was started at least once and at most `maxRetries + 1` times; once if it never asked for a retry. */
  ghost predicate DoneOk(records: seq<Record>) {
    forall id :: 0 <= id < |records| && records[id].at.Done? ==>
      1 <= records[id].starts <= records[id].allowed + 1 && (!records[id].retried ==> records[id].starts == 1)
  }

  ghost predicate AllExited(workers: seq<Worker>) {
    forall w :: 0 <= w < |workers| ==> workers[w].Exited?
  }

  /** A worker leaves only when no job can come any more. */
  ghost predicate EndsOk(s: State) {
    && |s.workers| > 0 && (s.stopping ==> !s.accepting)
    && (forall w :: 0 <= w < |s.workers| && s.workers[w].Exited? ==> !s.accepting)
    && (AllExited(s.workers) ==> s.queue == [])
  }

  function Busy(workers: seq<Worker>): nat {
    if workers == [] then 0 else Busy(workers[..|workers| - 1]) + if workers[|workers| - 1].Running? then 1 else 0
  }

  /** Unless a job asked for a retry, the counter of outstanding writes is the number of jobs not finished, in the pool or inline. */
  ghost predicate Balanced(s: State) {
    NoRetries(s.records) && !s.inlineRetried ==> s.writeCounter == |s.queue| + Busy(s.workers) + s.inline
  }

  ghost predicate NoRetries(records: seq<Record>) {
    forall id :: 0 <= id < |records| ==> !records[id].retried
  }

  ghost predicate Inv(s: State) {
    QueueOk(s.queue, s.records) && WorkersOk(s.workers, s.records) && DoneOk(s.records) && EndsOk(s) && Balanced(s)
  }

  lemma InitInv(threads: nat)
    requires threads > 0
    ensures Inv(Init(threads))
  {
    NobodyBusy(Init(threads).workers);
    assert Init(threads).workers[0].Waiting?;
  }

  lemma {:induction false} NobodyBusy(workers: seq<Worker>)
    requires forall w :: 0 <= w < |workers| ==> !workers[w].Running?
    ensures Busy(workers) == 0
  {
    if workers != [] {
      NobodyBusy(workers[..|workers| - 1]);
    }
  }

  lemma {:induction false} BusyMoved(workers: seq<Worker>, w: nat, to: Worker)
    requires w < |workers|
    ensures Busy(workers[w := to]) + (if workers[w].Running? then 1 else 0) == Busy(workers) + if to.Running? then 1 else 0
  {
    var n := |workers| - 1;
    if w < n {
      BusyMoved(workers[..n], w, to);
      assert workers[w := to][..n] == workers[..n][w := to];
    } else {
      assert workers[w := to][..n] == workers[..n];
    }
  }

  // ----- Each step keeps it -----------------------------------------------------------------------------

  lemma QueueTaken(queue: seq<Job>, records: seq<Record>, r: Record)
    requires QueueOk(queue, records) && queue != [] && !r.at.Queued?
    ensures QueueOk(queue[1..], records[queue[0].id := r])
  {
    var records' := records[queue[0].id := r];
    forall id | 0 <= id < |records'| && records'[id].at.Queued?
      ensures exists i :: 0 <= i < |queue[1..]| && queue[1..][i].id == id
    {
      var i :| 0 <= i < |queue| && queue[i].id == id;
      assert queue[1..][i - 1].id == id;
    }
  }

  lemma QueueJoined(queue: seq<Job>, records: seq<Record>, job: Job, r: Record)
    requires QueueOk(queue, records) && job.id < |records| && !records[job.id].at.Queued?
    requires Agrees(records[job.id := r], job, Queued)
    ensures QueueOk(queue + [job], records[job.id := r])
  {
    var queue', records' := queue + [job], records[job.id := r];
    forall id | 0 <= id < |records'| && records'[id].at.Queued? ensures exists i :: 0 <= i < |queue'| && queue'[i].id == id {
      if id == job.id {
        assert queue'[|queue|].id == id;
      } else {
        var i :| 0 <= i < |queue| && queue[i].id == id;
        assert queue'[i].id == id;
      }
    }
  }

  lemma QueueAside(queue: seq<Job>, records: seq<Record>, id: nat, r: Record)
    requires QueueOk(queue, records) && id < |records| && !records[id].at.Queued? && !r.at.Queued?
    ensures QueueOk(queue, records[id := r])
  {
  }

  lemma QueueLonger(queue: seq<Job>, records: seq<Record>, job: Job, r: Record)
    requires QueueOk(queue, records) && job.id == |records| && Agrees(records + [r], job, Queued)
    ensures QueueOk(queue + [job], records + [r])
  {
    var queue', records' := queue + [job], records + [r];
    forall id | 0 <= id < |records'| && records'[id].at.Queued? ensures exists i :: 0 <= i < |queue'| && queue'[i].id == id {
      if id == job.id {
        assert queue'[|queue|].id == id;
      } else {
        var i :| 0 <= i < |queue| && queue[i].id == id;
        assert queue'[i].id == id;
      }
    }
  }

  lemma PushInv(s: State, maxRetries: Option<nat>)
    requires Inv(s)
    ensures Inv(Apply(s, PushJob(maxRetries)))
  {
    if s.accepting {
      var job, r := Job(|s.records|, Retries(maxRetries), 0), Record(Queued, Retries(maxRetries), 0, false);
      QueueLonger(s.queue, s.records, job, r);
      assert forall id :: 0 <= id < |s.records| ==> (s.records + [r])[id] == s.records[id];
      assert s.workers[0].Exited? ==> !s.accepting;
    }
  }

  lemma TakeInv(s: State, w: nat)
    requires Inv(s) && Enabled(s, Take(w))
    ensures Inv(Apply(s, Take(w)))
  {
    var job := s.queue[0];
    var r := s.records[job.id];
    var r' := r.(at := Held(w), starts := r.starts + 1);
    assert Agrees(s.records, job, Queued);
    QueueTaken(s.queue, s.records, r');
    BusyMoved(s.workers, w, Running(job));
    WorkersTaken(s.workers, s.records, w, job, r');
    RetriedKept(s.records, job.id, r');
    EndsTaken(s, Apply(s, Take(w)), w, job);
  }

  /** The worker takes hold of a queued job. */
  lemma WorkersTaken(workers: seq<Worker>, records: seq<Record>, w: nat, job: Job, r: Record)
    requires WorkersOk(workers, records) && w < |workers| && workers[w].Waiting?
    requires Agrees(records, job, Queued) && Agrees(records[job.id := r], job, Held(w))
    ensures WorkersOk(workers[w := Running(job)], records[job.id := r])
  {
  }

  lemma EndsTaken(s: State, s': State, w: nat, job: Job)
    requires EndsOk(s) && w < |s.workers| && s'.workers == s.workers[w := Running(job)]
    requires s'.accepting == s.accepting && s'.stopping == s.stopping
    ensures EndsOk(s')
  {
    assert s'.workers[w].Running?;
  }

  lemma RetriedKept(records: seq<Record>, id: nat, r: Record)
    requires id < |records| && (records[id].retried ==> r.retried)
    ensures NoRetries(records[id := r]) ==> NoRetries(records)
    ensures r.retried ==> !NoRetries(records[id := r])
  {
    var records' := records[id := r];
    assert records'[id] == r;
    forall i | 0 <= i < |records| && records[i].retried ensures records'[i].retried {
    }
  }

  /** The worker lets go of its job. */
  lemma WorkersAside(workers: seq<Worker>, records: seq<Record>, w: nat, id: nat, r: Record)
    requires WorkersOk(workers, records) && w < |workers| && workers[w].Running? && workers[w].job.id == id && !r.at.Held?
    requires id < |records|
    ensures WorkersOk(workers[w := Waiting], records[id := r])
  {
    assert Agrees(records, workers[w].job, Held(w));
  }

  lemma EndsKept(s: State, s': State, w: nat)
    requires EndsOk(s) && w < |s.workers| && s'.workers == s.workers[w := Waiting] && (s.accepting || !s'.accepting)
    requires s'.stopping == s.stopping
    ensures EndsOk(s')
  {
    assert s'.workers[w].Waiting?;
  }

  lemma RequeueInv(s: State, w: nat)
    requires Inv(s) && Enabled(s, Finish(w, Retry)) && s.workers[w].job.attempt < s.workers[w].job.maxRetries
    ensures Inv(Apply(s, Finish(w, Retry)))
  {
    var job, s' := s.workers[w].job, Apply(s, Finish(w, Retry));
    var r := s.records[job.id].(at := Queued, retried := true);
    assert Agrees(s.records, job, Held(w));
    assert s'.records == s.records[job.id := r] && s'.records[job.id].retried;
    QueueJoined(s.queue, s.records, job.(attempt := job.attempt + 1), r);
    WorkersAside(s.workers, s.records, w, job.id, r);
    RetriedKept(s.records, job.id, r);
    EndsKept(s, s', w);
  }

  lemma EndJobInv(s: State, w: nat, result: TaskResult)
    requires Inv(s) && Enabled(s, Finish(w, result))
    requires result.Retry? ==> s.workers[w].job.attempt >= s.workers[w].job.maxRetries
    ensures Inv(Apply(s, Finish(w, result)))
  {
    var job, s' := s.workers[w].job, Apply(s, Finish(w, result));
    var r := s.records[job.id].(at := Done, retried := s.records[job.id].retried || result.Retry?);
    assert Agrees(s.records, job, Held(w));
    assert s'.records == s.records[job.id := r];
    QueueAside(s.queue, s.records, job.id, r);
    WorkersAside(s.workers, s.records, w, job.id, r);
    RetriedKept(s.records, job.id, r);
    BusyMoved(s.workers, w, Waiting);
    EndsKept(s, s', w);
  }

  lemma FinishInv(s: State, w: nat, result: TaskResult)
    requires Inv(s) && Enabled(s, Finish(w, result))
    ensures Inv(Apply(s, Finish(w, result)))
  {
    if result.Retry? && s.workers[w].job.attempt < s.workers[w].job.maxRetries {
      RequeueInv(s, w);
    } else {
      EndJobInv(s, w, result);
    }
  }

  lemma ExitInv(s: State, w: nat)
    requires Inv(s) && Enabled(s, Exit(w))
    ensures Inv(Apply(s, Exit(w)))
  {
    BusyMoved(s.workers, w, Exited);
  }

  lemma StepInv(s: State, step: Step)
    requires Inv(s) && Enabled(s, step)
    ensures Inv(Apply(s, step))
  {
    match step
    case PushJob(maxRetries) => PushInv(s, maxRetries);
    case Take(w) => TakeInv(s, w);
    case Finish(w, result) => FinishInv(s, w, result);
    case Exit(w) => ExitInv(s, w);
    case _ =>
  }

  ghost predicate IsRun(s: State, steps: seq<Step>)
    decreases |steps|
  {
    steps == [] || (Enabled(s, steps[0]) && IsRun(Apply(s, steps[0]), steps[1..]))
  }

  ghost function Outcome(s: State, steps: seq<Step>): State
    requires IsRun(s, steps)
    decreases |steps|
  {
    if steps == [] then s else Outcome(Apply(s, steps[0]), steps[1..])
  }

  lemma {:induction false} RunsKeepInv(s: State, steps: seq<Step>)
    requires Inv(s) && IsRun(s, steps)
    ensures Inv(Outcome(s, steps))
    decreases |steps|
  {
    if steps != [] {
      StepInv(s, steps[0]);
      RunsKeepInv(Apply(s, steps[0]), steps[1..]);
    }
  }

  // ----- What follows ------------------------------------------------------------------------------------

  /**
   When all threads have been joined, every accepted job is finished, started at most `maxRetries + 1`
   times, even if another one was fatal; and without retries the counter of outstanding writes is the number of
   jobs that are still being run inline.
   */
  lemma AllJobsRun(threads: nat, steps: seq<Step>, id: nat)
    requires threads > 0 && IsRun(Init(threads), steps)
    ensures var s := Outcome(Init(threads), steps);
            AllExited(s.workers) ==>
              && (id < |s.records| ==> s.records[id].at.Done? && 1 <= s.records[id].starts <= s.records[id].allowed + 1
                                       && (!s.records[id].retried ==> s.records[id].starts == 1))
              && (NoRetries(s.records) && !s.inlineRetried ==> s.writeCounter == s.inline)
  {
    InitInv(threads);
    RunsKeepInv(Init(threads), steps);
    var s := Outcome(Init(threads), steps);
    if AllExited(s.workers) {
      NobodyBusy(s.workers);
    }
  }

  /** A job that asks for a retry counts down once more for it: the counter is 0 with the job still to run. */
  lemma RetryCountsTwice() returns (steps: seq<Step>)
    ensures IsRun(Init(1), steps)
    ensures var s := Outcome(Init(1), steps); s.writeCounter == 0 && |s.queue| == 1 && !NoRetries(s.records)
  {
    var a := Init(1);
    var b := Apply(a, PushJob(Some(1)));
    var c := Apply(b, Take(0));
    var d := Apply(c, Finish(0, Retry));
    steps := Prepend(c, Finish(0, Retry), []);
    steps := Prepend(b, Take(0), steps);
    steps := Prepend(a, PushJob(Some(1)), steps);
    assert Outcome(a, steps) == d && d.records[0].retried;
  }

  lemma Prepend(s: State, step: Step, rest: seq<Step>) returns (steps: seq<Step>)
    requires Enabled(s, step) && IsRun(Apply(s, step), rest)
    ensures IsRun(s, steps) && Outcome(s, steps) == Outcome(Apply(s, step), rest)
  {
    steps := [step] + rest;
    assert steps[1..] == rest;
  }

  predicate IsWorker(step: Step) {
    step.Take? || step.Finish? || step.Exit?
  }

  /** Attempts left to the jobs in hand, and steps left to the workers. */
  function QueueWork(queue: seq<Job>): nat {
    if queue == [] then 0
    else QueueWork(queue[..|queue| - 1]) + 2 + 2 * Left(queue[|queue| - 1])
  }

  function Left(job: Job): nat {
    if job.attempt <= job.maxRetries then job.maxRetries - job.attempt else 0
  }

  function WorkerWork(w: Worker): nat {
    match w
    case Waiting => 1
    case Running(job) => 2 + 2 * Left(job)
    case Exited => 0
  }

  function WorkersWork(workers: seq<Worker>): nat {
    if workers == [] then 0 else WorkersWork(workers[..|workers| - 1]) + WorkerWork(workers[|workers| - 1])
  }

  function Work(s: State): nat {
    QueueWork(s.queue) + WorkersWork(s.workers)
  }

  lemma {:induction false} QueueWorkHead(queue: seq<Job>)
    requires queue != []
    ensures QueueWork(queue) == QueueWork(queue[1..]) + 2 + 2 * Left(queue[0])
  {
    if |queue| > 1 {
      var n := |queue| - 1;
      QueueWorkHead(queue[..n]);
      assert queue[..n][1..] == queue[1..][..n - 1];
    }
  }

  lemma {:induction false} WorkersWorkMoved(workers: seq<Worker>, w: nat, to: Worker)
    requires w < |workers|
    ensures WorkersWork(workers[w := to]) + WorkerWork(workers[w]) == WorkersWork(workers) + WorkerWork(to)
  {
    var n := |workers| - 1;
    if w < n {
      WorkersWorkMoved(workers[..n], w, to);
      assert workers[w := to][..n] == workers[..n][w := to];
    } else {
      assert workers[w := to][..n] == workers[..n];
    }
  }

  /** Once stopped, every worker step leaves less to do, whatever the jobs answer; so the pool winds down. */
  lemma WorkDecreases(s: State, step: Step)
    requires Inv(s) && !s.accepting && Enabled(s, step) && IsWorker(step)
    ensures !Apply(s, step).accepting && Work(Apply(s, step)) < Work(s)
  {
    match step
    case Take(w) =>
      QueueWorkHead(s.queue);
      WorkersWorkMoved(s.workers, w, Running(s.queue[0]));
    case Finish(w, result) =>
      var job := s.workers[w].job;
      WorkersWorkMoved(s.workers, w, Waiting);
      assert (s.queue + [job.(attempt := job.attempt + 1)])[..|s.queue|] == s.queue;
    case Exit(w) => WorkersWorkMoved(s.workers, w, Exited);
  }

  /** And until all have left, some worker can take a step: joining the threads ends. */
  lemma StopMakesProgress(s: State)
    requires Inv(s) && !s.accepting && !AllExited(s.workers)
    ensures exists step :: Enabled(s, step) && IsWorker(step)
  {
    var w :| 0 <= w < |s.workers| && !s.workers[w].Exited?;
    if s.workers[w].Running? {
      assert Enabled(s, Finish(w, Success));
    } else if s.queue != [] {
      assert Agrees(s.records, s.queue[0], Queued);
      assert Enabled(s, Take(w));
    } else {
      assert Enabled(s, Exit(w));
    }
  }

  /** A job run inline; `answers` is what it returns on each attempt. */
  method ExecuteJobWithRetry(answers: nat -> TaskResult, maxRetries: nat) returns (ok: bool, runs: nat)
    ensures runs <= maxRetries
    ensures forall i :: 0 <= i < runs - 1 ==> answers(i).Retry?
    ensures ok <==> runs > 0 && answers(runs - 1).Success?
    ensures !ok && runs < maxRetries ==> runs > 0 && answers(runs - 1).Fatal?
    ensures maxRetries > 0 && (forall i: nat :: !answers(i).Retry?) ==> runs == 1
  {
    for retry := 0 to maxRetries
      invariant forall i :: 0 <= i < retry ==> answers(i).Retry?
    {
      assert retry > 0 ==> answers(0).Retry?;
      match answers(retry) {
        case Success => return true, retry + 1;
        case Retry =>
        case Fatal => return false, retry + 1;
      }
    }
    return false, maxRetries;
  }
}
