/** When the thread pool takes jobs, how often it retries them and in which order they start (src/streaming/thread.pool.cpp). */
module PoolOrder {
  import opened Wrappers
  import opened ThreadPools

  // ----- When jobs are taken ---------------------------------------------------------------------------

  /** A job ends in failure: fatally, or with a retry when it has been started as often as it may be. */
  predicate EndsBadly(s: State, step: Step)
    requires Enabled(s, step)
  {
    step.Finish? && (step.result.Fatal? || (step.result.Retry? && Tried(s, step.w)))
  }

  /** The worker's job has been started once more than it has retries. */
  predicate Tried(s: State, w: nat)
    requires w < |s.workers| && s.workers[w].Running? && s.workers[w].job.id < |s.records|
  {
    var r := s.records[s.workers[w].job.id];
    r.starts > r.allowed
  }

  ghost function Failures(s: State, steps: seq<Step>): nat
    requires IsRun(s, steps)
    decreases |steps|
  {
    if steps == [] then 0 else (if EndsBadly(s, steps[0]) then 1 else 0) + Failures(Apply(s, steps[0]), steps[1..])
  }

  /** A retry is granted exactly if the job has not been started more often than it has retries; else it is a failure. */
  lemma RetryMeans(s: State, w: nat)
    requires Inv(s) && Enabled(s, Finish(w, Retry))
    ensures var id, t := s.workers[w].job.id, Apply(s, Finish(w, Retry));
            && (!Tried(s, w) <==> t.records[id].at.Queued?)
            && (Tried(s, w) ==> t.records[id].at.Done? && s.records[id].starts == s.records[id].allowed + 1)
            && t.records[id].starts == s.records[id].starts
  {
    assert Agrees(s.records, s.workers[w].job, Held(w));
  }

  lemma StepAccepting(s: State, step: Step)
    requires Inv(s) && Enabled(s, step) && (s.accepting <==> s.errors == 0 && !s.stopping)
    ensures var t := Apply(s, step);
            && t.errors == s.errors + (if EndsBadly(s, step) then 1 else 0)
            && (t.accepting <==> t.errors == 0 && !t.stopping)
            && (t.stopping <==> s.stopping || step.Stop?)
  {
    if step.Finish? {
      assert Agrees(s.records, s.workers[step.w].job, Held(step.w));
    }
  }

  lemma {:induction false} RunAccepting(s: State, steps: seq<Step>)
    requires Inv(s) && IsRun(s, steps) && (s.accepting <==> s.errors == 0 && !s.stopping)
    ensures var t := Outcome(s, steps);
            && t.errors == s.errors + Failures(s, steps)
            && (t.accepting <==> t.errors == 0 && !t.stopping)
            && (t.stopping <==> s.stopping || Stop in steps)
    decreases |steps|
  {
    if steps != [] {
      StepInv(s, steps[0]);
      StepAccepting(s, steps[0]);
      RunAccepting(Apply(s, steps[0]), steps[1..]);
      assert Stop in steps <==> steps[0] == Stop || Stop in steps[1..];
    }
  }

  /** In every reachable state the pool takes jobs exactly if none has failed so far and it has not been stopped. */
  lemma AcceptingMeans(threads: nat, steps: seq<Step>)
    requires threads > 0 && IsRun(Init(threads), steps)
    ensures var s := Outcome(Init(threads), steps);
            && s.errors == Failures(Init(threads), steps)
            && (s.accepting <==> Failures(Init(threads), steps) == 0 && Stop !in steps)
  {
    InitInv(threads);
    RunAccepting(Init(threads), steps);
  }

  /** A job that is taken is queued behind the others, with one retry if no number is given; any other is run inline. */
  lemma PushMeans(s: State, maxRetries: Option<nat>)
    ensures var t := Apply(s, PushJob(maxRetries));
            && t.writeCounter == s.writeCounter + 1
            && if s.accepting then
                 && t.records == s.records + [Record(Queued, match maxRetries case Some(n) => n case None => 1, 0, false)]
                 && |t.queue| == |s.queue| + 1 && t.queue[..|s.queue|] == s.queue && t.queue[|s.queue|].id == |s.records|
                 && t.inline == s.inline
               else t.records == s.records && t.queue == s.queue && t.inline == s.inline + 1
  {
  }

  // ----- Order -----------------------------------------------------------------------------------------------

  /** Queued jobs are in the order they were pushed, behind all jobs started. */
  ghost predicate Ordered(queue: seq<Job>, records: seq<Record>) {
    && (forall i, j :: 0 <= i < j < |queue| ==> queue[i].id < queue[j].id)
    && forall id, i :: 0 <= id < |records| && !records[id].at.Queued? && 0 <= i < |queue| ==> id < queue[i].id
  }

  lemma TakeOrdered(s: State, w: nat)
    requires Inv(s) && Enabled(s, Take(w)) && Ordered(s.queue, s.records)
    ensures Ordered(Apply(s, Take(w)).queue, Apply(s, Take(w)).records)
  {
    var t := Apply(s, Take(w));
    assert forall i :: 0 <= i < |t.queue| ==> t.queue[i] == s.queue[i + 1];
    assert forall id :: 0 <= id < |s.records| && id != s.queue[0].id ==> t.records[id] == s.records[id];
  }

  lemma PushOrdered(s: State, maxRetries: Option<nat>)
    requires Inv(s) && Ordered(s.queue, s.records)
    ensures Ordered(Apply(s, PushJob(maxRetries)).queue, Apply(s, PushJob(maxRetries)).records)
  {
    assert forall i :: 0 <= i < |s.queue| ==> Agrees(s.records, s.queue[i], Queued);
  }

  lemma FinishOrdered(s: State, w: nat, result: TaskResult)
    requires Inv(s) && Enabled(s, Finish(w, result)) && Ordered(s.queue, s.records)
    ensures var t := Apply(s, Finish(w, result)); NoRetries(t.records) ==> Ordered(t.queue, t.records)
  {
    var job, t := s.workers[w].job, Apply(s, Finish(w, result));
    assert Agrees(s.records, job, Held(w));
    assert forall id :: 0 <= id < |s.records| && id != job.id ==> t.records[id] == s.records[id];
    if result.Retry? {
      assert t.records[job.id].retried;
    }
  }

  lemma RetriesStay(s: State, step: Step)
    requires Inv(s) && Enabled(s, step) && NoRetries(Apply(s, step).records)
    ensures NoRetries(s.records)
  {
    var t := Apply(s, step);
    assert |t.records| >= |s.records|;
    assert forall id :: 0 <= id < |s.records| && s.records[id].retried ==> t.records[id].retried;
  }

  lemma StepOrdered(s: State, step: Step)
    requires Inv(s) && Enabled(s, step) && (NoRetries(s.records) ==> Ordered(s.queue, s.records))
    ensures NoRetries(Apply(s, step).records) ==> Ordered(Apply(s, step).queue, Apply(s, step).records)
  {
    if NoRetries(Apply(s, step).records) {
      RetriesStay(s, step);
      match step
      case PushJob(maxRetries) => PushOrdered(s, maxRetries);
      case Take(w) => TakeOrdered(s, w);
      case Finish(w, result) => FinishOrdered(s, w, result);
      case _ =>
    }
  }

  lemma {:induction false} RunOrdered(s: State, steps: seq<Step>)
    requires Inv(s) && IsRun(s, steps) && (NoRetries(s.records) ==> Ordered(s.queue, s.records))
    ensures var t := Outcome(s, steps); Inv(t) && (NoRetries(t.records) ==> Ordered(t.queue, t.records))
    decreases |steps|
  {
    if steps != [] {
      StepInv(s, steps[0]);
      StepOrdered(s, steps[0]);
      RunOrdered(Apply(s, steps[0]), steps[1..]);
    }
  }

  /** Unless a job asks for a retry, jobs are started in the order they were pushed. */
  lemma StartedInOrder(threads: nat, steps: seq<Step>, id: nat, later: nat)
    requires threads > 0 && IsRun(Init(threads), steps)
    ensures var s := Outcome(Init(threads), steps);
            NoRetries(s.records) && id < later < |s.records| && s.records[later].starts > 0 ==> s.records[id].starts > 0
  {
    InitInv(threads);
    RunOrdered(Init(threads), steps);
    var s := Outcome(Init(threads), steps);
    if NoRetries(s.records) && id < later < |s.records| && s.records[later].starts > 0 {
      IsStarted(s, later);
      IsStarted(s, id);
      NotBehind(s, id, later);
    }
  }

  lemma NotBehind(s: State, id: nat, later: nat)
    requires Inv(s) && Ordered(s.queue, s.records) && id < later < |s.records| && !s.records[later].at.Queued?
    ensures !s.records[id].at.Queued?
  {
    QueuedSomewhere(s, id);
  }

  lemma QueuedSomewhere(s: State, id: nat)
    requires Inv(s) && id < |s.records|
    ensures s.records[id].at.Queued? ==> exists i :: 0 <= i < |s.queue| && s.queue[i].id == id
  {
  }

  /** Started means no longer queued. */
  lemma IsStarted(s: State, id: nat)
    requires Inv(s) && NoRetries(s.records) && id < |s.records|
    ensures s.records[id].starts > 0 <==> !s.records[id].at.Queued?
  {
    if s.records[id].at.Queued? {
      var i :| 0 <= i < |s.queue| && s.queue[i].id == id;
      assert Agrees(s.records, s.queue[i], Queued);
    } else if s.records[id].at.Held? {
      assert Agrees(s.records, s.workers[s.records[id].at.w].job, Held(s.records[id].at.w));
    }
  }
}
