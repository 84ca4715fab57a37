/**
 "Least recently used" over whole runs (src/streaming/file.handle.cpp): as history, the step at which each name was last
 found in the cache by a first look, or put there.
 */
module HandleRecency {
  import opened HandlePool
  import opened HandleMachine
  import opened Wrappers

  type Stamps = map<Name, nat>

  /** The name that a step uses: a first look that is served, or one after a retry that puts its own handle in. */
  function Used(s: State, step: Step): Option<Name>
    requires Enabled(s, step)
  {
    match step
    case Look(t, _, _) => if PcOf(Apply(s, step), t).Holding? then Some(s.threads[t].f) else None
    case LookAgain(t, _) =>
      if PcOf(Apply(s, step), t).Holding? && s.threads[t].f !in s.pool.cache then Some(s.threads[t].f) else None
    case _ => None
  }

  function Stamped(s: State, step: Step, now: nat, stamps: Stamps): Stamps
    requires Enabled(s, step)
  {
    match Used(s, step)
    case Some(f) => stamps[f := now]
    case None => stamps
  }

  ghost function StampsOf(s: State, steps: seq<Step>, now: nat, stamps: Stamps): Stamps
    requires IsRun(s, steps)
    decreases |steps|
  {
    if steps == [] then stamps else StampsOf(Apply(s, steps[0]), steps[1..], now + 1, Stamped(s, steps[0], now, stamps))
  }

  /** The list is in the order of last use, latest first. */
  ghost predicate Recent(lru: seq<Name>, stamps: Stamps, now: nat) {
    && (forall i :: 0 <= i < |lru| ==> lru[i] in stamps && stamps[lru[i]] < now)
    && forall i, j :: 0 <= i < j < |lru| ==> stamps[lru[i]] > stamps[lru[j]]
  }

  // ----- Every step keeps it ---------------------------------------------------------------------------

  lemma WithoutRecent(lru: seq<Name>, i: nat, stamps: Stamps, now: nat)
    requires Recent(lru, stamps, now) && i < |lru|
    ensures Recent(Without(lru, i), stamps, now)
  {
    var r := Without(lru, i);
    assert forall k :: 0 <= k < |r| ==> r[k] == lru[if k < i then k else k + 1];
  }

  lemma FrontRecent(lru: seq<Name>, f: Name, stamps: Stamps, now: nat)
    requires Recent(lru, stamps, now) && f !in lru
    ensures Recent([f] + lru, stamps[f := now], now + 1)
  {
    var r := [f] + lru;
    assert forall k :: 1 <= k < |r| ==> r[k] == lru[k - 1] && r[k] in lru;
  }

  lemma UseRecent(p: Pool, f: Name, handle: nat, stamps: Stamps, now: nat)
    requires Sound(p) && Recent(p.lru, stamps, now)
    ensures f in p.cache ==> f in p.lru && Recent(Hit(p, f).lru, stamps[f := now], now + 1)
    ensures f !in p.cache ==> Recent(Insert(p, f, handle).lru, stamps[f := now], now + 1)
  {
    if f in p.cache {
      var i := PositionOf(p.lru, f);
      WithoutOne(p.lru, i);
      WithoutRecent(p.lru, i, stamps, now);
      FrontRecent(Without(p.lru, i), f, stamps, now);
    } else {
      FrontRecent(p.lru, f, stamps, now);
    }
  }

  lemma RemovalRecent(p: Pool, f: Name, stamps: Stamps, now: nat)
    requires Recent(p.lru, stamps, now)
    ensures Recent(Return(p, f).lru, stamps, now) && Recent(Close(p, f).lru, stamps, now)
  {
    if f in p.cache {
      match LastIdle(p.lru, Released(p, f).cache)
      case Some(i) => WithoutRecent(p.lru, i, stamps, now);
      case None =>
    }
    if f in p.lru {
      WithoutRecent(p.lru, PositionOf(p.lru, f), stamps, now);
    }
  }

  lemma LookRecent(s: State, t: nat, handle: Option<nat>, woken: Option<nat>, stamps: Stamps, now: nat)
    requires Inv(s) && Enabled(s, Look(t, handle, woken)) && Recent(s.pool.lru, stamps, now)
    ensures Recent(Apply(s, Look(t, handle, woken)).pool.lru, Stamped(s, Look(t, handle, woken), now, stamps), now + 1)
  {
    var f := s.threads[t].f;
    if CanServe(s.pool, f) && (f in s.pool.cache || handle.Some?) {
      UseRecent(s.pool, f, if handle.Some? then handle.value else 0, stamps, now);
      assert Used(s, Look(t, handle, woken)) == Some(f);
    }
  }

  lemma LookAgainRecent(s: State, t: nat, woken: Option<nat>, stamps: Stamps, now: nat)
    requires Inv(s) && Enabled(s, LookAgain(t, woken)) && Recent(s.pool.lru, stamps, now)
    ensures Recent(Apply(s, LookAgain(t, woken)).pool.lru, Stamped(s, LookAgain(t, woken), now, stamps), now + 1)
  {
    var f := s.threads[t].f;
    if CanServe(s.pool, f) && f !in s.pool.cache {
      UseRecent(s.pool, f, s.threads[t].handle, stamps, now);
      assert Used(s, LookAgain(t, woken)) == Some(f);
    }
  }

  lemma StepRecent(s: State, step: Step, stamps: Stamps, now: nat)
    requires Inv(s) && Enabled(s, step) && Recent(s.pool.lru, stamps, now)
    ensures Recent(Apply(s, step).pool.lru, Stamped(s, step, now, stamps), now + 1)
  {
    if step.Look? {
      LookRecent(s, step.t, step.handle, step.woken, stamps, now);
    } else if step.LookAgain? {
      LookAgainRecent(s, step.t, step.woken, stamps, now);
    } else {
      RemovalRecent(s.pool, if step.GiveBack? then s.threads[step.t].f else if step.CloseFile? then step.f else "", stamps, now);
    }
  }

  /** In every reachable state the list is in the order of last use. */
  lemma {:induction false} RunsKeepRecent(s: State, steps: seq<Step>, now: nat, stamps: Stamps)
    requires Inv(s) && IsRun(s, steps) && Recent(s.pool.lru, stamps, now)
    ensures Recent(Outcome(s, steps).pool.lru, StampsOf(s, steps, now, stamps), now + |steps|)
    decreases |steps|
  {
    if steps != [] {
      StepInv(s, steps[0]);
      StepRecent(s, steps[0], stamps, now);
      RunsKeepRecent(Apply(s, steps[0]), steps[1..], now + 1, Stamped(s, steps[0], now, stamps));
    }
  }

  // ----- What a return evicts ----------------------------------------------------------------------------

  /** In the cache, and held by nobody but perhaps `t`, who gives back. */
  ghost predicate Spare(s: State, t: nat, f: Name) {
    f in s.pool.cache && forall u :: u in s.threads && s.threads[u].Holding? && s.threads[u].f == f ==> u == t
  }

  lemma SpareIsIdle(s: State, t: nat, g: Name)
    requires Inv(s) && Enabled(s, GiveBack(t)) && g in s.pool.cache
    ensures s.threads[t].f in s.pool.cache && g in Released(s.pool, s.threads[t].f).cache
    ensures Released(s.pool, s.threads[t].f).cache[g].refcount == 0 <==> Spare(s, t, g)
  {
    var f, awake := s.threads[t].f, WakeAll(s.threads[t := Outside]);
    HolderCounts(s.threads, t);
    GivenBack(s.pool, s.threads, t, f, g);
    WakingMovesNoBorrow(s.threads[t := Outside], None, g);
    if Spare(s, t, g) {
      assert Holders(s.threads[t := Outside], g) == {};
    } else {
      var u :| u in s.threads && s.threads[u].Holding? && s.threads[u].f == g && u != t;
      assert u in Holders(s.threads[t := Outside], g);
    }
  }

  /**
   In every reachable state: a return evicts a name exactly if the cache was full, nobody else holds it, and of all names
   that nobody else holds it was used longest ago.  The others stay.
   */
  lemma EvictsOldest(max: nat, steps: seq<Step>, t: nat, f: Name)
    requires max >= 1 && IsRun(Init(max), steps) && Enabled(Outcome(Init(max), steps), GiveBack(t))
    requires f in Outcome(Init(max), steps).pool.cache
    ensures var s, stamps := Outcome(Init(max), steps), StampsOf(Init(max), steps, 0, map[]);
            && (forall g :: g in s.pool.cache ==> g in stamps)
            && (f !in Apply(s, GiveBack(t)).pool.cache <==>
                |s.pool.cache| >= max && Spare(s, t, f) && forall g :: Spare(s, t, g) && g != f ==> stamps[f] < stamps[g])
  {
    InitInv(max);
    RunsKeepInv(Init(max), steps);
    RunsKeepRecent(Init(max), steps, 0, map[]);
    MaxStays(Init(max), steps);
    var s, stamps := Outcome(Init(max), steps), StampsOf(Init(max), steps, 0, map[]);
    ReturnEvicts(s, t, f, stamps, |steps|);
  }

  lemma {:induction false} MaxStays(s: State, steps: seq<Step>)
    requires Inv(s) && IsRun(s, steps)
    ensures Outcome(s, steps).pool.max == s.pool.max
    decreases |steps|
  {
    if steps != [] {
      StepInv(s, steps[0]);
      MaxStays(Apply(s, steps[0]), steps[1..]);
    }
  }

  lemma ReturnEvicts(s: State, t: nat, f: Name, stamps: Stamps, now: nat)
    requires Inv(s) && Enabled(s, GiveBack(t)) && f in s.pool.cache && Recent(s.pool.lru, stamps, now)
    ensures forall g :: g in s.pool.cache ==> g in stamps
    ensures f !in Apply(s, GiveBack(t)).pool.cache <==>
            |s.pool.cache| >= s.pool.max && Spare(s, t, f) && forall g :: Spare(s, t, g) && g != f ==> stamps[f] < stamps[g]
  {
    var p, held := s.pool, s.threads[t].f;
    SpareIsIdle(s, t, f);
    ReleasedSound(p, held);
    forall g | g in p.cache ensures g in stamps && (Released(p, held).cache[g].refcount == 0 <==> Spare(s, t, g)) {
      SpareIsIdle(s, t, g);
      assert g in p.lru;
    }
    EvictsLast(Released(p, held), f, stamps, now);
    var oldest := forall g :: g in p.cache && Released(p, held).cache[g].refcount == 0 && g != f ==> stamps[f] < stamps[g];
    assert oldest <==> forall g :: Spare(s, t, g) && g != f ==> stamps[f] < stamps[g];
  }

  lemma EvictsLast(q: Pool, f: Name, stamps: Stamps, now: nat)
    requires Sound(q) && Recent(q.lru, stamps, now) && f in q.cache
    ensures forall g :: g in q.cache ==> g in stamps
    ensures f !in EvictLru(q).cache <==>
            q.cache[f].refcount == 0 && forall g :: g in q.cache && q.cache[g].refcount == 0 && g != f ==> stamps[f] < stamps[g]
  {
    assert forall g :: g in q.cache ==> g in q.lru;
    match LastIdle(q.lru, q.cache)
    case None =>
    case Some(i) =>
      DropOne(q, i);
      forall g | g in q.cache && q.cache[g].refcount == 0 && g != q.lru[i] ensures stamps[q.lru[i]] < stamps[g] {
        LastIdleIsOldest(q, stamps, now, i, g);
      }
  }

  lemma LastIdleIsOldest(q: Pool, stamps: Stamps, now: nat, i: nat, g: Name)
    requires Recent(q.lru, stamps, now) && LastIdle(q.lru, q.cache) == Some(i) && g in q.lru && g in q.cache
    requires q.cache[g].refcount == 0 && g != q.lru[i]
    ensures stamps[q.lru[i]] < stamps[g]
  {
    var j :| 0 <= j < |q.lru| && q.lru[j] == g;
    assert j < i;
  }
}
