/**
 Every interleaving of the users of one handle pool.  A step is one lock-held section of
 src/streaming/file.handle.cpp; between the attempts to open a file the lock is dropped, and other
 threads' sections come in between.
 */
module HandleMachine {
  import opened HandlePool
  import opened Wrappers

  const MAX_OPEN_ATTEMPTS: nat := 3

  datatype Pc =
    | Outside
    | Wanting(f: Name)                       // about to look whether it can be served
    | Asleep(f: Name)                        // waiting on the condition variable
    | Backoff(f: Name, attempts: nat)        // lock dropped after a failed attempt to open
    | Relocked(f: Name, handle: nat)         // opened after a retry, about to look again
    | AsleepOpen(f: Name, handle: nat)       // waiting again, with the handle opened
    | Holding(f: Name, handle: nat)

  datatype State = State(pool: Pool, threads: map<nat, Pc>)

  /** `woken` is the thread, if any, that notify_one picks; `handle` the handle an open returns, if it succeeds. */
  datatype Step =
    | Begin(t: nat, f: Name)
    | Look(t: nat, handle: Option<nat>, woken: Option<nat>)
    | Retry(t: nat, handle: Option<nat>)
    | LookAgain(t: nat, woken: Option<nat>)
    | Wake(t: nat)                           // spurious or timed
    | GiveBack(t: nat)
    | CloseFile(f: Name)

  function Init(max: nat): State {
    State(Pool(max, [], map[], true), map[])
  }

  function PcOf(s: State, t: nat): Pc {
    if t in s.threads then s.threads[t] else Outside
  }

  predicate IsAsleep(pc: Pc) {
    pc.Asleep? || pc.AsleepOpen?
  }

  function Woken(pc: Pc): Pc {
    match pc
    case Asleep(f) => Wanting(f)
    case AsleepOpen(f, h) => Relocked(f, h)
    case _ => pc
  }

  function WakeOne(threads: map<nat, Pc>, woken: Option<nat>): map<nat, Pc> {
    if woken.Some? && woken.value in threads then threads[woken.value := Woken(threads[woken.value])] else threads
  }

  function WakeAll(threads: map<nat, Pc>): map<nat, Pc> {
    map t | t in threads :: Woken(threads[t])
  }

  predicate Enabled(s: State, step: Step) {
    match step
    case Begin(t, _) => PcOf(s, t).Outside?
    case Look(t, _, _) => PcOf(s, t).Wanting?
    case Retry(t, _) => PcOf(s, t).Backoff?
    case LookAgain(t, _) => PcOf(s, t).Relocked?
    case Wake(t) => IsAsleep(PcOf(s, t))
    case GiveBack(t) => PcOf(s, t).Holding?
    case CloseFile(_) => true
  }

  function Apply(s: State, step: Step): State
    requires Enabled(s, step)
  {
    match step
    case Begin(t, f) => s.(threads := s.threads[t := Wanting(f)])
    case Look(t, handle, woken) =>
      var f := s.threads[t].f;
      if !CanServe(s.pool, f) then s.(threads := s.threads[t := Asleep(f)])
      else if f in s.pool.cache then
        if f in s.pool.lru then
          State(Hit(s.pool, f), WakeOne(s.threads[t := Holding(f, s.pool.cache[f].handle)], woken))
        else s
      else if handle.Some? then
        State(Insert(s.pool, f, handle.value), WakeOne(s.threads[t := Holding(f, handle.value)], woken))
      else s.(threads := s.threads[t := Backoff(f, 1)])
    case Retry(t, handle) =>
      var f, n := s.threads[t].f, s.threads[t].attempts;
      if handle.Some? then s.(threads := s.threads[t := Relocked(f, handle.value)])
      else if n + 1 >= MAX_OPEN_ATTEMPTS then s.(threads := s.threads[t := Outside])
      else s.(threads := s.threads[t := Backoff(f, n + 1)])
    case LookAgain(t, woken) =>
      var f, h := s.threads[t].f, s.threads[t].handle;
      if !CanServe(s.pool, f) then s.(threads := s.threads[t := AsleepOpen(f, h)])
      else if f in s.pool.cache then
        State(Borrow(s.pool, f), WakeOne(s.threads[t := Holding(f, s.pool.cache[f].handle)], woken))
      else State(Insert(s.pool, f, h), WakeOne(s.threads[t := Holding(f, h)], woken))
    case Wake(t) => s.(threads := s.threads[t := Woken(s.threads[t])])
    case GiveBack(t) =>
      var f := s.threads[t].f;
      State(Return(s.pool, f), WakeAll(s.threads[t := Outside]))
    case CloseFile(f) =>
      if Idle(s.pool, f) then State(Close(s.pool, f), WakeAll(s.threads)) else s
  }

  // ----- The invariant -------------------------------------------------------------------------------

  /** Threads that hold a borrow of `f`. */
  ghost function Holders(threads: map<nat, Pc>, f: Name): set<nat> {
    set t | t in threads && threads[t].Holding? && threads[t].f == f
  }

  /** Reference counts are the outstanding borrows, and a borrowed handle is the one in the cache. */
  ghost predicate Counted(p: Pool, threads: map<nat, Pc>) {
    && (forall f :: f in p.cache ==> p.cache[f].refcount == |Holders(threads, f)|)
    && forall t :: t in threads && threads[t].Holding? ==>
         threads[t].f in p.cache && p.cache[threads[t].f].handle == threads[t].handle
  }

  /** Who sleeps cannot be served. */
  ghost predicate SleepersBlocked(p: Pool, threads: map<nat, Pc>) {
    forall t :: t in threads && IsAsleep(threads[t]) ==> !p.space && threads[t].f !in p.cache
  }

  /** A full cache has a borrowed entry. */
  ghost predicate FullIsBorrowed(p: Pool) {
    |p.cache| >= p.max ==> exists f :: f in p.cache && p.cache[f].refcount > 0
  }

  ghost predicate Inv(s: State) {
    Sound(s.pool) && Counted(s.pool, s.threads) && SleepersBlocked(s.pool, s.threads) && FullIsBorrowed(s.pool)
  }

  lemma InitInv(max: nat)
    requires max >= 1
    ensures Inv(Init(max))
  {
  }

  /** A thread that does not hold anything before or after changes no borrow. */
  lemma NoBorrowMoves(threads: map<nat, Pc>, t: nat, pc: Pc, f: Name)
    requires !pc.Holding? && (t in threads ==> !threads[t].Holding?)
    ensures Holders(threads[t := pc], f) == Holders(threads, f)
  {
  }

  lemma WakingMovesNoBorrow(threads: map<nat, Pc>, woken: Option<nat>, f: Name)
    ensures Holders(WakeOne(threads, woken), f) == Holders(threads, f)
    ensures Holders(WakeAll(threads), f) == Holders(threads, f)
  {
    forall t ensures t in Holders(WakeAll(threads), f) <==> t in Holders(threads, f) {
      if t in threads {
        assert Woken(threads[t]).Holding? <==> threads[t].Holding?;
      }
    }
  }

  lemma BorrowAdded(threads: map<nat, Pc>, t: nat, f: Name, h: nat, g: Name)
    requires t in threads && !threads[t].Holding?
    ensures |Holders(threads[t := Holding(f, h)], g)| == |Holders(threads, g)| + if g == f then 1 else 0
  {
    var after := Holders(threads[t := Holding(f, h)], g);
    if g == f {
      assert after == Holders(threads, g) + {t};
    } else {
      assert after == Holders(threads, g);
    }
  }

  lemma BorrowRemoved(threads: map<nat, Pc>, t: nat, g: Name)
    requires t in threads && threads[t].Holding?
    ensures |Holders(threads, g)| == |Holders(threads[t := Outside], g)| + if g == threads[t].f then 1 else 0
  {
    var after := Holders(threads[t := Outside], g);
    if g == threads[t].f {
      assert Holders(threads, g) == after + {t};
    } else {
      assert Holders(threads, g) == after;
    }
  }

  // ----- Each section keeps it -------------------------------------------------------------------------

  /** A thread that only changes its mind: to want, to sleep, to back off, to give up. */
  lemma MoveInv(s: State, t: nat, pc: Pc)
    requires Inv(s) && !pc.Holding? && !PcOf(s, t).Holding?
    requires IsAsleep(pc) ==> !CanServe(s.pool, pc.f)
    ensures Inv(s.(threads := s.threads[t := pc]))
  {
    forall f | f in s.pool.cache ensures Holders(s.threads[t := pc], f) == Holders(s.threads, f) {
      NoBorrowMoves(s.threads, t, pc, f);
    }
  }

  /** A borrow of a cached handle. */
  lemma BorrowInv(s: State, p: Pool, t: nat, f: Name, h: nat, woken: Option<nat>)
    requires Inv(s) && t in s.threads && !s.threads[t].Holding? && Sound(p) && p.max == s.pool.max
    requires f in p.cache && p.cache[f].handle == h && p.space ==> s.pool.space
    requires f in p.cache && p.cache[f] == Entry(h, |Holders(s.threads, f)| + 1)
    requires forall g :: g != f ==> (g in p.cache <==> g in s.pool.cache) && (g in p.cache ==> p.cache[g] == s.pool.cache[g])
    requires f in s.pool.cache ==> s.pool.cache[f].handle == h
    requires f !in s.pool.cache ==> s.pool.space
    ensures Inv(State(p, WakeOne(s.threads[t := Holding(f, h)], woken)))
  {
    var moved := s.threads[t := Holding(f, h)];
    var threads := WakeOne(moved, woken);
    forall g | g in p.cache ensures p.cache[g].refcount == |Holders(threads, g)| {
      BorrowAdded(s.threads, t, f, h, g);
      WakingMovesNoBorrow(moved, woken, g);
    }
    forall u | u in threads && threads[u].Holding?
      ensures threads[u].f in p.cache && p.cache[threads[u].f].handle == threads[u].handle
    {
      assert moved[u] == threads[u];
    }
  }

  lemma LookInv(s: State, t: nat, handle: Option<nat>, woken: Option<nat>)
    requires Inv(s) && Enabled(s, Look(t, handle, woken))
    ensures Inv(Apply(s, Look(t, handle, woken)))
  {
    var f := s.threads[t].f;
    if !CanServe(s.pool, f) {
      MoveInv(s, t, Asleep(f));
    } else if f in s.pool.cache {
      HitSound(s.pool, f);
      BorrowInv(s, Hit(s.pool, f), t, f, s.pool.cache[f].handle, woken);
    } else if handle.Some? {
      InsertSound(s.pool, f, handle.value);
      NobodyHolds(s, f);
      BorrowInv(s, Insert(s.pool, f, handle.value), t, f, handle.value, woken);
    } else {
      MoveInv(s, t, Backoff(f, 1));
    }
  }

  lemma NobodyHolds(s: State, f: Name)
    requires Inv(s) && f !in s.pool.cache
    ensures Holders(s.threads, f) == {}
  {
  }

  lemma LookAgainInv(s: State, t: nat, woken: Option<nat>)
    requires Inv(s) && Enabled(s, LookAgain(t, woken))
    ensures Inv(Apply(s, LookAgain(t, woken)))
  {
    var f, h := s.threads[t].f, s.threads[t].handle;
    if !CanServe(s.pool, f) {
      MoveInv(s, t, AsleepOpen(f, h));
    } else if f in s.pool.cache {
      BorrowSound(s.pool, f);
      BorrowInv(s, Borrow(s.pool, f), t, f, s.pool.cache[f].handle, woken);
    } else {
      InsertSound(s.pool, f, h);
      NobodyHolds(s, f);
      BorrowInv(s, Insert(s.pool, f, h), t, f, h, woken);
    }
  }

  /** A return: the count goes down, and what is evicted was idle. */
  lemma ReturnKeeps(p: Pool, f: Name)
    requires Sound(p) && f in p.cache && p.cache[f].refcount > 0
    ensures forall g :: g in Return(p, f).cache ==> g in p.cache && Return(p, f).cache[g] == Released(p, f).cache[g]
    ensures forall g :: g in p.cache && g !in Return(p, f).cache ==> Released(p, f).cache[g].refcount == 0
    ensures FullIsBorrowed(Return(p, f))
  {
    ReturnSound(p, f);
    ReleasedSound(p, f);
    var q := Released(p, f);
    match LastIdle(q.lru, q.cache)
    case None => assert f in q.cache;
    case Some(i) =>
      DropOne(q, i);
  }

  lemma AllAwake(threads: map<nat, Pc>, p: Pool)
    ensures SleepersBlocked(p, WakeAll(threads))
    ensures forall t :: t in WakeAll(threads) ==> !IsAsleep(WakeAll(threads)[t])
    ensures forall t :: t in WakeAll(threads) && WakeAll(threads)[t].Holding? ==> t in threads && threads[t] == WakeAll(threads)[t]
  {
  }

  /** Counts stay exact when names are dropped that nobody holds any more. */
  lemma CountedFewer(p: Pool, q: Pool, threads: map<nat, Pc>, threads': map<nat, Pc>)
    requires Counted(p, threads)
    requires forall g :: g in q.cache ==> g in p.cache && q.cache[g].handle == p.cache[g].handle
                                          && q.cache[g].refcount == |Holders(threads', g)|
    requires forall g :: g in p.cache && g !in q.cache ==> Holders(threads', g) == {}
    requires forall t :: t in threads' && threads'[t].Holding? ==> t in threads && threads[t] == threads'[t]
    ensures Counted(q, threads')
  {
    forall t | t in threads' && threads'[t].Holding?
      ensures threads'[t].f in q.cache && q.cache[threads'[t].f].handle == threads'[t].handle
    {
      assert t in Holders(threads', threads'[t].f);
    }
  }

  lemma GivenBack(p: Pool, threads: map<nat, Pc>, t: nat, f: Name, g: Name)
    requires Sound(p) && Counted(p, threads) && t in threads && threads[t].Holding? && threads[t].f == f && f in p.cache
    requires p.cache[f].refcount > 0 && g in p.cache
    ensures Released(p, f).cache[g].refcount == |Holders(WakeAll(threads[t := Outside]), g)|
  {
    BorrowRemoved(threads, t, g);
    WakingMovesNoBorrow(threads[t := Outside], None, g);
  }

  lemma ReturnCounted(p: Pool, r: Pool, q: Pool, threads: map<nat, Pc>, threads': map<nat, Pc>)
    requires Counted(p, threads)
    requires forall g :: g in p.cache ==> g in r.cache && r.cache[g] == Entry(p.cache[g].handle, |Holders(threads', g)|)
    requires forall g :: g in q.cache ==> g in p.cache && q.cache[g] == r.cache[g]
    requires forall g :: g in p.cache && g !in q.cache ==> r.cache[g].refcount == 0
    requires forall t :: t in threads' && threads'[t].Holding? ==> t in threads && threads[t] == threads'[t]
    ensures Counted(q, threads')
  {
    CountedFewer(p, q, threads, threads');
  }

  lemma ReturnInv(p: Pool, threads: map<nat, Pc>, t: nat, f: Name)
    requires Sound(p) && Counted(p, threads) && t in threads && threads[t].Holding? && threads[t].f == f
    ensures Sound(Return(p, f)) && FullIsBorrowed(Return(p, f))
    ensures Counted(Return(p, f), WakeAll(threads[t := Outside]))
    ensures SleepersBlocked(Return(p, f), WakeAll(threads[t := Outside]))
  {
    HolderCounts(threads, t);
    ReturnSound(p, f);
    ReturnKeeps(p, f);
    AllAwake(threads[t := Outside], Return(p, f));
    var threads' := WakeAll(threads[t := Outside]);
    forall g | g in p.cache ensures Released(p, f).cache[g] == Entry(p.cache[g].handle, |Holders(threads', g)|) {
      GivenBack(p, threads, t, f, g);
    }
    ReturnCounted(p, Released(p, f), Return(p, f), threads, threads');
  }

  lemma GiveBackInv(s: State, t: nat)
    requires Inv(s) && Enabled(s, GiveBack(t))
    ensures Inv(Apply(s, GiveBack(t)))
  {
    ReturnInv(s.pool, s.threads, t, s.threads[t].f);
  }

  /** A holder is counted. */
  lemma HolderCounts(threads: map<nat, Pc>, u: nat)
    requires u in threads && threads[u].Holding?
    ensures |Holders(threads, threads[u].f)| > 0
  {
    assert u in Holders(threads, threads[u].f);
  }

  lemma CloseFileInv(s: State, f: Name)
    requires Inv(s)
    ensures Inv(Apply(s, CloseFile(f)))
  {
    if Idle(s.pool, f) {
      var p, q := s.pool, Close(s.pool, f);
      CloseSound(p, f);
      DropOne(p, PositionOf(p.lru, f));
      AllAwake(s.threads, q);
      forall g ensures Holders(WakeAll(s.threads), g) == Holders(s.threads, g) {
        WakingMovesNoBorrow(s.threads, None, g);
      }
      CountedFewer(p, q, s.threads, WakeAll(s.threads));
    }
  }

  lemma WakeInv(s: State, t: nat)
    requires Inv(s) && Enabled(s, Wake(t))
    ensures Inv(Apply(s, Wake(t)))
  {
    MoveInv(s, t, Woken(s.threads[t]));
  }

  lemma RetryInv(s: State, t: nat, handle: Option<nat>)
    requires Inv(s) && Enabled(s, Retry(t, handle))
    ensures Inv(Apply(s, Retry(t, handle)))
  {
    MoveInv(s, t, Apply(s, Retry(t, handle)).threads[t]);
  }

  lemma StepInv(s: State, step: Step)
    requires Inv(s) && Enabled(s, step)
    ensures Inv(Apply(s, step))
  {
    match step
    case Begin(t, f) => MoveInv(s, t, Wanting(f));
    case Look(t, handle, woken) => LookInv(s, t, handle, woken);
    case Retry(t, handle) => RetryInv(s, t, handle);
    case LookAgain(t, woken) => LookAgainInv(s, t, woken);
    case Wake(t) => WakeInv(s, t);
    case GiveBack(t) => GiveBackInv(s, t);
    case CloseFile(f) => CloseFileInv(s, f);
  }

  /** No thread is ever stuck, whatever an open brings, and a file can be closed at any time. */
  lemma NobodyStuck(s: State, t: nat, f: Name, handle: Option<nat>, woken: Option<nat>)
    ensures Enabled(s, CloseFile(f))
    ensures match PcOf(s, t)
            case Outside => Enabled(s, Begin(t, f))
            case Wanting(_) => Enabled(s, Look(t, handle, woken))
            case Backoff(_, _) => Enabled(s, Retry(t, handle))
            case Relocked(_, _) => Enabled(s, LookAgain(t, woken))
            case Holding(_, _) => Enabled(s, GiveBack(t))
            case _ => Enabled(s, Wake(t))
  {
  }

  /** A file that cannot be opened is tried three times; then the request ends without a handle, and the pool is as it was. */
  lemma ThirdFailureGivesUp(s: State, t: nat, f: Name)
    requires PcOf(s, t) == Wanting(f) && CanServe(s.pool, f) && f !in s.pool.cache
    ensures var first := Apply(s, Look(t, None, None));
            && PcOf(first, t) == Backoff(f, 1) && first.pool == s.pool
            && var second := Apply(first, Retry(t, None));
            && PcOf(second, t) == Backoff(f, 2) && second.pool == s.pool
            && var third := Apply(second, Retry(t, None));
            && PcOf(third, t) == Outside && third.pool == s.pool
  {
    var first := Apply(s, Look(t, None, None));
    var second := Apply(first, Retry(t, None));
    assert PcOf(Apply(second, Retry(t, None)), t) == Outside;
  }

  // ----- Runs --------------------------------------------------------------------------------------------

  ghost predicate IsRun(s: State, steps: seq<Step>)
    decreases |steps|
  {
    steps == [] || (Enabled(s, steps[0]) && IsRun(Apply(s, steps[0]), steps[1..]))
  }

  ghost function Outcome(s: State, steps: seq<Step>): State
    requires IsRun(s, steps)
    decreases |steps|
  {
    if steps == [] then s else Outcome(Apply(s, steps[0]), steps[1..])
  }

  /** Safety over whole runs: the order lists the cache, counts are borrows, borrowed handles stay, the size is bounded. */
  lemma {:induction false} RunsKeepInv(s: State, steps: seq<Step>)
    requires Inv(s) && IsRun(s, steps)
    ensures Inv(Outcome(s, steps))
    decreases |steps|
  {
    if steps != [] {
      StepInv(s, steps[0]);
      RunsKeepInv(Apply(s, steps[0]), steps[1..]);
    }
  }

  /** No step closes or replaces a handle that is still held after it. */
  lemma BorrowedStays(s: State, step: Step, t: nat)
    requires Inv(s) && Enabled(s, step) && PcOf(Apply(s, step), t).Holding?
    ensures var pc, cache := PcOf(Apply(s, step), t), Apply(s, step).pool.cache;
            pc.f in cache && cache[pc.f].handle == pc.handle && cache[pc.f].refcount > 0
  {
    StepInv(s, step);
    HolderCounts(Apply(s, step).threads, t);
  }

  /** And only its own return ends a borrow. */
  lemma BorrowEnds(s: State, step: Step, t: nat)
    requires Enabled(s, step) && PcOf(s, t).Holding? && step != GiveBack(t)
    ensures PcOf(Apply(s, step), t) == PcOf(s, t)
  {
  }

  lemma SomeoneHolds(p: Pool, threads: map<nat, Pc>) returns (u: nat)
    requires Counted(p, threads) && FullIsBorrowed(p) && |p.cache| >= p.max
    ensures u in threads && threads[u].Holding?
  {
    var f :| f in p.cache && p.cache[f].refcount > 0;
    if Holders(threads, f) == {} {
      assert false;
    }
    u :| u in Holders(threads, f);
  }

  /** Whoever sleeps, somebody holds a handle whose return will wake all sleepers. */
  lemma SleeperHasBorrow(s: State, t: nat) returns (u: nat)
    requires Inv(s) && IsAsleep(PcOf(s, t))
    ensures PcOf(s, u).Holding? && Enabled(s, GiveBack(u))
    ensures forall v :: v in Apply(s, GiveBack(u)).threads ==> !IsAsleep(Apply(s, GiveBack(u)).threads[v])
  {
    u := SomeoneHolds(s.pool, s.threads);
    AllAwake(s.threads[u := Outside], s.pool);
  }

  /** After a return there is space again, or every handle is borrowed. */
  lemma ReturnMakesRoom(s: State, t: nat)
    requires Inv(s) && Enabled(s, GiveBack(t))
    ensures var p := Apply(s, GiveBack(t)).pool; p.space || forall g :: g in p.cache ==> p.cache[g].refcount > 0
  {
    ReturnSound(s.pool, s.threads[t].f);
  }
}
