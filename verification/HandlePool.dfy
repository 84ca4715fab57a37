/**
 The cache of open file handles (src/streaming/file.handle.cpp): each section that holds the lock, as a function on
 the pool's value and as a method of the class.

 A name in the cache has its handle, the number of borrowers, and a place in the list from the most to the least
 recently used.  A request for a cached name is a borrow; for another name a new handle is put in, if there is room.
 A return takes the borrow back and, when the cache is full, evicts the last handle of the list that nobody has
 borrowed.  Only return and close ever remove a handle, and the flag says whether there is room.
 */
module HandlePool {
  import opened Wrappers

  type Name = string

  /** An open handle and how many borrows of it are outstanding. */
  datatype Entry = Entry(handle: nat, refcount: nat)

  /** The pool's fields; the front of the LRU order is the most recently used name. */
  datatype Pool = Pool(max: nat, lru: seq<Name>, cache: map<Name, Entry>, space: bool)

  ghost predicate NoDuplicates(s: seq<Name>) {
    forall i, j :: 0 <= i < j < |s| ==> s[i] != s[j]
  }

  /** The order lists the cache, each name once; the size never exceeds the maximum; the flag is exact. */
  ghost predicate Sound(p: Pool) {
    && p.max >= 1
    && NoDuplicates(p.lru) && (forall f :: f in p.cache <==> f in p.lru) && |p.lru| == |p.cache| <= p.max
    && (p.space <==> |p.cache| < p.max)
  }

  predicate Idle(p: Pool, f: Name) {
    f in p.cache && p.cache[f].refcount == 0
  }

  /** Position of the least recently used idle name. */
  function LastIdle(lru: seq<Name>, cache: map<Name, Entry>): (r: Option<nat>)
    ensures r.Some? ==> r.value < |lru| && lru[r.value] in cache && cache[lru[r.value]].refcount == 0
    ensures r.Some? ==> forall i :: r.value < i < |lru| && lru[i] in cache ==> cache[lru[i]].refcount > 0
    ensures r.None? ==> forall i :: 0 <= i < |lru| && lru[i] in cache ==> cache[lru[i]].refcount > 0
  {
    if lru == [] then None
    else if lru[|lru| - 1] in cache && cache[lru[|lru| - 1]].refcount == 0 then Some(|lru| - 1)
    else LastIdle(lru[..|lru| - 1], cache)
  }

  function Without(lru: seq<Name>, i: nat): seq<Name>
    requires i < |lru|
  {
    lru[..i] + lru[i + 1..]
  }

  function PositionOf(lru: seq<Name>, f: Name): (i: nat)
    requires f in lru
    ensures i < |lru| && lru[i] == f
  {
    if lru[0] == f then 0 else 1 + PositionOf(lru[1..], f)
  }

  /** Drops a name and the handle with it. */
  function Drop(p: Pool, i: nat): Pool
    requires i < |p.lru|
  {
    p.(lru := Without(p.lru, i), cache := p.cache - {p.lru[i]})
  }

  function EvictLru(p: Pool): Pool {
    match LastIdle(p.lru, p.cache)
    case None => p
    case Some(i) => Drop(p, i)
  }

  function SetSpace(p: Pool): Pool {
    p.(space := |p.cache| < p.max)
  }

  /** Whether a request for `f` can be served now. */
  predicate CanServe(p: Pool, f: Name) {
    f in p.cache || p.space
  }

  /** One more borrow of a cached name. */
  function Borrow(p: Pool, f: Name): Pool
    requires f in p.cache
  {
    SetSpace(p).(cache := p.cache[f := p.cache[f].(refcount := p.cache[f].refcount + 1)])
  }

  /** Served from the cache: to the front, and borrowed. */
  function Hit(p: Pool, f: Name): Pool
    requires f in p.cache && f in p.lru
  {
    Borrow(p.(lru := [f] + Without(p.lru, PositionOf(p.lru, f))), f)
  }

  /** A handle just opened: inserted at the front, and borrowed. */
  function Insert(p: Pool, f: Name, handle: nat): Pool {
    Borrow(p.(lru := [f] + p.lru, cache := p.cache[f := Entry(handle, 0)]), f)
  }

  function Released(p: Pool, f: Name): Pool
    requires f in p.cache
  {
    var n := p.cache[f].refcount;
    p.(cache := p.cache[f := p.cache[f].(refcount := if n > 0 then n - 1 else 0)])
  }

  function Return(p: Pool, f: Name): Pool {
    if f !in p.cache then p
    else
      var q := Released(p, f);
      SetSpace(if |q.cache| >= q.max then EvictLru(q) else q)
  }

  function Close(p: Pool, f: Name): Pool {
    if !Idle(p, f) || f !in p.lru then p else SetSpace(Drop(p, PositionOf(p.lru, f)))
  }

  // ----- Each section keeps the pool sound ---------------------------------------------------------

  lemma WithoutOne(lru: seq<Name>, i: nat)
    requires i < |lru| && NoDuplicates(lru)
    ensures NoDuplicates(Without(lru, i)) && lru[i] !in Without(lru, i)
    ensures forall f :: f in Without(lru, i) <==> f in lru && f != lru[i]
  {
    var r := Without(lru, i);
    assert forall j :: 0 <= j < |r| ==> r[j] == lru[if j < i then j else j + 1];
    forall f | f in lru && f != lru[i] ensures f in r {
      var j :| 0 <= j < |lru| && lru[j] == f;
      assert r[if j < i then j else j - 1] == f;
    }
  }

  lemma DropOne(p: Pool, i: nat)
    requires Sound(p) && i < |p.lru|
    ensures Sound(SetSpace(Drop(p, i)))
    ensures forall f :: f in Drop(p, i).cache <==> f in p.cache && f != p.lru[i]
    ensures forall f :: f in Drop(p, i).cache ==> Drop(p, i).cache[f] == p.cache[f]
    ensures |Drop(p, i).cache| == |p.cache| - 1
  {
    WithoutOne(p.lru, i);
    assert p.lru[i] in p.cache;
    assert (p.cache - {p.lru[i]}).Keys == p.cache.Keys - {p.lru[i]};
  }

  lemma HitSound(p: Pool, f: Name)
    requires Sound(p) && f in p.cache && f in p.lru
    ensures Sound(Hit(p, f))
  {
    WithoutOne(p.lru, PositionOf(p.lru, f));
    SameKeys(p.cache, Hit(p, f).cache);
  }

  lemma SameKeys<V>(a: map<Name, V>, b: map<Name, V>)
    requires a.Keys == b.Keys
    ensures |a| == |b|
  {
    assert |a| == |a.Keys| && |b| == |b.Keys|;
  }

  lemma BorrowSound(p: Pool, f: Name)
    requires Sound(p) && f in p.cache
    ensures Sound(Borrow(p, f)) && Borrow(p, f).space == p.space
  {
    SameKeys(p.cache, Borrow(p, f).cache);
  }

  lemma InsertSound(p: Pool, f: Name, handle: nat)
    requires Sound(p) && f !in p.cache && p.space
    ensures Sound(Insert(p, f, handle))
  {
    var c := p.cache[f := Entry(handle, 0)];
    assert c.Keys == p.cache.Keys + {f};
    SameKeys(c, Insert(p, f, handle).cache);
  }

  lemma ReleasedSound(p: Pool, f: Name)
    requires Sound(p) && f in p.cache
    ensures Sound(Released(p, f)) && |Released(p, f).cache| == |p.cache|
  {
    SameKeys(p.cache, Released(p, f).cache);
  }

  /** After a return there is space, or every entry is borrowed. */
  lemma ReturnSound(p: Pool, f: Name)
    requires Sound(p)
    ensures Sound(Return(p, f))
    ensures f in p.cache ==> Return(p, f).space || forall g :: g in Return(p, f).cache ==> Return(p, f).cache[g].refcount > 0
  {
    if f in p.cache {
      ReleasedSound(p, f);
      var q := Released(p, f);
      match LastIdle(q.lru, q.cache)
      case None =>
      case Some(i) => DropOne(q, i);
    }
  }

  lemma CloseSound(p: Pool, f: Name)
    requires Sound(p)
    ensures Sound(Close(p, f))
  {
    if Idle(p, f) {
      DropOne(p, PositionOf(p.lru, f));
    }
  }

  /** A close takes out an idle entry, and nothing else. */
  lemma CloseRemoves(p: Pool, f: Name)
    requires Sound(p)
    ensures f in Close(p, f).cache <==> f in p.cache && p.cache[f].refcount > 0
    ensures forall g :: g != f ==> (g in Close(p, f).cache <==> g in p.cache)
    ensures forall g :: g in Close(p, f).cache ==> Close(p, f).cache[g] == p.cache[g]
  {
    if Idle(p, f) {
      DropOne(p, PositionOf(p.lru, f));
    }
  }

  // ----- The pool object -----------------------------------------------------------------------------

  class FileHandlePool {
    const maxActiveHandles: nat
    var lruOrder: seq<Name>
    var cache: map<Name, Entry>
    var cacheSpaceAvailable: bool

    constructor (max: nat)
      requires max >= 1
      ensures maxActiveHandles == max && State() == Pool(max, [], map[], true) && Sound(State())
    {
      maxActiveHandles := max;
      lruOrder, cache, cacheSpaceAvailable := [], map[], true;
    }

    function State(): Pool reads this {
      Pool(maxActiveHandles, lruOrder, cache, cacheSpaceAvailable)
    }

    /** The last section of get_handle: `newHandle` was opened for `f`, if it was not in the cache. */
    method Serve(f: Name, newHandle: nat, moveToFront: bool) returns (handle: nat)
      requires CanServe(State(), f) && (f in cache ==> f in lruOrder)
      modifies this
      ensures State() == if f !in old(cache) then Insert(old(State()), f, newHandle)
                         else if moveToFront then Hit(old(State()), f) else Borrow(old(State()), f)
      ensures f in cache && handle == cache[f].handle
    {
      if f !in cache {
        lruOrder := [f] + lruOrder;
        cache := cache[f := Entry(newHandle, 0)];
      } else if moveToFront {
        lruOrder := [f] + Without(lruOrder, PositionOf(lruOrder, f));
      }
      handle := LendOut(f);
    }

    method LendOut(f: Name) returns (handle: nat)
      requires f in cache
      modifies this`cacheSpaceAvailable, this`cache
      ensures State() == Borrow(old(State()), f)
      ensures f in cache && handle == cache[f].handle
    {
      cacheSpaceAvailable := |cache| < maxActiveHandles;
      cache := cache[f := cache[f].(refcount := cache[f].refcount + 1)];
      handle := cache[f].handle;
    }

    method ReturnHandle(f: Name)
      modifies this
      ensures State() == Return(old(State()), f)
    {
      if f !in cache {
        return;
      }
      Release(f);
      if |cache| >= maxActiveHandles {
        EvictLruHandle();
      }
      cacheSpaceAvailable := |cache| < maxActiveHandles;
    }

    method Release(f: Name)
      requires f in cache
      modifies this`cache
      ensures State() == Released(old(State()), f)
    {
      if cache[f].refcount > 0 {
        cache := cache[f := cache[f].(refcount := cache[f].refcount - 1)];
      } else {
        assert cache[f := cache[f].(refcount := 0)] == cache;
      }
    }

    /** From the back, the first idle handle is closed. */
    method EvictLruHandle()
      modifies this
      ensures State() == EvictLru(old(State()))
    {
      var i := |lruOrder|;
      while i > 0
        invariant 0 <= i <= |lruOrder| && lruOrder == old(lruOrder) && cache == old(cache)
        invariant cacheSpaceAvailable == old(cacheSpaceAvailable)
        invariant LastIdle(lruOrder, cache) == LastIdle(lruOrder[..i], cache)
      {
        i := i - 1;
        assert lruOrder[..i + 1][..i] == lruOrder[..i];
        if lruOrder[i] in cache && cache[lruOrder[i]].refcount == 0 {
          cache := cache - {lruOrder[i]};
          lruOrder := lruOrder[..i] + lruOrder[i + 1..];
          return;
        }
      }
    }

    method CloseHandle(f: Name)
      requires f in cache ==> f in lruOrder
      modifies this
      ensures State() == Close(old(State()), f)
    {
      if f !in cache || cache[f].refcount > 0 {
        return;
      }
      lruOrder := Without(lruOrder, PositionOf(lruOrder, f));
      cache := cache - {f};
      cacheSpaceAvailable := |cache| < maxActiveHandles;
    }
  }
}
