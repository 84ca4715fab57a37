/** What the frame id table does for orders that name an axis twice (src/streaming/array.dimensions.cpp, compute_transposition). */
module RepeatedAxes {
  import opened Arith
  import opened Lattice
  import opened Grid
  import opened Permutation
  import opened Transposition
  import opened Wrappers

  // ----- Sizes and targets -----------------------------------------------------------------------------

  /** Only the first position is written by more than one axis; the others have the size of the axis that goes there. */
  ghost predicate IsTable(a: seq<nat>, b: seq<nat>, target: seq<nat>) {
    && |a| == |b| == |target| > 0 && AllPositive(a) && AllPositive(b)
    && (forall k :: 0 <= k < |target| ==> target[k] < |target|)
    && (forall k, l :: 0 <= k < l < |target| && target[k] == target[l] ==> target[k] == 0)
    && (forall k :: 0 <= k < |target| && target[k] > 0 ==> b[target[k]] == a[k])
  }

  predicate Overwritten(target: seq<nat>, k: nat)
    requires k < |target|
  {
    exists l :: k < l < |target| && target[l] == target[k]
  }

  /** Different ids have different entries. */
  ghost predicate LosesNone(a: seq<nat>, b: seq<nat>, target: seq<nat>)
    requires IsTable(a, b, target)
  {
    forall f: nat, g: nat :: f < Size(a) && g < Size(a) && TableEntry(a, b, target, f) == TableEntry(a, b, target, g) ==> f == g
  }

  /** Every entry is a frame of the storage array. */
  ghost predicate StaysInside(a: seq<nat>, b: seq<nat>, target: seq<nat>)
    requires IsTable(a, b, target)
  {
    forall f: nat :: f < Size(a) ==> TableEntry(a, b, target, f) < Size(b)
  }

  /** A coordinate is where its axis goes, unless a later axis goes there too. */
  lemma ScatteredAt(a: seq<nat>, b: seq<nat>, target: seq<nat>, c: seq<nat>, k: nat)
    requires IsTable(a, b, target) && |c| == |target| && k < |target| && !Overwritten(target, k)
    ensures Scattered(c, target)[target[k]] == c[k]
  {
    LastPositionIs(target, target[k]);
  }

  /** Past the first position the coordinates are those of the storage array. */
  lemma ScatteredInTail(a: seq<nat>, b: seq<nat>, target: seq<nat>, c: seq<nat>)
    requires IsTable(a, b, target) && InBox(c, a)
    ensures InTail(Scattered(c, target), b)
    ensures Scattered(c, target)[0] > 0 ==>
              exists k :: 0 <= k < |target| && target[k] == 0 && !Overwritten(target, k) && Scattered(c, target)[0] == c[k]
  {
    forall t | 0 <= t < |b| ensures t > 0 ==> Scattered(c, target)[t] < b[t] {
      LastPositionIs(target, t);
    }
    LastPositionIs(target, 0);
    if Scattered(c, target)[0] > 0 {
      var k := LastPosition(target, 0);
      assert target[k] == 0 && !Overwritten(target, k);
    }
  }

  lemma EntryOf(a: seq<nat>, b: seq<nat>, target: seq<nat>, f: nat) returns (c: seq<nat>)
    requires IsTable(a, b, target) && f < Size(a)
    ensures InBox(c, a) && Rank(c, a) == f && TableEntry(a, b, target, f) == Rank(Scattered(c, target), b)
  {
    c := Unrank(f, a);
    RankUnrank(f, a);
  }

  /** The id of a coordinate and its entry. */
  lemma IdOf(a: seq<nat>, b: seq<nat>, target: seq<nat>, c: seq<nat>)
    requires IsTable(a, b, target) && InBox(c, a)
    ensures Rank(c, a) < Size(a) && TableEntry(a, b, target, Rank(c, a)) == Rank(Scattered(c, target), b)
  {
    RankBound(c, a);
    UnrankRank(c, a);
  }

  lemma SameCoordinates(a: seq<nat>, b: seq<nat>, target: seq<nat>, c: seq<nat>, d: seq<nat>)
    requires IsTable(a, b, target) && InBox(c, a) && InBox(d, a)
    requires forall k :: 0 <= k < |target| && Overwritten(target, k) ==> a[k] == 1
    requires Rank(Scattered(c, target), b) == Rank(Scattered(d, target), b)
    ensures c == d
  {
    ScatteredInTail(a, b, target, c);
    ScatteredInTail(a, b, target, d);
    UnrankRank(Scattered(c, target), b);
    UnrankRank(Scattered(d, target), b);
    forall k | 0 <= k < |c| ensures c[k] == d[k] {
      if !Overwritten(target, k) {
        ScatteredAt(a, b, target, c, k);
        ScatteredAt(a, b, target, d, k);
      }
    }
  }

  /** An axis that is overwritten and longer than 1: two ids with the same entry. */
  lemma TwoIds(a: seq<nat>, b: seq<nat>, target: seq<nat>, k: nat)
    requires IsTable(a, b, target) && k < |target| && Overwritten(target, k) && a[k] > 1
    ensures !LosesNone(a, b, target)
  {
    var c := seq(|a|, i => 0);
    var d := c[k := 1];
    assert c[k] != d[k];
    forall t | 0 <= t < |a| ensures Scattered(c, target)[t] == Scattered(d, target)[t] {
      LastPositionIs(target, t);
    }
    assert Scattered(c, target) == Scattered(d, target);
    IdOf(a, b, target, c);
    IdOf(a, b, target, d);
    UnrankRank(c, a);
    UnrankRank(d, a);
  }

  /** Ids stay distinct if and only if every overwritten axis has size 1. */
  lemma LosesNoneIff(a: seq<nat>, b: seq<nat>, target: seq<nat>)
    requires IsTable(a, b, target)
    ensures LosesNone(a, b, target) <==> forall k :: 0 <= k < |target| && Overwritten(target, k) ==> a[k] == 1
  {
    if forall k :: 0 <= k < |target| && Overwritten(target, k) ==> a[k] == 1 {
      forall f: nat, g: nat | f < Size(a) && g < Size(a) && TableEntry(a, b, target, f) == TableEntry(a, b, target, g) ensures f == g {
        var c := EntryOf(a, b, target, f);
        var d := EntryOf(a, b, target, g);
        SameCoordinates(a, b, target, c, d);
      }
    } else {
      var k :| 0 <= k < |target| && Overwritten(target, k) && a[k] != 1;
      TwoIds(a, b, target, k);
    }
  }

  /** The axis that goes to the first position in the end. */
  predicate Leads(target: seq<nat>, k: nat)
    requires k < |target|
  {
    target[k] == 0 && !Overwritten(target, k)
  }

  /** Frames stay inside the storage array if and only if that axis is no longer than the first one of it. */
  lemma StaysInsideIff(a: seq<nat>, b: seq<nat>, target: seq<nat>)
    requires IsTable(a, b, target)
    ensures StaysInside(a, b, target) <==> forall k :: 0 <= k < |target| && Leads(target, k) ==> a[k] <= b[0]
  {
    if forall k :: 0 <= k < |target| && Leads(target, k) ==> a[k] <= b[0] {
      forall f: nat | f < Size(a) ensures TableEntry(a, b, target, f) < Size(b) {
        var c := EntryOf(a, b, target, f);
        ScatteredInTail(a, b, target, c);
        if Scattered(c, target)[0] > 0 {
          var k :| 0 <= k < |target| && target[k] == 0 && !Overwritten(target, k) && Scattered(c, target)[0] == c[k];
          assert Leads(target, k);
        }
        RankBound(Scattered(c, target), b);
      }
    } else {
      var k :| 0 <= k < |target| && Leads(target, k) && a[k] > b[0];
      GoesOutside(a, b, target, k);
    }
  }

  lemma GoesOutside(a: seq<nat>, b: seq<nat>, target: seq<nat>, k: nat)
    requires IsTable(a, b, target) && k < |target| && Leads(target, k) && a[k] > b[0]
    ensures !StaysInside(a, b, target)
  {
    var zero: seq<nat> := seq(|a|, i => 0);
    var c := zero[k := b[0]];
    IdOf(a, b, target, c);
    ScatteredAt(a, b, target, c, k);
    var moved := Scattered(c, target);
    assert moved[0] == b[0] && Rank(moved, b) >= b[0] * Size(b[1..]);
  }

  // ----- The axes --------------------------------------------------------------------------------------

  /** An axis of the table that goes to position 0: the append axis, or one that the order does not name. */
  predicate AtFront(acq: seq<Dim>, order: seq<nat>, i: nat)
    requires acq != []
  {
    StartDim(acq) <= i < |acq| - 2 && LastPosition(order, i) == 0
  }

  /** All of these but the last have size 1. */
  predicate ShortFront(acq: seq<Dim>, order: seq<nat>)
    requires acq != []
  {
    forall i, j :: 0 <= i < j < |acq| && AtFront(acq, order, i) && AtFront(acq, order, j) ==> acq[i].size == 1
  }

  /** The last of them is no longer than the append axis. */
  predicate FittingFront(acq: seq<Dim>, order: seq<nat>)
    requires acq != []
  {
    forall i :: 0 <= i < |acq| && LastAtFront(acq, order, i) ==> acq[i].size <= acq[0].size
  }

  /** An order that gives a table. */
  predicate Tabled(acq: seq<Dim>, order: seq<nat>) {
    ValidDims(acq) && Accepted(acq, order) && HasLookupAxes(acq) && TargetsInRange(acq, order)
  }

  /** A position after the first has one axis, the one it names. */
  lemma OneWriter(order: seq<nat>, i: nat)
    ensures LastPosition(order, i) > 0 ==> LastPosition(order, i) < |order| && order[LastPosition(order, i)] == i
  {
    LastPositionIs(order, i);
  }

  lemma MapIsTable(acq: seq<Dim>, order: seq<nat>, storage: seq<Dim>, a: seq<nat>, b: seq<nat>, target: seq<nat>)
    requires Tabled(acq, order) && target == TableTargets(acq, order)
    requires |storage| == |acq| && forall j :: 0 <= j < |acq| ==> storage[j] == acq[order[j]]
    requires a == FrameSizes(acq)[StartDim(acq)..] && b == FrameSizes(storage)[StartDim(acq)..]
    ensures IsTable(a, b, target)
  {
    forall k, l | 0 <= k < l < |target| && target[k] == target[l] ensures target[k] == 0 {
      SharedIsFirst(acq, order, target, k, l);
    }
    forall k | 0 <= k < |target| && target[k] > 0 ensures b[target[k]] == a[k] {
      WriterOf(acq, order, target, k);
      SizeAt(acq, order, storage, a, b, k, target[k]);
    }
    forall t | 0 <= t < |b| ensures a[t] > 0 && b[t] > 0 {
      SizesPositive(acq, order, storage, a, b, target, t);
    }
  }

  lemma WriterOf(acq: seq<Dim>, order: seq<nat>, target: seq<nat>, k: nat)
    requires Tabled(acq, order) && target == TableTargets(acq, order) && k < |target| && target[k] > 0
    ensures order[target[k] + StartDim(acq)] == k + StartDim(acq)
  {
    OneWriter(order, k + StartDim(acq));
  }

  lemma SharedIsFirst(acq: seq<Dim>, order: seq<nat>, target: seq<nat>, k: nat, l: nat)
    requires Tabled(acq, order) && target == TableTargets(acq, order) && k < l < |target| && target[k] == target[l]
    ensures target[k] == 0
  {
    if target[k] > 0 {
      WriterOf(acq, order, target, k);
      WriterOf(acq, order, target, l);
    }
  }

  lemma SizesPositive(acq: seq<Dim>, order: seq<nat>, storage: seq<Dim>, a: seq<nat>, b: seq<nat>, target: seq<nat>, t: nat)
    requires Tabled(acq, order) && target == TableTargets(acq, order)
    requires |storage| == |acq| && forall j :: 0 <= j < |acq| ==> storage[j] == acq[order[j]]
    requires a == FrameSizes(acq)[StartDim(acq)..] && b == FrameSizes(storage)[StartDim(acq)..] && t < |b|
    ensures t < |a| && a[t] > 0 && b[t] > 0
  {
    if StartDim(acq) == 1 {
      EveryPosition(acq, order, target, t);
    }
  }

  lemma SizeAt(acq: seq<Dim>, order: seq<nat>, storage: seq<Dim>, a: seq<nat>, b: seq<nat>, k: nat, t: nat)
    requires Tabled(acq, order) && |storage| == |acq| && forall j :: 0 <= j < |acq| ==> storage[j] == acq[order[j]]
    requires a == FrameSizes(acq)[StartDim(acq)..] && b == FrameSizes(storage)[StartDim(acq)..] && k < |a| && t < |b|
    requires order[t + StartDim(acq)] == k + StartDim(acq)
    ensures b[t] == a[k]
  {
  }

  /** With an unbounded append axis, the axes of the table go to all its positions. */
  lemma EveryPosition(acq: seq<Dim>, order: seq<nat>, target: seq<nat>, t: nat)
    requires Tabled(acq, order) && StartDim(acq) == 1 && target == TableTargets(acq, order) && t < |target|
    ensures IsPermutation(target) && t in target && 1 <= order[t + 1] < |acq| - 2
  {
    forall k, l | 0 <= k < l < |target| ensures target[k] != target[l] {
      OneWriter(order, k + 1);
      OneWriter(order, l + 1);
    }
    Onto(target, t);
    var k :| 0 <= k < |target| && target[k] == t;
    OneWriter(order, k + 1);
  }

  /** The conditions on the axes are those on the targets. */
  lemma FrontIs(acq: seq<Dim>, order: seq<nat>, storage: seq<Dim>, a: seq<nat>, b: seq<nat>, target: seq<nat>)
    requires Tabled(acq, order) && target == TableTargets(acq, order)
    requires |storage| == |acq| && forall j :: 0 <= j < |acq| ==> storage[j] == acq[order[j]]
    requires a == FrameSizes(acq)[StartDim(acq)..] && b == FrameSizes(storage)[StartDim(acq)..] && IsTable(a, b, target)
    ensures ShortFront(acq, order) <==> forall k :: 0 <= k < |target| && Overwritten(target, k) ==> a[k] == 1
    ensures FittingFront(acq, order) <==> forall k :: 0 <= k < |target| && Leads(target, k) ==> a[k] <= b[0]
  {
    if StartDim(acq) == 1 {
      UnboundedFront(acq, order);
      forall k | 0 <= k < |target| ensures !Overwritten(target, k) && (Leads(target, k) ==> a[k] <= b[0]) {
        UnboundedAxis(acq, order, storage, a, b, target, k);
      }
    } else {
      BoundedFront(acq, order, storage, a, b, target);
    }
  }

  lemma UnboundedAxis(acq: seq<Dim>, order: seq<nat>, storage: seq<Dim>, a: seq<nat>, b: seq<nat>, target: seq<nat>, k: nat)
    requires Tabled(acq, order) && StartDim(acq) == 1 && target == TableTargets(acq, order) && k < |target|
    requires |storage| == |acq| && forall j :: 0 <= j < |acq| ==> storage[j] == acq[order[j]]
    requires a == FrameSizes(acq)[1..] && b == FrameSizes(storage)[1..]
    ensures !Overwritten(target, k) && (Leads(target, k) ==> a[k] <= b[0])
  {
    EveryPosition(acq, order, target, k);
    OneWriter(order, k + 1);
    if target[k] == 0 {
      SizeAt(acq, order, storage, a, b, k, 0);
    }
  }

  lemma BoundedFront(acq: seq<Dim>, order: seq<nat>, storage: seq<Dim>, a: seq<nat>, b: seq<nat>, target: seq<nat>)
    requires Tabled(acq, order) && StartDim(acq) == 0 && target == TableTargets(acq, order)
    requires |storage| == |acq| && forall j :: 0 <= j < |acq| ==> storage[j] == acq[order[j]]
    requires a == FrameSizes(acq)[0..] && b == FrameSizes(storage)[0..] && IsTable(a, b, target)
    ensures ShortFront(acq, order) <==> forall k :: 0 <= k < |target| && Overwritten(target, k) ==> a[k] == 1
    ensures FittingFront(acq, order) <==> forall k :: 0 <= k < |target| && Leads(target, k) ==> a[k] <= b[0]
  {
    forall i: nat | i < |target| ensures (AtFront(acq, order, i) <==> target[i] == 0) && a[i] == acq[i].size {
    }
    ShortIs(acq, order, a, target);
    FittingIs(acq, order, a, b[0], target);
  }

  /** The table's axes are all but the last two. */
  predicate SameFront(acq: seq<Dim>, order: seq<nat>, a: seq<nat>, target: seq<nat>) {
    |a| == |target| == |acq| - 2 && forall i: nat :: i < |target| ==> (AtFront(acq, order, i) <==> target[i] == 0) && a[i] == acq[i].size
  }

  lemma ShortIs(acq: seq<Dim>, order: seq<nat>, a: seq<nat>, target: seq<nat>)
    requires SameFront(acq, order, a, target) && forall k, l :: 0 <= k < l < |target| && target[k] == target[l] ==> target[k] == 0
    ensures ShortFront(acq, order) <==> forall k :: 0 <= k < |target| && Overwritten(target, k) ==> a[k] == 1
  {
    if ShortFront(acq, order) {
      forall k | 0 <= k < |target| && Overwritten(target, k) ensures a[k] == 1 {
        var l :| k < l < |target| && target[l] == target[k];
        assert AtFront(acq, order, k) && AtFront(acq, order, l);
      }
    }
    if forall k :: 0 <= k < |target| && Overwritten(target, k) ==> a[k] == 1 {
      forall i, j | 0 <= i < j < |acq| && AtFront(acq, order, i) && AtFront(acq, order, j) ensures acq[i].size == 1 {
        assert target[i] == target[j] && Overwritten(target, i);
      }
    }
  }

  predicate LastAtFront(acq: seq<Dim>, order: seq<nat>, i: nat)
    requires acq != []
  {
    AtFront(acq, order, i) && forall j :: i < j < |acq| ==> !AtFront(acq, order, j)
  }

  lemma FittingIs(acq: seq<Dim>, order: seq<nat>, a: seq<nat>, first: nat, target: seq<nat>)
    requires SameFront(acq, order, a, target) && acq[0].size == first
    ensures FittingFront(acq, order) <==> forall k :: 0 <= k < |target| && Leads(target, k) ==> a[k] <= first
  {
    forall k: nat | k < |acq| ensures LastAtFront(acq, order, k) <==> k < |target| && Leads(target, k) {
      LastIs(acq, order, a, target, k);
    }
  }

  lemma LastIs(acq: seq<Dim>, order: seq<nat>, a: seq<nat>, target: seq<nat>, k: nat)
    requires SameFront(acq, order, a, target) && k < |acq|
    ensures LastAtFront(acq, order, k) <==> k < |target| && Leads(target, k)
  {
    if k < |target| && Leads(target, k) {
      forall j | k < j < |acq| ensures !AtFront(acq, order, j) {
        assert j < |target| ==> target[j] != target[k];
      }
    }
  }

  // ----- What the table keeps --------------------------------------------------------------------------

  ghost predicate DistinctIds(m: TranspositionMap) {
    forall f, g :: 0 <= f < |m.frameIdLookup| && 0 <= g < |m.frameIdLookup| && m.frameIdLookup[f] == m.frameIdLookup[g] ==> f == g
  }

  /** Entries are frames of the storage array, or of one index of its unbounded axis. */
  ghost predicate InsideIds(m: TranspositionMap, storage: seq<Dim>)
    requires |storage| == |m.acquisitionDims| >= 3
  {
    forall f :: 0 <= f < |m.frameIdLookup| ==> m.frameIdLookup[f] < Size(FrameSizes(storage)[StartDim(m.acquisitionDims)..])
  }

  /**
   For every order that gives a table: no two frames get the same id if and only if, of the axes that go to position
   0, all but the last have size 1; and no frame leaves the storage array if and only if the last is no longer
   than the append axis.
   */
  lemma FramesKept(m: TranspositionMap, acq: seq<Dim>, order: seq<nat>, storage: seq<Dim>)
    requires Tabled(acq, order) && IsMap(m, acq, order, storage)
    ensures DistinctIds(m) <==> ShortFront(acq, order)
    ensures InsideIds(m, storage) <==> FittingFront(acq, order)
  {
    var start, target := StartDim(acq), TableTargets(acq, order);
    var a, b := FrameSizes(acq)[start..], FrameSizes(storage)[start..];
    MapIsTable(acq, order, storage, a, b, target);
    FrontIs(acq, order, storage, a, b, target);
    LosesNoneIff(a, b, target);
    StaysInsideIff(a, b, target);
    LookupIs(m.frameIdLookup, a, b, target);
  }

  lemma LookupIs(lookup: seq<nat>, a: seq<nat>, b: seq<nat>, target: seq<nat>)
    requires IsTable(a, b, target) && |lookup| == Size(a)
    requires forall f :: 0 <= f < |lookup| ==> lookup[f] == TableEntry(a, b, target, f)
    ensures LosesNone(a, b, target) <==>
              forall f, g :: 0 <= f < |lookup| && 0 <= g < |lookup| && lookup[f] == lookup[g] ==> f == g
    ensures StaysInside(a, b, target) <==> forall f :: 0 <= f < |lookup| ==> lookup[f] < Size(b)
  {
    if forall f, g :: 0 <= f < |lookup| && 0 <= g < |lookup| && lookup[f] == lookup[g] ==> f == g {
      forall f: nat, g: nat | f < Size(a) && g < Size(a) && TableEntry(a, b, target, f) == TableEntry(a, b, target, g) ensures f == g {
        assert lookup[f] == lookup[g];
      }
    }
    if forall f :: 0 <= f < |lookup| ==> lookup[f] < Size(b) {
      forall f: nat | f < Size(a) ensures TableEntry(a, b, target, f) < Size(b) {
        assert lookup[f] < Size(b);
      }
    }
  }

  /** With an unbounded append axis both hold, whatever the order. */
  lemma UnboundedFront(acq: seq<Dim>, order: seq<nat>)
    requires Tabled(acq, order) && acq[0].size == 0
    ensures ShortFront(acq, order) && FittingFront(acq, order)
  {
  }

  /** And then there are as many frames in the storage array, for each index of that axis, as in the table. */
  lemma SameCount(acq: seq<Dim>, order: seq<nat>, storage: seq<Dim>, a: seq<nat>, b: seq<nat>, target: seq<nat>)
    requires Tabled(acq, order) && acq[0].size == 0 && target == TableTargets(acq, order)
    requires |storage| == |acq| && forall j :: 0 <= j < |acq| ==> storage[j] == acq[order[j]]
    requires a == FrameSizes(acq)[1..] && b == FrameSizes(storage)[1..]
    ensures Size(a) == Size(b)
  {
    EveryPosition(acq, order, target, 0);
    var o := Positions(target);
    PositionsInvert(target);
    forall t | 0 <= t < |b| ensures b[t] == a[o[t]] {
      WriterAt(acq, order, target, t);
      SizeAt(acq, order, storage, a, b, o[t], t);
    }
    assert b == Permute(a, o);
    SizePermute(a, o);
  }

  lemma WriterAt(acq: seq<Dim>, order: seq<nat>, target: seq<nat>, t: nat)
    requires Tabled(acq, order) && acq[0].size == 0 && target == TableTargets(acq, order) && t < |target|
    ensures LastPosition(target, t) < |target| && order[t + 1] == LastPosition(target, t) + 1
  {
    EveryPosition(acq, order, target, t);
    LastPositionIs(target, t);
    OneWriter(order, LastPosition(target, t) + 1);
  }

  /** So no accepted order over an unbounded append axis loses a frame: ids differ, and keep their index of that axis. */
  lemma UnboundedKeepsFrames(m: TranspositionMap, acq: seq<Dim>, order: seq<nat>, storage: seq<Dim>, f: nat, g: nat)
    requires Tabled(acq, order) && IsMap(m, acq, order, storage) && acq[0].size == 0
    ensures var n := Size(FrameSizes(storage)[1..]); n > 0 && TransposeFrameId(Some(m), f) / n == f / n
    ensures TransposeFrameId(Some(m), f) == TransposeFrameId(Some(m), g) ==> f == g
  {
    UnboundedFront(acq, order);
    FramesKept(m, acq, order, storage);
    SameCount(acq, order, storage, FrameSizes(acq)[1..], FrameSizes(storage)[1..], TableTargets(acq, order));
    LookedUp(m, f);
    LookedUp(m, g);
  }

  lemma LookedUp(m: TranspositionMap, f: nat)
    requires m.innerFrameCount == |m.frameIdLookup| > 0 && forall k :: 0 <= k < |m.frameIdLookup| ==> m.frameIdLookup[k] < |m.frameIdLookup|
    ensures var n := |m.frameIdLookup|;
            && TransposeFrameId(Some(m), f) / n == f / n && TransposeFrameId(Some(m), f) % n == m.frameIdLookup[f % n]
            && f == f / n * n + f % n
  {
    var n := |m.frameIdLookup|;
    DivModDef(f, n);
    DivModUnique(f / n, n, m.frameIdLookup[f % n]);
  }

  // ----- Orders that repeat an axis ----------------------------------------------------------------------

  /** Four bounded axes; the columns are named twice, the rows not at all: no frame is lost. */
  lemma RepeatedColumns(acq: seq<Dim>, order: seq<nat>)
    requires acq == [Dim(Time, 2, 1, 1), Dim(Channel, 3, 1, 1), Dim(Space, 4, 2, 1), Dim(Space, 4, 2, 1)] && order == [0, 1, 2, 2]
    ensures Tabled(acq, order) && !Distinct(order) && ShortFront(acq, order) && FittingFront(acq, order)
  {
    LastPositionIs(order, 0);
    LastPositionIs(order, 1);
    assert order[1] == 1 && order[2] == order[3];
  }

  /** Frame sizes 2, 2, `z`: the channel is named twice and `z` not at all; frames are lost, and for `z` of 3 some leave the array. */
  lemma RepeatedChannel(acq: seq<Dim>, order: seq<nat>, z: nat)
    requires z > 0 && order == [0, 1, 1, 3, 4]
    requires acq == [Dim(Time, 2, 1, 1), Dim(Channel, 2, 1, 1), Dim(Space, z, 1, 1), Dim(Space, 4, 2, 1), Dim(Space, 4, 2, 1)]
    ensures Tabled(acq, order) && !ShortFront(acq, order) && (FittingFront(acq, order) <==> z <= 2)
  {
    LastPositionIs(order, 0);
    LastPositionIs(order, 1);
    LastPositionIs(order, 2);
    assert order[0] == 0 && order[2] == 1;
    assert AtFront(acq, order, 0) && AtFront(acq, order, 2) && !AtFront(acq, order, 1);
  }

  /** There the storage array can have more frames than the table: a frame within its size is then looked up past the end. */
  lemma AcceptedPastTable(acq: seq<Dim>, order: seq<nat>, storage: seq<Dim>)
    requires order == [0, 1, 1, 3, 4]
    requires acq == [Dim(Time, 2, 1, 1), Dim(Channel, 3, 1, 1), Dim(Space, 2, 1, 1), Dim(Space, 4, 2, 1), Dim(Space, 4, 2, 1)]
    requires |storage| == |acq| && forall j :: 0 <= j < |acq| ==> storage[j] == acq[order[j]]
    ensures Tabled(acq, order) && Size(FrameSizes(acq)) == 12 && Size(FrameSizes(storage)) == 18
  {
    LastPositionIs(order, 0);
    LastPositionIs(order, 1);
    LastPositionIs(order, 2);
    assert order[0] == 0 && order[2] == 1;
    SizeOfThree(FrameSizes(acq));
    SizeOfThree(FrameSizes(storage));
  }

  lemma SizeOfThree(s: seq<nat>)
    requires |s| == 3
    ensures Size(s) == s[0] * (s[1] * s[2])
  {
    assert s[1..][1..][1..] == [];
    assert Size(s[1..][1..]) == s[2] && Size(s[1..]) == s[1] * s[2];
  }
}
