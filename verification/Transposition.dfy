/**
 Acquisition order to storage order (src/streaming/array.dimensions.cpp, compute_transposition
 and transpose_frame_id).
 */
module Transposition {
  import opened Arith
  import opened Lattice
  import opened Grid
  import opened Permutation
  import opened Strides
  import opened Dimensions
  import opened Wrappers

  datatype TranspositionMap = TranspositionMap(
    acquisitionDims: seq<Dim>,
    acqToStorage: seq<nat>,
    storageToAcq: seq<nat>,
    frameIdLookup: seq<nat>,
    innerFrameCount: nat)

  /** `OutOfRange` stands for an index the program would use outside its table. */
  datatype Outcome =
    | Transposed(dims: seq<Dim>, map_: Option<TranspositionMap>)
    | Rejected
    | OutOfRange

  const SIZE_MAX_PLUS_ONE: nat := 0x1_0000_0000_0000_0000

  /** Index the stride loop starts from, in the program's 64-bit unsigned arithmetic. */
  function FirstStrideIndex(lookupDims: nat): (i: nat) {
    (lookupDims + SIZE_MAX_PLUS_ONE - 1) % SIZE_MAX_PLUS_ONE
  }

  predicate KeepsFrameAxes(order: seq<nat>) {
    |order| >= 2 && forall j :: 0 <= j < |order| - 2 ==> order[j] < |order| - 2
  }

  predicate IsIdentity(order: seq<nat>) {
    forall i :: 0 <= i < |order| ==> order[i] == i
  }

  /** The checks the program makes on the requested order. */
  predicate Accepted(acq: seq<Dim>, order: seq<nat>) {
    && |order| == |acq| >= 3
    && order[0] == 0
    && (forall i :: 0 <= i < |order| ==> order[i] < |acq|)
    && acq[order[|acq| - 2]].kind == Space
    && acq[order[|acq| - 1]].kind == Space
  }

  /** A frame id table exists: some axis besides an unbounded append axis is in it. */
  predicate HasLookupAxes(acq: seq<Dim>) {
    |acq| >= 4 || (|acq| == 3 && acq[0].size > 0)
  }

  /** First axis of the table. */
  function StartDim(acq: seq<Dim>): (d: nat)
    requires acq != []
    ensures d <= 1
  {
    if acq[0].size == 0 then 1 else 0
  }

  /** Where the index map puts `a`: the last position that names it, the initial 0 if none does. */
  function LastPosition(order: seq<nat>, a: nat): (j: nat)
    ensures j < |order| || j == 0
  {
    if order == [] then 0
    else if order[|order| - 1] == a then |order| - 1
    else LastPosition(order[..|order| - 1], a)
  }

  /** Every axis of the table goes to a position of the table. */
  predicate TargetsInRange(acq: seq<Dim>, order: seq<nat>)
    requires |acq| >= 2
  {
    forall i :: StartDim(acq) <= i < |acq| - 2 ==> StartDim(acq) <= LastPosition(order, i) < |acq| - 2
  }

  function TableTargets(acq: seq<Dim>, order: seq<nat>): (target: seq<nat>)
    requires |acq| >= 3 && TargetsInRange(acq, order)
    ensures |target| == |acq| - 2 - StartDim(acq)
    ensures forall k :: 0 <= k < |target| ==> target[k] == LastPosition(order, k + StartDim(acq)) - StartDim(acq) < |target|
  {
    var start := StartDim(acq);
    seq(|acq| - 2 - start, k requires 0 <= k < |acq| - 2 - start => LastPosition(order, k + start) - start)
  }

  /** Coordinates written to their targets one after the other, in a buffer of zeros. */
  function Scattered(coords: seq<nat>, target: seq<nat>): (moved: seq<nat>)
    requires |target| == |coords|
    ensures |moved| == |coords|
  {
    seq(|coords|, t requires 0 <= t < |coords| => if t in target then coords[LastPosition(target, t)] else 0)
  }

  /** What the table holds for an id, whatever the targets are. */
  function TableEntry(acqSizes: seq<nat>, storSizes: seq<nat>, target: seq<nat>, frameId: nat): nat
    requires |acqSizes| == |storSizes| == |target| > 0 && AllPositive(acqSizes[1..])
  {
    Rank(Scattered(Unrank(frameId, acqSizes), target), storSizes)
  }

  lemma {:induction false} LastPositionIs(order: seq<nat>, a: nat)
    ensures var j := LastPosition(order, a);
            if a in order then j < |order| && order[j] == a && forall k :: j < k < |order| ==> order[k] != a else j == 0
  {
    if order != [] && order[|order| - 1] != a {
      var init := order[..|order| - 1];
      LastPositionIs(init, a);
      assert order == init + [order[|order| - 1]];
    }
  }

  /** The identity puts every axis in its place, and no axis but the first gets its place otherwise. */
  lemma PositionKept(order: seq<nat>, i: nat)
    requires i < |order| && order[0] == 0
    ensures IsIdentity(order) ==> LastPosition(order, i) == i
    ensures LastPosition(order, i) == i ==> order[i] == i
  {
    LastPositionIs(order, i);
    if IsIdentity(order) {
      assert order[i] == i;
    }
  }

  /** One more entry of the order moves one axis. */
  lemma LastPositionNext(order: seq<nat>, j: nat, a: nat)
    requires j < |order|
    ensures LastPosition(order[..j + 1], a) == if a == order[j] then j else LastPosition(order[..j], a)
  {
    assert order[..j + 1][..j] == order[..j];
  }

  /** Sizes of the axes a frame id runs over, in acquisition order. */
  function FrameSizes(dims: seq<Dim>): seq<nat>
    requires |dims| >= 2
  {
    ArraySizes(FrameDims(dims))
  }

  function FrameOrder(order: seq<nat>): (o: seq<nat>)
    requires IsPermutation(order) && KeepsFrameAxes(order)
    ensures IsPermutation(o) && |o| == |order| - 2
  {
    order[..|order| - 2]
  }

  lemma FrameSizesPositive(dims: seq<Dim>)
    requires ValidDims(dims)
    ensures |FrameSizes(dims)| == |dims| - 2 && AllPositive(FrameSizes(dims)[1..])
    ensures Size(FrameSizes(dims)[1..]) > 0
  {
    SizePositive(FrameSizes(dims)[1..]);
  }

  /** The storage frame id of an acquisition frame id: the same coordinates, axes reordered. */
  function ToStorage(acq: seq<Dim>, order: seq<nat>, frameId: nat): nat
    requires ValidDims(acq) && |order| == |acq| && IsPermutation(order) && KeepsFrameAxes(order)
  {
    FrameSizesPositive(acq);
    Renumber(frameId, FrameSizes(acq), FrameOrder(order))
  }

  ghost predicate ValidOrder(acq: seq<Dim>, order: seq<nat>) {
    ValidDims(acq) && |order| == |acq| && FixesAppendAxis(order) && KeepsFrameAxes(order)
  }

  ghost predicate ValidMap(m: TranspositionMap, storage: seq<Dim>) {
    var acq, order := m.acquisitionDims, m.storageToAcq;
    && ValidOrder(acq, order) && Inverse(order, m.acqToStorage) && HasLookupAxes(acq)
    && |storage| == |acq|
    && (forall j :: 0 <= j < |acq| ==> storage[j] == acq[order[j]])
    && (acq[0].size > 0 ==> m.innerFrameCount == 0 && |m.frameIdLookup| == Size(FrameSizes(acq)))
    && (acq[0].size == 0 ==> m.innerFrameCount == |m.frameIdLookup| == Size(FrameSizes(acq)[1..]))
    && |m.frameIdLookup| > 0
    && forall f :: 0 <= f < |m.frameIdLookup| ==> m.frameIdLookup[f] == ToStorage(acq, order, f)
  }

  /** What the program stores for an order it has accepted and found targets for. */
  ghost predicate IsMap(m: TranspositionMap, acq: seq<Dim>, order: seq<nat>, storage: seq<Dim>)
    requires ValidDims(acq) && Accepted(acq, order) && HasLookupAxes(acq) && TargetsInRange(acq, order)
  {
    var start := StartDim(acq);
    && m.acquisitionDims == acq && m.storageToAcq == order
    && |m.acqToStorage| == |order| && (forall a :: 0 <= a < |order| ==> m.acqToStorage[a] == LastPosition(order, a))
    && |storage| == |acq| && (forall j :: 0 <= j < |acq| ==> storage[j] == acq[order[j]])
    && |m.frameIdLookup| == Size(FrameSizes(acq)[start..]) > 0
    && m.innerFrameCount == (if start == 1 then |m.frameIdLookup| else 0)
    && forall f :: 0 <= f < |m.frameIdLookup| ==>
         m.frameIdLookup[f] == TableEntry(FrameSizes(acq)[start..], FrameSizes(storage)[start..], TableTargets(acq, order), f)
  }

  /** The program's formula: table lookup, with the append index split off when it is unbounded. */
  function TransposeFrameId(map_: Option<TranspositionMap>, frameId: nat): nat
    requires map_.Some? ==> |map_.value.frameIdLookup| > 0
    requires map_.Some? && map_.value.innerFrameCount > 0 ==>
               map_.value.innerFrameCount == |map_.value.frameIdLookup|
    requires map_.Some? && map_.value.innerFrameCount == 0 ==> frameId < |map_.value.frameIdLookup|
  {
    match map_
    case None => frameId
    case Some(m) =>
      if m.innerFrameCount > 0 then
        frameId / m.innerFrameCount * m.innerFrameCount + m.frameIdLookup[frameId % m.innerFrameCount]
      else
        m.frameIdLookup[frameId]
  }

  /** The lookup answers with the reordered coordinates, for every frame id the array can reach. */
  lemma TransposeIsToStorage(m: TranspositionMap, storage: seq<Dim>, frameId: nat)
    requires ValidMap(m, storage)
    requires m.acquisitionDims[0].size > 0 ==> frameId < Size(FrameSizes(m.acquisitionDims))
    ensures TransposeFrameId(Some(m), frameId) == ToStorage(m.acquisitionDims, m.storageToAcq, frameId)
  {
    var acq := m.acquisitionDims;
    FrameSizesPositive(acq);
    var sizes, order := FrameSizes(acq), FrameOrder(m.storageToAcq);
    if acq[0].size == 0 {
      var inner := Size(sizes[1..]);
      RenumberSplits(frameId, sizes, order);
      RenumberSplits(frameId % inner, sizes, order);
      DivModUnique(0, inner, frameId % inner);
    }
  }

  /** Renumbering keeps the append index, so complete acquisition layers are complete storage layers. */
  lemma ToStorageKeepsLayer(acq: seq<Dim>, order: seq<nat>, frameId: nat, chunk: nat)
    requires ValidOrder(acq, order) && chunk > 0
    ensures Size(FrameSizes(acq)[1..]) > 0
    ensures var n := Size(FrameSizes(acq)[1..]);
            && chunk * n > 0
            && ToStorage(acq, order, frameId) / n == frameId / n
            && ToStorage(acq, order, frameId) / (chunk * n) == frameId / (chunk * n)
  {
    FrameSizesPositive(acq);
    RenumberSplits(frameId, FrameSizes(acq), FrameOrder(order));
    SameQuotient(ToStorage(acq, order, frameId), frameId, Size(FrameSizes(acq)[1..]), chunk);
  }

  /** The stride loop counts down from the last lookup axis only if there is one. */
  lemma StrideLoopInRange(acq: seq<Dim>)
    requires |acq| >= 3 && |acq| < SIZE_MAX_PLUS_ONE
    ensures var lookupDims := |acq| - 2 - (if acq[0].size == 0 then 1 else 0);
            FirstStrideIndex(lookupDims) < lookupDims <==> HasLookupAxes(acq)
  {
  }

  /**
   Orders that pass the checks and still have no frame id table: over an unbounded append axis alone, where
   the stride loop starts from the largest 64-bit index; one that makes a row axis of `z`; and one that
   names an axis twice, which then goes to a row position although no frame axis of the order does.
   */
  lemma AcceptedWithoutTable()
    ensures var acq := [Dim(Time, 0, 1, 1), Dim(Space, 4, 2, 1), Dim(Space, 4, 2, 1)];
            && ValidDims(acq) && Accepted(acq, [0, 2, 1]) && TargetsInRange(acq, [0, 2, 1])
            && !HasLookupAxes(acq) && FirstStrideIndex(|acq| - 2 - 1) == SIZE_MAX_PLUS_ONE - 1
    ensures var acq := [Dim(Time, 0, 1, 1), Dim(Space, 3, 1, 1), Dim(Space, 4, 2, 1), Dim(Space, 4, 2, 1)];
            && ValidDims(acq) && HasLookupAxes(acq)
            && Accepted(acq, [0, 2, 1, 3]) && !TargetsInRange(acq, [0, 2, 1, 3])
            && Accepted(acq, [0, 1, 1, 3]) && !IsIdentity([0, 1, 1, 3]) && KeepsFrameAxes([0, 1, 1, 3])
            && !TargetsInRange(acq, [0, 1, 1, 3])
  {
    LastPositionIs([0, 2, 1, 3], 1);
    LastPositionIs([0, 1, 1, 3], 1);
    assert [0, 2, 1, 3][2] == 1 && [0, 1, 1, 3][2] == 1;
    assert [0, 1, 1, 3][3] == 3;
  }

  /** An order that names an axis twice and fills its table: frames 0 and 4 of 2 x 2 x 2 get the same storage id. */
  lemma RepeatedAxisLosesFrames(acq: seq<Dim>, order: seq<nat>, twos: seq<nat>)
    requires acq == [Dim(Time, 2, 1, 1), Dim(Channel, 2, 1, 1), Dim(Space, 2, 1, 1), Dim(Space, 4, 2, 1), Dim(Space, 4, 2, 1)]
    requires order == [0, 1, 1, 3, 4] && twos == [2, 2, 2]
    ensures ValidDims(acq) && Accepted(acq, order) && HasLookupAxes(acq) && TargetsInRange(acq, order)
    ensures AllPositive(twos[1..])
            && TableEntry(twos, twos, TableTargets(acq, order), 0) == TableEntry(twos, twos, TableTargets(acq, order), 4)
  {
    RepeatedTargets(acq, order);
    SameEntries(twos, TableTargets(acq, order));
  }

  lemma RepeatedTargets(acq: seq<Dim>, order: seq<nat>)
    requires |acq| == 5 && acq[0].size == 2 && order == [0, 1, 1, 3, 4]
    ensures TargetsInRange(acq, order) && TableTargets(acq, order) == [0, 2, 0]
  {
    LastPositionIs(order, 0);
    LastPositionIs(order, 1);
    LastPositionIs(order, 2);
    assert order[0] == 0 && order[2] == 1;
  }

  lemma SameEntries(shape: seq<nat>, target: seq<nat>)
    requires shape == [2, 2, 2] && target == [0, 2, 0]
    ensures AllPositive(shape[1..]) && TableEntry(shape, shape, target, 0) == TableEntry(shape, shape, target, 4)
  {
    UnrankTwos(0, [0, 0, 0]);
    UnrankTwos(4, [1, 0, 0]);
    SameCoordinates([0, 0, 0], [1, 0, 0], target);
  }

  /** The last coordinate overwrites the first. */
  lemma SameCoordinates(c: seq<nat>, d: seq<nat>, target: seq<nat>)
    requires |c| == |d| == 3 && c[1..] == d[1..] && target == [0, 2, 0]
    ensures Scattered(c, target) == Scattered(d, target)
  {
    LastPositionIs(target, 0);
    LastPositionIs(target, 2);
    assert target[2] == 0 && target[1] == 2 && c[1..][0] == d[1..][0] && c[1..][1] == d[1..][1];
    assert forall t :: 0 <= t < 3 ==> Scattered(c, target)[t] == Scattered(d, target)[t];
  }

  lemma UnrankTwos(k: nat, c: seq<nat>)
    requires InBox(c, [2, 2, 2]) && k == 4 * c[0] + 2 * c[1] + c[2]
    ensures AllPositive([2, 2, 2][1..]) && Unrank(k, [2, 2, 2]) == c
  {
    var shape: seq<nat> := [2, 2, 2];
    assert shape[1..] == [2, 2] && shape[1..][1..] == [2] && shape[1..][1..][1..] == [];
    assert c[1..] == [c[1], c[2]] && c[1..][1..] == [c[2]] && c[1..][1..][1..] == [];
    UnrankRank(c, shape);
    assert Rank(c[1..][1..], [2]) == c[2] && Size([2]) == 2 && Size([2, 2]) == 4;
    assert Rank(c[1..], [2, 2]) == c[1] * 2 + c[2];
  }

  /** For an order that names each axis once, the table exists when the last two axes stay last. */
  lemma TargetsKeepFrameAxes(acq: seq<Dim>, order: seq<nat>)
    requires Accepted(acq, order) && Distinct(order)
    ensures TargetsInRange(acq, order) <==> KeepsFrameAxes(order)
  {
    var target := Positions(order);
    PositionsInvert(order);
    KeepsBothWays(order, target);
    assert target[order[0]] == 0;
    assert forall i :: 0 < i < |acq| - 2 ==> target[i] != target[0];
  }

  function Positions(order: seq<nat>): (p: seq<nat>)
    ensures |p| == |order| && forall a :: 0 <= a < |p| ==> p[a] == LastPosition(order, a)
  {
    seq(|order|, a requires 0 <= a < |order| => LastPosition(order, a))
  }

  /** The two index maps are inverse exactly when the order names each axis once. */
  lemma PositionsInvert(order: seq<nat>)
    requires forall i :: 0 <= i < |order| ==> order[i] < |order|
    ensures Inverse(order, Positions(order)) <==> Distinct(order)
  {
    if Distinct(order) {
      forall k | 0 <= k < |order| ensures Positions(order)[order[k]] == k {
        LastPositionIs(order, order[k]);
      }
      TargetIsInverse(order, Positions(order));
    }
  }

  /** What is stored is a valid map, the same coordinates with the axes reordered, exactly when the order names each axis once. */
  lemma MapIsValid(m: TranspositionMap, acq: seq<Dim>, order: seq<nat>, storage: seq<Dim>)
    requires ValidDims(acq) && Accepted(acq, order) && HasLookupAxes(acq) && TargetsInRange(acq, order)
    requires IsMap(m, acq, order, storage)
    ensures ValidMap(m, storage) <==> Distinct(order)
    ensures Inverse(order, m.acqToStorage) <==> Distinct(order)
  {
    assert m.acqToStorage == Positions(order);
    PositionsInvert(order);
    if Distinct(order) {
      TargetsKeepFrameAxes(acq, order);
      PermutedFrameSizes(acq, storage, order);
      EntriesAreStorage(m, acq, order, storage, FrameSizes(storage), TableTargets(acq, order));
      assert FrameSizes(acq)[0..] == FrameSizes(acq);
    }
  }

  lemma EntriesAreStorage(m: TranspositionMap, acq: seq<Dim>, order: seq<nat>, storage: seq<Dim>, storSizes: seq<nat>,
                          target: seq<nat>)
    requires ValidOrder(acq, order) && Accepted(acq, order) && HasLookupAxes(acq) && TargetsInRange(acq, order)
    requires IsMap(m, acq, order, storage) && Inverse(order, m.acqToStorage)
    requires storSizes == FrameSizes(storage) == Permute(FrameSizes(acq), FrameOrder(order)) && target == TableTargets(acq, order)
    ensures forall f :: 0 <= f < |m.frameIdLookup| ==> m.frameIdLookup[f] == ToStorage(acq, order, f)
  {
    var start := StartDim(acq);
    var o := LookupOrder(acq, order, m.acqToStorage, start, target);
    forall f | 0 <= f < |m.frameIdLookup| ensures m.frameIdLookup[f] == ToStorage(acq, order, f) {
      InnerRenumber(acq, order, f);
      EntryRenumbers(FrameSizes(acq)[start..], o, target, f);
      assert FrameSizes(acq)[0..] == FrameSizes(acq);
    }
  }

  /** With targets that invert an order of the axes, the table renumbers along it. */
  lemma EntryRenumbers(acqSizes: seq<nat>, order: seq<nat>, target: seq<nat>, f: nat)
    requires |acqSizes| > 0 && AllPositive(acqSizes[1..]) && Inverse(order, target) && |order| == |acqSizes|
    ensures TableEntry(acqSizes, Permute(acqSizes, order), target, f) == Renumber(f, acqSizes, order)
  {
    ScatteredIsPermuted(Unrank(f, acqSizes), order, target);
  }

  lemma ScatteredIsPermuted(coords: seq<nat>, order: seq<nat>, target: seq<nat>)
    requires Inverse(order, target) && |order| == |coords|
    ensures Scattered(coords, target) == Permute(coords, order)
  {
    forall t | 0 <= t < |coords| ensures Scattered(coords, target)[t] == Permute(coords, order)[t] {
      assert target[order[t]] == t;
      LastPositionIs(target, t);
    }
  }

  /** Coordinates of an id, dividing by one stride after the other. */
  method Coordinates(frameId: nat, sizes: seq<nat>, strides: seq<nat>) returns (coords: seq<nat>)
    requires |sizes| > 0 && AllPositive(sizes[1..]) && AreStrides(strides, sizes)
    ensures coords == Unrank(frameId, sizes)
  {
    coords := [];
    var remaining := frameId;
    assert sizes[0..] == sizes;
    for i := 0 to |sizes|
      invariant |coords| == i
      invariant AllPositive(sizes[i..][if i < |sizes| then 1 else 0..])
      invariant coords + Unrank(remaining, sizes[i..]) == Unrank(frameId, sizes)
    {
      assert sizes[i..][1..] == sizes[i + 1..];
      SizePositive(sizes[i + 1..]);
      RowColDiv(remaining, strides[i]);
      coords := coords + [remaining / strides[i]];
      remaining := remaining % strides[i];
    }
  }

  /** Positions that are no target hold the zeros the buffer was made with. */
  ghost predicate ZeroElsewhere(buffer: seq<nat>, target: seq<nat>) {
    forall t :: 0 <= t < |buffer| && t !in target ==> buffer[t] == 0
  }

  /** What position `t` holds when the first `i` coordinates are written. */
  function Written(coords: seq<nat>, target: seq<nat>, buffer: seq<nat>, i: nat, t: nat): nat
    requires |coords| == |target| == |buffer| && i <= |target| && t < |buffer|
  {
    if t in target[..i] then coords[LastPosition(target[..i], t)] else buffer[t]
  }

  lemma WrittenNext(coords: seq<nat>, target: seq<nat>, buffer: seq<nat>, i: nat, t: nat)
    requires |coords| == |target| == |buffer| && i < |target| && t < |buffer|
    ensures Written(coords, target, buffer, i + 1, t) == if t == target[i] then coords[i] else Written(coords, target, buffer, i, t)
  {
    LastPositionNext(target, i, t);
    assert target[..i + 1] == target[..i] + [target[i]];
  }

  /** The coordinates written to the positions `target`; no other position is ever written. */
  method Scatter(coords: seq<nat>, target: seq<nat>, buffer: seq<nat>) returns (moved: seq<nat>)
    requires |coords| == |target| == |buffer| && forall k :: 0 <= k < |target| ==> target[k] < |target|
    requires ZeroElsewhere(buffer, target)
    ensures moved == Scattered(coords, target) && ZeroElsewhere(moved, target)
  {
    moved := buffer;
    for i := 0 to |coords|
      invariant |moved| == |coords|
      invariant forall t :: 0 <= t < |moved| ==> moved[t] == Written(coords, target, buffer, i, t)
    {
      ghost var next := moved[target[i] := coords[i]];
      forall t | 0 <= t < |moved| ensures next[t] == Written(coords, target, buffer, i + 1, t) {
        WrittenNext(coords, target, buffer, i, t);
      }
      moved := moved[target[i] := coords[i]];
    }
    assert target[..|coords|] == target;
  }

  /** One table entry: coordinates of the id, moved, ranked again. */
  method LookupEntry(frameId: nat, acqSizes: seq<nat>, ghost storSizes: seq<nat>, acqStrides: seq<nat>,
                     storStrides: seq<nat>, target: seq<nat>, buffer: seq<nat>)
    returns (id: nat, storCoords: seq<nat>)
    requires |acqSizes| == |storSizes| == |target| == |buffer| > 0 && AllPositive(acqSizes[1..])
    requires forall k :: 0 <= k < |target| ==> target[k] < |target|
    requires ZeroElsewhere(buffer, target)
    requires AreStrides(acqStrides, acqSizes) && AreStrides(storStrides, storSizes)
    ensures id == TableEntry(acqSizes, storSizes, target, frameId)
    ensures |storCoords| == |target| && ZeroElsewhere(storCoords, target)
  {
    var acqCoords := Coordinates(frameId, acqSizes, acqStrides);
    storCoords := Scatter(acqCoords, target, buffer);
    id := RankByStrides(storCoords, storSizes, storStrides);
  }

  /** The inverse order keeps the frame axes too, and inverts the order on them. */
  lemma FrameInverse(order: seq<nat>, target: seq<nat>)
    requires Inverse(order, target) && KeepsFrameAxes(order)
    ensures KeepsFrameAxes(target) && Inverse(FrameOrder(order), FrameOrder(target))
  {
    var m := |order| - 2;
    forall i | 0 <= i < m ensures target[i] < m {
      Onto(FrameOrder(order), i);
      var j :| 0 <= j < m && order[j] == i;
    }
    assert forall j :: 0 <= j < m ==> FrameOrder(target)[FrameOrder(order)[j]] == j;
  }

  /** Some frame axis goes to a row or column position exactly when some row or column axis becomes a frame axis. */
  lemma KeepsBothWays(order: seq<nat>, target: seq<nat>)
    requires Inverse(order, target) && |order| >= 2
    ensures KeepsFrameAxes(order) <==> KeepsFrameAxes(target)
  {
    InverseSymmetric(order, target);
    if KeepsFrameAxes(order) {
      FrameInverse(order, target);
    }
    if KeepsFrameAxes(target) {
      FrameInverse(target, order);
    }
  }

  lemma ShiftedInverse(order: seq<nat>, target: seq<nat>)
    requires Inverse(order, target) && FixesAppendAxis(order)
    ensures FixesAppendAxis(target) && Inverse(Shifted(order), Shifted(target))
  {
    assert target[order[0]] == 0;
    assert forall j :: 1 <= j < |order| ==> order[j] != order[0];
    assert forall j :: 0 <= j < |order| - 1 ==> Shifted(target)[Shifted(order)[j]] == j;
  }

  lemma PermutedFrameSizes(acq: seq<Dim>, storage: seq<Dim>, order: seq<nat>)
    requires ValidOrder(acq, order) && |storage| == |acq|
    requires forall j :: 0 <= j < |acq| ==> storage[j] == acq[order[j]]
    ensures FrameSizes(storage) == Permute(FrameSizes(acq), FrameOrder(order))
    ensures ValidDims(storage)
  {
    assert forall j :: 1 <= j < |order| ==> order[0] != order[j];
  }

  /** Index mapping and storage dimensions from the requested order; fails on an index out of range. */
  method Reorder(acq: seq<Dim>, order: seq<nat>)
    returns (ok: bool, storage: seq<Dim>, acqToStorage: seq<nat>, storageToAcq: seq<nat>)
    requires |order| == |acq|
    ensures ok <==> forall i :: 0 <= i < |order| ==> order[i] < |acq|
    ensures ok ==> acqToStorage == Positions(order) && storageToAcq == order
    ensures ok ==> |storage| == |acq| && forall j :: 0 <= j < |acq| ==> storage[j] == acq[order[j]]
    ensures ok ==> (Inverse(order, acqToStorage) <==> Distinct(order))
  {
    var n := |acq|;
    acqToStorage, storageToAcq, storage := seq(n, i => 0), seq(n, i => 0), acq;
    for j := 0 to n
      invariant |acqToStorage| == |storageToAcq| == |storage| == n
      invariant forall k :: 0 <= k < j ==> order[k] < n
      invariant forall k :: 0 <= k < j ==> storage[k] == acq[order[k]] && storageToAcq[k] == order[k]
      invariant forall a :: 0 <= a < n ==> acqToStorage[a] == LastPosition(order[..j], a)
    {
      var a := order[j];
      if a >= n {
        return false, storage, acqToStorage, storageToAcq;
      }
      ghost var next := acqToStorage[a := j];
      forall b | 0 <= b < n ensures next[b] == LastPosition(order[..j + 1], b) {
        LastPositionNext(order, j, b);
      }
      storage := storage[j := acq[a]];
      acqToStorage := acqToStorage[a := j];
      storageToAcq := storageToAcq[j := a];
    }
    assert order[..n] == order;
    PositionsInvert(order);
    ok := true;
  }

  method CheckIdentity(acqToStorage: seq<nat>, ghost order: seq<nat>) returns (isIdentity: bool)
    requires acqToStorage == Positions(order) && order != [] && order[0] == 0
    ensures isIdentity <==> IsIdentity(order)
  {
    for i := 0 to |acqToStorage|
      invariant forall k :: 0 <= k < i ==> order[k] == k
    {
      PositionKept(order, i);
      if acqToStorage[i] != i {
        return false;
      }
    }
    isIdentity := true;
  }

  /**
   The whole computation: what is accepted, when no table is needed, when the table can be
   filled without leaving it, what it then holds, and when that is a reordering of the axes.
   */
  method ComputeTransposition(acq: seq<Dim>, order: seq<nat>) returns (r: Outcome)
    requires ValidDims(acq)
    ensures order == [] ==> r == Transposed(acq, None)
    ensures order != [] && |order| != |acq| ==> r == Rejected
    ensures |order| == |acq| ==>
              (r.Rejected? <==> order[0] != 0 || exists j :: 0 <= j < |acq| && (order[j] >= |acq| || (j >= |acq| - 2 && acq[order[j]].kind != Space)))
    ensures order != [] ==>
              (r.Transposed? && r.map_.None? <==>
               |order| == |acq| && (forall j :: 0 <= j < |acq| ==> order[j] == j) && acq[|acq| - 2].kind == acq[|acq| - 1].kind == Space)
    ensures |order| == |acq| && FixesAppendAxis(order) && (forall j :: 0 <= j < |acq| - 2 ==> order[j] < |acq| - 2) ==>
              (acq[|acq| - 2].kind == acq[|acq| - 1].kind == Space && (|acq| > 3 || acq[0].size > 0) ==> r.Transposed?)
    ensures order != [] && !Accepted(acq, order) ==> r == Rejected
    ensures order != [] && Accepted(acq, order) ==>
              if IsIdentity(order) then r == Transposed(acq, None)
              else if HasLookupAxes(acq) && TargetsInRange(acq, order) then
                && r.Transposed? && r.map_.Some? && IsMap(r.map_.value, acq, order, r.dims)
                && (ValidMap(r.map_.value, r.dims) <==> Distinct(order))
              else r == OutOfRange
  {
    if order == [] {
      return Transposed(acq, None);
    }
    var n := |acq|;
    if |order| != n || order[0] != 0 {
      return Rejected;
    }
    WhichOrders(acq, order);
    var ok, storage, acqToStorage, storageToAcq := Reorder(acq, order);
    if !ok || storage[n - 2].kind != Space || storage[n - 1].kind != Space {
      return Rejected;
    }
    var isIdentity := CheckIdentity(acqToStorage, order);
    if isIdentity {
      assert storage == acq;
      return Transposed(storage, None);
    }
    if n - 2 - StartDim(acq) == 0 {
      return OutOfRange;
    }
    r := FillMap(acq, order, storage, acqToStorage);
  }

  /** An order of the frame axes, with rows and columns in either order after them, gets its table. */
  lemma KeepingIsAccepted(acq: seq<Dim>, order: seq<nat>)
    requires ValidDims(acq) && |order| == |acq| && FixesAppendAxis(order) && KeepsFrameAxes(order)
    requires acq[|acq| - 2].kind == acq[|acq| - 1].kind == Space
    ensures Accepted(acq, order) && TargetsInRange(acq, order)
  {
    var target := Positions(order);
    PositionsInvert(order);
    KeepsBothWays(order, target);
    forall j | |acq| - 2 <= j < |acq| ensures order[j] >= |acq| - 2 {
      assert target[order[j]] == j;
    }
    TargetsKeepFrameAxes(acq, order);
  }

  /** The checks, and which orders they let through to the table. */
  lemma WhichOrders(acq: seq<Dim>, order: seq<nat>)
    requires ValidDims(acq) && |order| == |acq| && order[0] == 0
    ensures Accepted(acq, order) <==> !exists j :: 0 <= j < |acq| && (order[j] >= |acq| || (j >= |acq| - 2 && acq[order[j]].kind != Space))
    ensures FixesAppendAxis(order) && (forall j :: 0 <= j < |acq| - 2 ==> order[j] < |acq| - 2) ==>
              (acq[|acq| - 2].kind == acq[|acq| - 1].kind == Space ==> Accepted(acq, order) && TargetsInRange(acq, order))
  {
    if FixesAppendAxis(order) && KeepsFrameAxes(order) && acq[|acq| - 2].kind == acq[|acq| - 1].kind == Space {
      KeepingIsAccepted(acq, order);
    }
  }

  /** Rows and columns exchanged, all else as acquired: four axes, and the table is the identity on frames. */
  lemma RowsAndColumns(acq: seq<Dim>, order: seq<nat>)
    requires acq == [Dim(Time, 2, 1, 1), Dim(Channel, 2, 1, 1), Dim(Space, 4, 2, 1), Dim(Space, 6, 2, 1)] && order == [0, 1, 3, 2]
    ensures ValidDims(acq) && Accepted(acq, order) && HasLookupAxes(acq) && TargetsInRange(acq, order) && !IsIdentity(order)
    ensures TableTargets(acq, order) == [0, 1]
  {
    LastPositionIs(order, 0);
    LastPositionIs(order, 1);
    assert order[0] == 0 && order[1] == 1 && order[2] == 3;
  }

  lemma TargetIsInverse(order: seq<nat>, target: seq<nat>)
    requires IsPermutation(order) && |target| == |order|
    requires forall k :: 0 <= k < |order| ==> target[order[k]] == k
    ensures Inverse(order, target)
  {
    forall i | 0 <= i < |order| ensures target[i] < |order| && order[target[i]] == i {
      Onto(order, i);
      var j :| 0 <= j < |order| && order[j] == i;
    }
  }

  /** Positions the coordinates are stored at; fails when one lies outside the coordinate buffer. */
  method Targets(acqToStorage: seq<nat>, startDim: nat) returns (inRange: bool, target: seq<nat>)
    requires |acqToStorage| >= 3 && startDim <= 1
    ensures inRange <==> forall i :: startDim <= i < |acqToStorage| - 2 ==> startDim <= acqToStorage[i] < |acqToStorage| - 2
    ensures inRange ==> |target| == |acqToStorage| - 2 - startDim
    ensures inRange ==> forall k :: 0 <= k < |target| ==> target[k] == acqToStorage[k + startDim] - startDim
  {
    var m := |acqToStorage| - 2;
    target := [];
    for i := startDim to m
      invariant |target| == i - startDim
      invariant forall k :: startDim <= k < i ==> startDim <= acqToStorage[k] < m
      invariant forall k :: 0 <= k < |target| ==> target[k] == acqToStorage[k + startDim] - startDim
    {
      if acqToStorage[i] < startDim || acqToStorage[i] >= m {
        return false, [];
      }
      target := target + [acqToStorage[i] - startDim];
    }
    inRange := true;
  }

  /** The table itself, once its axes are known to exist. */
  method FillMap(acq: seq<Dim>, order: seq<nat>, storage: seq<Dim>, acqToStorage: seq<nat>) returns (r: Outcome)
    requires ValidDims(acq) && Accepted(acq, order) && HasLookupAxes(acq) && |storage| == |acq|
    requires acqToStorage == Positions(order) && forall j :: 0 <= j < |acq| ==> storage[j] == acq[order[j]]
    ensures !TargetsInRange(acq, order) ==> r == OutOfRange
    ensures TargetsInRange(acq, order) ==>
              && r.Transposed? && r.map_.Some? && IsMap(r.map_.value, acq, order, r.dims)
              && (ValidMap(r.map_.value, r.dims) <==> Distinct(order))
  {
    var startDim := StartDim(acq);
    var inRange, target := Targets(acqToStorage, startDim);
    if !inRange {
      return OutOfRange;
    }
    assert target == TableTargets(acq, order);
    FrameSizesPositive(acq);
    assert FrameSizes(acq)[startDim..][1..] == FrameSizes(acq)[startDim + 1..];
    var lookup := FillLookup(FrameSizes(acq)[startDim..], FrameSizes(storage)[startDim..], target);
    TableNotEmpty(acq);
    var m := TranspositionMap(acq, acqToStorage, order, lookup, if startDim == 1 then |lookup| else 0);
    MapIsValid(m, acq, order, storage);
    r := Transposed(storage, Some(m));
  }

  lemma TableNotEmpty(acq: seq<Dim>)
    requires ValidDims(acq)
    ensures Size(FrameSizes(acq)[StartDim(acq)..]) > 0
  {
    SizePositive(FrameSizes(acq)[StartDim(acq)..]);
  }

  /** The order of the axes in the table, and that the scatter targets invert it. */
  lemma LookupOrder(acq: seq<Dim>, order: seq<nat>, acqToStorage: seq<nat>, startDim: nat, target: seq<nat>)
    returns (o: seq<nat>)
    requires ValidOrder(acq, order) && Inverse(order, acqToStorage) && HasLookupAxes(acq)
    requires startDim == if acq[0].size == 0 then 1 else 0
    requires |target| == |acq| - 2 - startDim
    requires forall k :: 0 <= k < |target| ==>
                          acqToStorage[k + startDim] >= startDim && target[k] == acqToStorage[k + startDim] - startDim
    ensures o == if startDim == 0 then FrameOrder(order) else Shifted(FrameOrder(order))
    ensures |o| == |target| > 0 && Inverse(o, target)
    ensures Permute(FrameSizes(acq), FrameOrder(order))[startDim..] == Permute(FrameSizes(acq)[startDim..], o)
    ensures AllPositive(FrameSizes(acq)[startDim..])
  {
    FrameInverse(order, acqToStorage);
    FrameSizesPositive(acq);
    if startDim == 0 {
      o := FrameOrder(order);
      assert target == FrameOrder(acqToStorage);
      assert FrameSizes(acq)[0..] == FrameSizes(acq);
      assert forall i :: 1 <= i < |acq| - 2 ==> FrameSizes(acq)[i] == acq[i].size;
    } else {
      o := Shifted(FrameOrder(order));
      ShiftedInverse(FrameOrder(order), FrameOrder(acqToStorage));
      PermuteShifted(FrameSizes(acq), FrameOrder(order));
      assert target == Shifted(FrameOrder(acqToStorage));
    }
  }

  method FillLookup(acqSizes: seq<nat>, storSizes: seq<nat>, target: seq<nat>) returns (lookup: seq<nat>)
    requires |acqSizes| == |storSizes| == |target| > 0 && AllPositive(acqSizes[1..])
    requires forall k :: 0 <= k < |target| ==> target[k] < |target|
    ensures |lookup| == Size(acqSizes)
    ensures forall k :: 0 <= k < |lookup| ==> lookup[k] == TableEntry(acqSizes, storSizes, target, k)
  {
    var lookupSize := Product(acqSizes);
    var acqStrides := MakeStrides(acqSizes);
    var storStrides := MakeStrides(storSizes);
    var storCoords: seq<nat> := seq(|target|, i => 0);
    lookup := [];
    for f := 0 to lookupSize
      invariant |lookup| == f
      invariant forall k :: 0 <= k < f ==> lookup[k] == TableEntry(acqSizes, storSizes, target, k)
      invariant |storCoords| == |target| && ZeroElsewhere(storCoords, target)
    {
      var id;
      id, storCoords := LookupEntry(f, acqSizes, storSizes, acqStrides, storStrides, target, storCoords);
      lookup := lookup + [id];
    }
  }

  /** Below one append increment, renumbering all axes and renumbering the inner ones agree. */
  lemma InnerRenumber(acq: seq<Dim>, order: seq<nat>, f: nat)
    requires ValidOrder(acq, order)
    ensures AllPositive(FrameSizes(acq)[1..])
    ensures |acq| > 3 && f < Size(FrameSizes(acq)[1..]) ==>
              AllPositive(FrameSizes(acq)[2..])
              && ToStorage(acq, order, f) == Renumber(f, FrameSizes(acq)[1..], Shifted(FrameOrder(order)))
  {
    FrameSizesPositive(acq);
    var sizes := FrameSizes(acq);
    RenumberSplits(f, sizes, FrameOrder(order));
    if f < Size(sizes[1..]) {
      DivModUnique(0, Size(sizes[1..]), f);
    }
  }
}
