/**
 From the axes asked for to an array ready to be written (src/streaming/array.dimensions.cpp, the
 ArrayDimensions constructor; src/streaming/array.cpp, the Array constructor).
 */
module Building {
  import opened Bytes
  import opened Lattice
  import opened Grid
  import opened Permutation
  import opened Transposition
  import opened ChunkContent
  import opened Acquisition
  import opened ArrayGeometry
  import opened ArraySpec
  import opened ArrayTasks
  import opened StreamArray
  import opened Wrappers

  /** A two-dimensional array gets an append axis of one. */
  function WithPhantom(dims: seq<Dim>): seq<Dim> {
    if |dims| == 2 then [Dim(Other, 1, 1, 1)] + dims else dims
  }

  /** So a two-dimensional array has room for one frame, and no axis of its own is changed. */
  lemma TwoAxes(axes: seq<Dim>, bpp: nat)
    requires |axes| == 2 && ValidDims(WithPhantom(axes)) && bpp > 0
    ensures var g := Geo(WithPhantom(axes), bpp);
            g.Valid() && g.dims[1..] == axes && MaxByteCount(g) == g.FrameBytes() && Size(FrameSizes(g.dims)) == 1 && FramesPerLayer(g.dims) == 1
  {
    var g := Geo(WithPhantom(axes), bpp);
    assert FrameSizes(g.dims) == [1] && Size([1]) == 1;
    MaxBytesInFrames(g);
  }

  /** The last two axes are rows and columns. */
  predicate EndsInSpace(dims: seq<Dim>) {
    |dims| >= 2 && dims[|dims| - 2].kind == Space && dims[|dims| - 1].kind == Space
  }

  /** Requests the program builds an array for: no reordering, or one it finds a table for. */
  predicate Buildable(dims: seq<Dim>, order: seq<nat>) {
    && EndsInSpace(dims)
    && (order == [] || (Accepted(dims, order) && (IsIdentity(order) || (HasLookupAxes(dims) && TargetsInRange(dims, order)))))
  }

  /** How the storage axes come from the axes asked for. */
  ghost predicate Arranged(dims: seq<Dim>, order: seq<nat>, storage: seq<Dim>, mapping: Mapping)
    requires ValidDims(dims) && Buildable(dims, order)
  {
    if order == [] || IsIdentity(order) then mapping.None? && storage == dims
    else mapping.Some? && IsMap(mapping.value, dims, order, storage)
  }

  method Arrange(dims: seq<Dim>, order: seq<nat>) returns (ok: bool, storage: seq<Dim>, mapping: Mapping)
    requires ValidDims(dims)
    ensures ok <==> Buildable(dims, order)
    ensures order == [] ==> (ok <==> dims[|dims| - 2].kind == dims[|dims| - 1].kind == Space)
    ensures ok ==> dims[|dims| - 2].kind == dims[|dims| - 1].kind == Space
    ensures |order| == |dims| && FixesAppendAxis(order) && (forall j :: 0 <= j < |order| - 2 ==> order[j] < |order| - 2) ==>
              (dims[|dims| - 2].kind == dims[|dims| - 1].kind == Space && (|dims| > 3 || dims[0].size > 0) ==> ok)
    ensures ok ==> Arranged(dims, order, storage, mapping)
    ensures ok ==> (ValidMapping(mapping, storage) <==> Distinct(order))
  {
    var n := |dims|;
    if dims[n - 2].kind != Space || dims[n - 1].kind != Space {
      return false, [], None;
    }
    var outcome := ComputeTransposition(dims, order);
    match outcome {
      case Transposed(s, m) =>
        MappingIsValid(dims, order, s, m);
        return true, s, m;
      case Rejected => return false, [], None;
      case OutOfRange => return false, [], None;
    }
  }

  lemma MappingIsValid(dims: seq<Dim>, order: seq<nat>, storage: seq<Dim>, mapping: Mapping)
    requires ValidDims(dims) && Buildable(dims, order) && Arranged(dims, order, storage, mapping)
    ensures ValidMapping(mapping, storage) <==> Distinct(order)
  {
    if mapping.Some? {
      MapIsValid(mapping.value, dims, order, storage);
      if Distinct(order) {
        PermutedFrameSizes(dims, storage, order);
      }
    }
  }

  /**
   The array for a request.  `ok` is whether the program makes one; for an order that names an axis twice its
   storage axes are not the axes acquired, and there is no array of this model.
   */
  method BuildArray(axes: seq<Dim>, order: seq<nat>, bpp: nat, encode: seq<Byte> -> seq<Byte>) returns (ok: bool, a: Array?)
    requires |axes| >= 2 && ValidDims(WithPhantom(axes)) && bpp > 0
    ensures ok <==> Buildable(WithPhantom(axes), order)
    ensures a != null <==> ok && Distinct(order)
    ensures a != null ==> a.Valid() && a.acquired == [] && a.geo.bpp == bpp && fresh(a) && fresh(a.flush)
    ensures a != null ==> IsRoom(a.geo, a.SupportsDim1Banding(), a.limit)
    ensures a != null ==> a.bytesPerFrame == a.geo.FrameBytes() && a.maxBytes == MaxByteCount(a.geo)
    ensures a != null ==> forall slot :: 0 <= slot < |a.flush.chunks| ==> a.flush.chunks[slot] == null
    ensures a != null ==> ValidMapping(a.mapping, a.geo.dims) && Arranged(WithPhantom(axes), order, a.geo.dims, a.mapping)
  {
    var storage, mapping;
    ok, storage, mapping := Arrange(WithPhantom(axes), order);
    if !ok || !Distinct(order) {
      return ok, null;
    }
    var d := new ArrayDimensions(storage);
    ghost var room := RoomOf(Geo(storage, bpp), Banded(storage) && mapping.None?);
    a := new Array(Geo(storage, bpp), mapping, d, encode, room);
  }
}
