/**
 The online downsampler (src/streaming/downsampler.cpp) and the writer that drives it
 (src/streaming/multiscale.array.cpp): frames come in one at a time, a plane waits for its partner, and
 every level emits exactly the frames of the pyramid, in order.
 */
module Downsampling {
  import opened Arith
  import opened PyramidLevels
  import opened Wrappers

  type Image = seq<int>

  /** The levels have pixels, and each follows from the one before. */
  predicate ValidPyramid(p: Pyramid) {
    p.Valid() && forall l :: 0 <= l < |p.levels| ==> p.levels[l].rows > 0 && p.levels[l].cols > 0
  }

  /** The image is frame `k` of level `l`. */
  ghost predicate Shows(p: Pyramid, px: Image, l: nat, k: nat)
    requires ValidPyramid(p) && l < |p.levels|
  {
    && |px| == p.levels[l].rows * p.levels[l].cols
    && forall i :: 0 <= i < |px| ==> px[i] == Voxel(p, l, k, Row(i, p.levels[l].cols), Col(i, p.levels[l].cols))
  }

  /** The image is frame `k` of the level below, scaled to level `l`. */
  ghost predicate ShowsScaled(p: Pyramid, px: Image, l: nat, k: nat)
    requires ValidPyramid(p) && 1 <= l < |p.levels|
  {
    && |px| == p.levels[l].rows * p.levels[l].cols
    && forall i :: 0 <= i < |px| ==> px[i] == Scaled(p, l, k, Row(i, p.levels[l].cols), Col(i, p.levels[l].cols))
  }

  // ----- One image -------------------------------------------------------------------------------

  function Px(src: Image, width: nat, y: nat, x: nat): int {
    var i: nat := y * width + x;
    if i < |src| then src[i] else 0
  }

  function ScaleAt(m: Method, src: Image, width: nat, height: nat, y: nat, x: nat): int {
    var y1, x1 := Beside(y, height), Beside(x, width);
    Scale4(m, Px(src, width, 2 * y, 2 * x), Px(src, width, 2 * y, x1), Px(src, width, y1, 2 * x), Px(src, width, y1, x1))
  }

  /** The first `n` pixels of the scaled image. */
  ghost predicate ScaledTo(m: Method, src: Image, width: nat, height: nat, dst: Image, w: nat, n: nat)
    requires w > 0
  {
    && |dst| == n
    && forall i :: 0 <= i < n ==> dst[i] == ScaleAt(m, src, width, height, Row(i, w), Col(i, w))
  }

  method ScaleImage(src: Image, width: nat, height: nat, m: Method) returns (dst: Image, w: nat, h: nat)
    requires width > 0 && height > 0 && |src| == height * width
    ensures w == HalfUp(width) > 0 && h == HalfUp(height)
    ensures 0 <= h * w && ScaledTo(m, src, width, height, dst, w, h * w)
  {
    var wPad, hPad := width + width % 2, height + height % 2;
    w, h := wPad / 2, hPad / 2;
    dst := [];
    var row := 0;
    while row < height
      invariant row % 2 == 0 && row <= hPad
      invariant 0 <= row / 2 * w && ScaledTo(m, src, width, height, dst, w, row / 2 * w)
    {
      dst := ScaleRow(src, width, height, m, dst, row, w);
      NextRow(row, w);
      row := row + 2;
    }
  }

  lemma NextRow(row: nat, w: nat)
    requires row % 2 == 0
    ensures (row + 2) / 2 * w == row / 2 * w + w
  {
    assert (row + 2) / 2 == row / 2 + 1;
    assert (row / 2 + 1) * w == row / 2 * w + w;
  }

  method ScaleRow(src: Image, width: nat, height: nat, m: Method, done: Image, row: nat, ghost w: nat) returns (dst: Image)
    requires width > 0 && |src| == height * width && row % 2 == 0 && row < height && w == HalfUp(width)
    requires 0 <= row / 2 * w && ScaledTo(m, src, width, height, done, w, row / 2 * w)
    ensures ScaledTo(m, src, width, height, dst, w, row / 2 * w + w)
  {
    dst := done;
    var padHeight := row == height - 1 && height % 2 != 0;
    var col := 0;
    while col < width
      invariant col % 2 == 0 && col <= width + width % 2
      invariant ScaledTo(m, src, width, height, dst, w, row / 2 * w + col / 2)
    {
      var scaled := ScalePixel(src, width, height, m, row, col, padHeight);
      RowColOf(row / 2, w, col / 2);
      dst := dst + [scaled];
      col := col + 2;
    }
  }

  /** The kernel of the four samples at an even row and column. */
  method ScalePixel(src: Image, width: nat, height: nat, m: Method, row: nat, col: nat, padHeight: bool) returns (scaled: int)
    requires |src| == height * width && row < height && col < width && row % 2 == 0 && col % 2 == 0
    requires padHeight <==> row == height - 1 && height % 2 != 0
    ensures scaled == ScaleAt(m, src, width, height, row / 2, col / 2)
  {
    var srcIdx := row * width + col;
    var padWidth := col == width - 1 && width % 2 != 0;
    var dx, dy := if padWidth then 0 else 1, if padHeight then 0 else width;
    Samples(src, width, height, row, col, dx, dy);
    scaled := Scale4(m, src[srcIdx], src[srcIdx + dx], src[srcIdx + dy], src[srcIdx + dy + dx]);
  }

  /** The four samples lie in the image, at the clipped positions. */
  lemma Samples(src: Image, width: nat, height: nat, row: nat, col: nat, dx: nat, dy: nat)
    requires |src| == height * width && row < height && col < width && row % 2 == 0 && col % 2 == 0
    requires dx == if col == width - 1 && width % 2 != 0 then 0 else 1
    requires dy == if row == height - 1 && height % 2 != 0 then 0 else width
    ensures 0 <= row * width + col && row * width + col + dy + dx < |src|
    ensures var i, y1, x1 := row * width + col, Beside(row / 2, height), Beside(col / 2, width);
            && src[i] == Px(src, width, row, col) && src[i + dx] == Px(src, width, row, x1)
            && src[i + dy] == Px(src, width, y1, col) && src[i + dy + dx] == Px(src, width, y1, x1)
            && row == 2 * (row / 2) && col == 2 * (col / 2)
  {
    var y1, x1 := Beside(row / 2, height), Beside(col / 2, width);
    assert y1 == (if dy == 0 then row else row + 1) && x1 == col + dx;
    BelowProduct(y1, height, x1, width);
    RowBelow(row, width, if dy == 0 then 0 else 1);
  }

  lemma RowBelow(row: nat, width: nat, d: nat)
    requires d <= 1
    ensures (row + d) * width == row * width + d * width
  {
  }

  method AverageTwoFrames(dst: Image, src: Image, m: Method) returns (r: Image)
    requires |dst| == |src|
    ensures |r| == |dst| && forall i :: 0 <= i < |r| ==> r[i] == Average2(m, dst[i], src[i])
  {
    r := dst;
    for i := 0 to |src|
      invariant |r| == |dst|
      invariant forall j :: 0 <= j < i ==> r[j] == Average2(m, dst[j], src[j])
      invariant forall j :: i <= j < |r| ==> r[j] == dst[j]
    {
      r := r[i := Average2(m, r[i], src[i])];
    }
  }

  /** Scaling the image of a frame gives the scaled image of that frame. */
  lemma ScaledShows(p: Pyramid, src: Image, dst: Image, l: nat, k: nat)
    requires ValidPyramid(p) && 1 <= l < |p.levels| && p.XY(l) && Shows(p, src, l - 1, k)
    requires ScaledTo(p.kernel, src, p.levels[l - 1].cols, p.levels[l - 1].rows, dst, p.levels[l].cols,
                      p.levels[l].rows * p.levels[l].cols)
    ensures ShowsScaled(p, dst, l, k)
  {
    forall i: nat | i < |dst| ensures dst[i] == Scaled(p, l, k, Row(i, p.levels[l].cols), Col(i, p.levels[l].cols)) {
      var y, x := Row(i, p.levels[l].cols), Col(i, p.levels[l].cols);
      RowBound(i, p.levels[l].rows, p.levels[l].cols);
      var y1, x1 := Beside(y, p.levels[l - 1].rows), Beside(x, p.levels[l - 1].cols);
      PxIsVoxel(p, src, l - 1, k, 2 * y, 2 * x);
      PxIsVoxel(p, src, l - 1, k, 2 * y, x1);
      PxIsVoxel(p, src, l - 1, k, y1, 2 * x);
      PxIsVoxel(p, src, l - 1, k, y1, x1);
    }
  }

  lemma PxIsVoxel(p: Pyramid, src: Image, l: nat, k: nat, y: nat, x: nat)
    requires ValidPyramid(p) && l < |p.levels| && Shows(p, src, l, k)
    requires y < p.levels[l].rows && x < p.levels[l].cols
    ensures Px(src, p.levels[l].cols, y, x) == Voxel(p, l, k, y, x)
  {
    BelowProduct(y, p.levels[l].rows, x, p.levels[l].cols);
    RowColOf(y, p.levels[l].cols, x);
  }

  /** The program's test for a plane that is averaged with another one. */
  lemma PassesAlone(p: Pyramid, l: nat, c: nat, averageThisFrame: bool)
    requires ValidPyramid(p) && 1 <= l < |p.levels|
    requires averageThisFrame <==> p.Z(l) && !(p.levels[l - 1].planes % 2 != 0 && (c + 1) % p.levels[l - 1].planes == 0)
    ensures averageThisFrame <==> p.Z(l) && !Alone(p, l, c)
    ensures Passed(p, l, c + 1) == Passed(p, l, c) + (if averageThisFrame && !Waiting(p, l, c) then 0 else 1)
    ensures Waiting(p, l, c + 1) <==> averageThisFrame && !Waiting(p, l, c)
  {
    if p.Z(l) {
      RowColDiv(c + 1, p.levels[l - 1].planes);
      PassedStep(p, l, c);
    }
  }

  /** A frame that is not averaged is the next frame of its level. */
  lemma EmitsAlone(p: Pyramid, px: Image, l: nat, c: nat)
    requires ValidPyramid(p) && 1 <= l < |p.levels| && (p.Z(l) ==> Alone(p, l, c)) && ShowsScaled(p, px, l, c)
    ensures Shows(p, px, l, Passed(p, l, c))
  {
    if p.Z(l) {
      PassedStep(p, l, c);
    }
  }

  /** The average of a plane and its partner is. */
  lemma EmitsPair(p: Pyramid, older: Image, newer: Image, px: Image, l: nat, c: nat)
    requires ValidPyramid(p) && 1 <= l < |p.levels| && p.Z(l) && !Alone(p, l, c) && Waiting(p, l, c)
    requires c > 0 && ShowsScaled(p, older, l, c - 1) && ShowsScaled(p, newer, l, c)
    requires |px| == |older| && forall i :: 0 <= i < |px| ==> px[i] == Average2(p.kernel, older[i], newer[i])
    ensures Shows(p, px, l, Passed(p, l, c))
  {
    PassedStep(p, l, c);
    var k := Passed(p, l, c);
    forall i: nat | i < |px| ensures px[i] == Voxel(p, l, k, Row(i, p.levels[l].cols), Col(i, p.levels[l].cols)) {
      assert older[i] == Scaled(p, l, c - 1, Row(i, p.levels[l].cols), Col(i, p.levels[l].cols));
      assert newer[i] == Scaled(p, l, c, Row(i, p.levels[l].cols), Col(i, p.levels[l].cols));
    }
  }

  // ----- The state, as values ---------------------------------------------------------------------

  ghost predicate Counts(p: Pyramid, counts: seq<nat>, n: nat, from: nat)
    requires ValidPyramid(p)
  {
    && |counts| == |p.levels|
    && forall l :: 0 <= l < |counts| ==> counts[l] == Emitted(p, l, if l < from then n + 1 else n)
  }

  /** A plane waits at level `l` exactly when its stack has an odd number of planes so far. */
  ghost predicate Pending(p: Pyramid, partials: map<nat, Image>, l: nat, c: nat)
    requires ValidPyramid(p) && 1 <= l < |p.levels|
  {
    if Waiting(p, l, c) then c > 0 && l in partials && ShowsScaled(p, partials[l], l, c - 1)
    else l !in partials
  }

  ghost predicate PendingAt(p: Pyramid, partials: map<nat, Image>, l: nat, n: nat, from: nat)
    requires ValidPyramid(p) && 1 <= l < |p.levels|
  {
    Pending(p, partials, l, Emitted(p, l - 1, if l < from then n + 1 else n))
  }

  ghost predicate Partials(p: Pyramid, partials: map<nat, Image>, n: nat, from: nat)
    requires ValidPyramid(p)
  {
    && (forall l :: l in partials ==> 1 <= l < |p.levels|)
    && forall l :: 1 <= l < |p.levels| ==> PendingAt(p, partials, l, n, from)
  }

  /** Level `l` has emitted its next frame, and it can be taken. */
  ghost predicate Ready(p: Pyramid, taken: map<nat, Image>, l: nat, n: nat)
    requires ValidPyramid(p) && 1 <= l < |p.levels|
  {
    && Emitted(p, l, n + 1) == Emitted(p, l, n) + 1
    && l in taken && Shows(p, taken[l], l, Emitted(p, l, n))
  }

  /** That is so for the levels before `to`, and nothing else can be taken. */
  ghost predicate Fresh(p: Pyramid, taken: map<nat, Image>, n: nat, to: nat)
    requires ValidPyramid(p)
  {
    && (forall l :: l in taken ==> 1 <= l < to && l < |p.levels|)
    && forall l :: 1 <= l < to && l < |p.levels| ==> Ready(p, taken, l, n)
  }

  lemma CountsStep(p: Pyramid, counts: seq<nat>, n: nat, l: nat)
    requires ValidPyramid(p) && l < |p.levels| && Counts(p, counts, n, l)
    ensures Counts(p, counts[l := Emitted(p, l, n + 1)], n, l + 1)
  {
  }

  lemma PartialsStep(p: Pyramid, partials: map<nat, Image>, partials': map<nat, Image>, n: nat, l: nat)
    requires ValidPyramid(p) && 1 <= l < |p.levels| && Partials(p, partials, n, l)
    requires forall i :: i != l ==> (i in partials' <==> i in partials) && (i in partials ==> partials'[i] == partials[i])
    requires Pending(p, partials', l, Emitted(p, l - 1, n + 1))
    ensures Partials(p, partials', n, l + 1)
  {
    var from := l + 1;
    forall i | 1 <= i < |p.levels| ensures PendingAt(p, partials', i, n, from) {
      assert PendingAt(p, partials, i, n, l);
    }
  }

  lemma FreshStep(p: Pyramid, taken: map<nat, Image>, n: nat, l: nat, px: Image)
    requires ValidPyramid(p) && 1 <= l < |p.levels| && Fresh(p, taken, n, l)
    requires Emitted(p, l, n + 1) == Emitted(p, l, n) + 1 && Shows(p, px, l, Emitted(p, l, n))
    ensures l !in taken && Fresh(p, taken[l := px], n, l + 1)
  {
    var taken' := taken[l := px];
    forall i | 1 <= i < l + 1 && i < |p.levels| ensures Ready(p, taken', i, n) {
      if i < l {
        assert Ready(p, taken, i, n);
      }
    }
  }

  /** When a level keeps its frame back, the levels above it see nothing. */
  lemma {:induction false} NothingAbove(p: Pyramid, l: nat, i: nat, n: nat)
    requires ValidPyramid(p) && l <= i < |p.levels| && Emitted(p, l, n + 1) == Emitted(p, l, n)
    ensures Emitted(p, i, n + 1) == Emitted(p, i, n)
  {
    if l < i {
      NothingAbove(p, l, i - 1, n);
    }
  }

  // ----- The downsampler -------------------------------------------------------------------------

  class Downsampler {
    const levels: seq<Shape>
    const kernel: Method
    /** All frames there will ever be, by index, row and column. */
    ghost const pyramid: Pyramid
    var levelFrameCount: seq<nat>
    var partialScaledFrames: map<nat, Image>
    var downsampledFrames: map<nat, Image>

    ghost predicate Built() {
      ValidPyramid(pyramid) && pyramid.levels == levels && pyramid.kernel == kernel
    }

    /** Levels from `from` on have seen `n` base frames, the others one more. */
    ghost predicate Counting(n: nat, from: nat)
      requires Built()
      reads this`levelFrameCount, this`partialScaledFrames
    {
      Counts(pyramid, levelFrameCount, n, from) && Partials(pyramid, partialScaledFrames, n, from)
    }

    constructor (p: Pyramid)
      requires ValidPyramid(p)
      ensures Built() && pyramid == p && Counting(0, 0) && downsampledFrames == map[]
    {
      levels, kernel, pyramid := p.levels, p.kernel, p;
      levelFrameCount := seq(|p.levels|, l => 0);
      partialScaledFrames, downsampledFrames := map[], map[];
      new;
      forall l: nat | l < |levels| ensures Emitted(pyramid, l, 0) == 0 {
        StacksAligned(pyramid, l, 0);
      }
    }

    /** The frame as level `l` samples it, and its size. */
    method ToLevel(current: Image, l: nat, width: nat, height: nat, ghost k: nat) returns (next: Image, w: nat, h: nat)
      requires Built() && 1 <= l < |levels| && Shows(pyramid, current, l - 1, k)
      requires width == levels[l - 1].cols && height == levels[l - 1].rows
      ensures ShowsScaled(pyramid, next, l, k) && w == levels[l].cols && h == levels[l].rows
    {
      if levels[l].cols < levels[l - 1].cols || levels[l].rows < levels[l - 1].rows {
        next, w, h := ScaleImage(current, width, height, kernel);
        ScaledShows(pyramid, current, next, l, k);
      } else {
        next, w, h := current, width, height;
      }
    }

    /** A frame is kept for its level, unless one is already waiting to be taken. */
    method EmplaceDownsampledFrame(l: nat, frame: Image)
      requires l < |levelFrameCount|
      modifies this`downsampledFrames, this`levelFrameCount
      ensures levelFrameCount == old(levelFrameCount)[l := old(levelFrameCount)[l] + 1]
      ensures downsampledFrames == if l in old(downsampledFrames) then old(downsampledFrames) else old(downsampledFrames)[l := frame]
    {
      if l !in downsampledFrames {
        downsampledFrames := downsampledFrames[l := frame];
      }
      levelFrameCount := levelFrameCount[l := levelFrameCount[l] + 1];
    }

    /** A frame of the level below reaches level `level`: it emits one, or keeps it until its partner comes. */
    method PassFrame(level: nat, current: Image, width: nat, height: nat, ghost n: nat)
      returns (emitted: bool, next: Image, w: nat, h: nat)
      requires Built() && 1 <= level < |levels| && Counting(n, level) && Fresh(pyramid, downsampledFrames, n, level)
      requires Emitted(pyramid, level - 1, n + 1) == Emitted(pyramid, level - 1, n) + 1
      requires Shows(pyramid, current, level - 1, Emitted(pyramid, level - 1, n))
      requires width == levels[level - 1].cols && height == levels[level - 1].rows
      modifies this
      ensures Counting(n, level + 1)
      ensures emitted ==> Emitted(pyramid, level, n + 1) == Emitted(pyramid, level, n) + 1
      ensures !emitted ==> Emitted(pyramid, level, n + 1) == Emitted(pyramid, level, n)
      ensures Fresh(pyramid, downsampledFrames, n, if emitted then level + 1 else level)
      ensures emitted ==> Shows(pyramid, next, level, Emitted(pyramid, level, n))
                          && w == levels[level].cols && h == levels[level].rows
    {
      ghost var c := Emitted(pyramid, level - 1, n);
      next, w, h := ToLevel(current, level, width, height, c);
      var averageThisFrame := AveragesThisFrame(level, n, c);
      assert PendingAt(pyramid, partialScaledFrames, level, n, level);
      if averageThisFrame {
        if level in partialScaledFrames {
          next := EmitPair(level, next, n, c);
          emitted := true;
        } else {
          HoldFrame(level, next, n, c);
          emitted := false;
        }
      } else {
        EmitFrame(level, next, n, c);
        emitted := true;
      }
    }

    /** Whether the frame is averaged with another plane of its stack. */
    method AveragesThisFrame(level: nat, ghost n: nat, ghost c: nat) returns (average: bool)
      requires Built() && 1 <= level < |levels| && Counts(pyramid, levelFrameCount, n, level)
      requires c == Emitted(pyramid, level - 1, n) && Emitted(pyramid, level - 1, n + 1) == c + 1
      ensures average <==> pyramid.Z(level) && !Alone(pyramid, level, c)
      ensures Passed(pyramid, level, c + 1) == Passed(pyramid, level, c) + (if average && !Waiting(pyramid, level, c) then 0 else 1)
      ensures Waiting(pyramid, level, c + 1) <==> average && !Waiting(pyramid, level, c)
    {
      var prevPlanes, nextPlanes := levels[level - 1].planes, levels[level].planes;
      average := nextPlanes < prevPlanes;
      if prevPlanes % 2 != 0 && levelFrameCount[level - 1] % prevPlanes == 0 {
        average := false;
      }
      PassesAlone(pyramid, level, c, average);
    }

    method EmitPair(level: nat, newer: Image, ghost n: nat, ghost c: nat) returns (next: Image)
      requires Built() && 1 <= level < |levels| && Counting(n, level) && Fresh(pyramid, downsampledFrames, n, level)
      requires c == Emitted(pyramid, level - 1, n) && Emitted(pyramid, level - 1, n + 1) == c + 1
      requires pyramid.Z(level) && !Alone(pyramid, level, c) && Waiting(pyramid, level, c) && !Waiting(pyramid, level, c + 1)
      requires Passed(pyramid, level, c + 1) == Passed(pyramid, level, c) + 1 && ShowsScaled(pyramid, newer, level, c)
      requires level in partialScaledFrames
      modifies this
      ensures Counting(n, level + 1) && Fresh(pyramid, downsampledFrames, n, level + 1)
      ensures Emitted(pyramid, level, n + 1) == Emitted(pyramid, level, n) + 1
      ensures Shows(pyramid, next, level, Emitted(pyramid, level, n))
    {
      assert PendingAt(pyramid, partialScaledFrames, level, n, level);
      var older := partialScaledFrames[level];
      next := AverageTwoFrames(older, newer, kernel);
      EmitsPair(pyramid, older, newer, next, level, c);
      FreshStep(pyramid, downsampledFrames, n, level, next);
      CountsStep(pyramid, levelFrameCount, n, level);
      PartialsStep(pyramid, partialScaledFrames, partialScaledFrames - {level}, n, level);
      EmplaceDownsampledFrame(level, next);
      partialScaledFrames := partialScaledFrames - {level};
    }

    method HoldFrame(level: nat, next: Image, ghost n: nat, ghost c: nat)
      requires Built() && 1 <= level < |levels| && Counting(n, level)
      requires c == Emitted(pyramid, level - 1, n) && Emitted(pyramid, level - 1, n + 1) == c + 1
      requires Waiting(pyramid, level, c + 1) && Passed(pyramid, level, c + 1) == Passed(pyramid, level, c)
      requires ShowsScaled(pyramid, next, level, c)
      modifies this`partialScaledFrames
      ensures Counting(n, level + 1) && Emitted(pyramid, level, n + 1) == Emitted(pyramid, level, n)
    {
      CountsStep(pyramid, levelFrameCount, n, level);
      PartialsStep(pyramid, partialScaledFrames, partialScaledFrames[level := next], n, level);
      partialScaledFrames := partialScaledFrames[level := next];
    }

    method EmitFrame(level: nat, next: Image, ghost n: nat, ghost c: nat)
      requires Built() && 1 <= level < |levels| && Counting(n, level) && Fresh(pyramid, downsampledFrames, n, level)
      requires c == Emitted(pyramid, level - 1, n) && Emitted(pyramid, level - 1, n + 1) == c + 1
      requires pyramid.Z(level) ==> Alone(pyramid, level, c)
      requires !Waiting(pyramid, level, c + 1) && Passed(pyramid, level, c + 1) == Passed(pyramid, level, c) + 1
      requires ShowsScaled(pyramid, next, level, c)
      modifies this`levelFrameCount, this`downsampledFrames
      ensures Counting(n, level + 1) && Fresh(pyramid, downsampledFrames, n, level + 1)
      ensures Emitted(pyramid, level, n + 1) == Emitted(pyramid, level, n) + 1
      ensures Shows(pyramid, next, level, Emitted(pyramid, level, n))
    {
      assert PendingAt(pyramid, partialScaledFrames, level, n, level);
      NotWaiting(pyramid, level, c);
      EmitsAlone(pyramid, next, level, c);
      FreshStep(pyramid, downsampledFrames, n, level, next);
      CountsStep(pyramid, levelFrameCount, n, level);
      PartialsStep(pyramid, partialScaledFrames, partialScaledFrames, n, level);
      EmplaceDownsampledFrame(level, next);
    }

    /** A full-resolution frame, passed up the levels until one of them keeps it. */
    method AddFrame(frame: Image, ghost n: nat) returns (ghost to: nat)
      requires Built() && Counting(n, 0) && downsampledFrames == map[] && Shows(pyramid, frame, 0, n)
      modifies this
      ensures Counting(n + 1, 0)
      ensures 1 <= to <= |levels| && Fresh(pyramid, downsampledFrames, n, to)
      ensures forall l :: to <= l < |levels| ==> Emitted(pyramid, l, n + 1) == Emitted(pyramid, l, n)
    {
      CountsStep(pyramid, levelFrameCount, n, 0);
      levelFrameCount := levelFrameCount[0 := levelFrameCount[0] + 1];
      FirstLevel(pyramid, partialScaledFrames, n);
      var current, width, height := frame, levels[0].cols, levels[0].rows;
      var level := 1;
      while level < |levels|
        invariant 1 <= level <= |levels|
        invariant Counting(n, level) && Fresh(pyramid, downsampledFrames, n, level)
        invariant Emitted(pyramid, level - 1, n + 1) == Emitted(pyramid, level - 1, n) + 1
        invariant Shows(pyramid, current, level - 1, Emitted(pyramid, level - 1, n))
        invariant width == levels[level - 1].cols && height == levels[level - 1].rows
      {
        var emitted, next, w, h := PassFrame(level, current, width, height, n);
        if !emitted {
          AllStay(pyramid, levelFrameCount, partialScaledFrames, n, level);
          return level;
        }
        current, width, height := next, w, h;
        level := level + 1;
      }
      AllMoved(pyramid, levelFrameCount, partialScaledFrames, n);
      to := |levels|;
    }

    /** Hands over the frame of a level, if there is one. */
    method TakeFrame(level: nat) returns (frame: Option<Image>)
      modifies this`downsampledFrames
      ensures frame == if level in old(downsampledFrames) then Some(old(downsampledFrames)[level]) else None
      ensures downsampledFrames == old(downsampledFrames) - {level}
    {
      if level in downsampledFrames {
        frame := Some(downsampledFrames[level]);
        downsampledFrames := downsampledFrames - {level};
      } else {
        frame := None;
        assert downsampledFrames == downsampledFrames - {level};
      }
    }
  }

  lemma NotWaiting(p: Pyramid, l: nat, c: nat)
    requires ValidPyramid(p) && 1 <= l < |p.levels| && (p.Z(l) ==> Alone(p, l, c))
    ensures !Waiting(p, l, c)
  {
    if p.Z(l) {
      PassedStep(p, l, c);
    }
  }

  lemma FirstLevel(p: Pyramid, partials: map<nat, Image>, n: nat)
    requires ValidPyramid(p) && Partials(p, partials, n, 0)
    ensures Partials(p, partials, n, 1)
  {
    forall i | 1 <= i < |p.levels| ensures PendingAt(p, partials, i, n, 1) {
      assert PendingAt(p, partials, i, n, 0);
    }
  }

  lemma AllMoved(p: Pyramid, counts: seq<nat>, partials: map<nat, Image>, n: nat)
    requires ValidPyramid(p) && Counts(p, counts, n, |p.levels|) && Partials(p, partials, n, |p.levels|)
    ensures Counts(p, counts, n + 1, 0) && Partials(p, partials, n + 1, 0)
  {
    var m := n + 1;
    forall i | 1 <= i < |p.levels| ensures PendingAt(p, partials, i, m, 0) {
      assert PendingAt(p, partials, i, n, |p.levels|);
    }
  }

  lemma AllStay(p: Pyramid, counts: seq<nat>, partials: map<nat, Image>, n: nat, l: nat)
    requires ValidPyramid(p) && 1 <= l < |p.levels| && Emitted(p, l, n + 1) == Emitted(p, l, n)
    requires Counts(p, counts, n, l + 1) && Partials(p, partials, n, l + 1)
    ensures Counts(p, counts, n + 1, 0) && Partials(p, partials, n + 1, 0)
    ensures forall i :: l <= i < |p.levels| ==> Emitted(p, i, n + 1) == Emitted(p, i, n)
  {
    forall i | l <= i < |p.levels| ensures Emitted(p, i, n + 1) == Emitted(p, i, n) {
      NothingAbove(p, l, i, n);
    }
    var m := n + 1;
    forall i | 1 <= i < |p.levels| ensures PendingAt(p, partials, i, m, 0) {
      assert PendingAt(p, partials, i, n, l + 1);
    }
  }
}
