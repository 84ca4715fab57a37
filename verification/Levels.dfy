/**
 The levels of the pyramid that the program decides to write (src/streaming/downsampler.cpp, make_writer_configurations_).
 */
module Levels {
  import opened Arith
  import opened PyramidLevels
  import opened PyramidForms

  /** Bits needed to write `n`. */
  function BitWidth(n: nat): nat {
    if n == 0 then 0 else 1 + BitWidth(n / 2)
  }

  /** Divisions until one chunk is enough. */
  function Divisions(size: nat, chunk: nat): nat
    requires chunk > 0
  {
    var n := CeilDiv(size, chunk);
    if n > 1 then BitWidth(n - 1) else 0
  }

  function Minimum(a: nat, b: nat): nat { if a < b then a else b }
  function Maximum(a: nat, b: nat): nat { if a < b then b else a }

  /** One level from the one before: planes, then rows and columns, while they exceed a chunk. */
  function NextShape(prev: Shape, chunk: Shape, zIsSpace: bool): Shape {
    Shape(if zIsSpace && prev.planes > chunk.planes then HalfUp(prev.planes) else prev.planes,
          if Minimum(prev.rows, prev.cols) > Maximum(chunk.rows, chunk.cols) then HalfUp(prev.rows) else prev.rows,
          if Minimum(prev.rows, prev.cols) > Maximum(chunk.rows, chunk.cols) then HalfUp(prev.cols) else prev.cols)
  }

  function LevelCount(base: Shape, chunk: Shape, zIsSpace: bool, maxLevels: nat): nat
    requires chunk.planes > 0 && chunk.rows > 0 && chunk.cols > 0
  {
    var xy := Minimum(Divisions(base.cols, chunk.cols), Divisions(base.rows, chunk.rows));
    var n := if zIsSpace then Maximum(xy, Divisions(base.planes, chunk.planes)) else xy;
    if maxLevels > 0 then Minimum(n, maxLevels) else n
  }

  /** Halved that often, an axis fits into one chunk. */
  lemma {:induction false} DivisionsSuffice(size: nat, chunk: nat, k: nat)
    requires chunk > 0 && k >= Divisions(size, chunk)
    ensures Halved(size, k) <= chunk
    decreases k
  {
    if k > 0 {
      HalfDivisions(size, chunk);
      DivisionsSuffice(HalfUp(size), chunk, k - 1);
    } else {
      CeilDivCovers(size, chunk);
    }
  }

  function Halved(size: nat, k: nat): nat
    decreases k
  {
    if k == 0 then size else Halved(HalfUp(size), k - 1)
  }

  lemma HalfDivisions(size: nat, chunk: nat)
    requires chunk > 0
    ensures Divisions(size, chunk) > 0 ==> Divisions(HalfUp(size), chunk) < Divisions(size, chunk)
    ensures Divisions(size, chunk) == 0 ==> Divisions(HalfUp(size), chunk) == 0
  {
    var n, m := CeilDiv(size, chunk), CeilDiv(HalfUp(size), chunk);
    CeilDivCovers(size, chunk);
    HalfCover(n, chunk);
    CeilDivLeast(HalfUp(size), chunk, HalfUp(n));
    if n > 1 {
      WidthMono(if m > 1 then m - 1 else 0, (n - 1) / 2);
    }
  }

  lemma HalfCover(n: nat, chunk: nat)
    ensures (n * chunk + 1) / 2 <= HalfUp(n) * chunk
  {
    var h := HalfUp(n);
    assert 2 * h >= n;
    MulMono(n, 2 * h, chunk);
    assert 2 * h * chunk == 2 * (h * chunk);
  }

  lemma {:induction false} WidthMono(a: nat, b: nat)
    requires a <= b
    ensures BitWidth(a) <= BitWidth(b)
    decreases b
  {
    if a > 0 {
      WidthMono(a / 2, b / 2);
    }
  }

  lemma {:induction false} HalvedNext(size: nat, k: nat)
    ensures Halved(size, k + 1) == HalfUp(Halved(size, k))
    decreases k
  {
    if k > 0 {
      HalvedNext(HalfUp(size), k - 1);
    }
  }

  /** Each level follows from the one before. */
  predicate AreLevels(levels: seq<Shape>, base: Shape, chunk: Shape, zIsSpace: bool) {
    levels != [] && levels[0] == base && forall l :: 1 <= l < |levels| ==> levels[l] == NextShape(levels[l - 1], chunk, zIsSpace)
  }

  /** An axis group has been halved at every level, or no longer needs it. */
  lemma {:induction false} LevelIs(levels: seq<Shape>, base: Shape, chunk: Shape, zIsSpace: bool, l: nat)
    requires AreLevels(levels, base, chunk, zIsSpace) && l < |levels|
    ensures zIsSpace ==> levels[l].planes <= chunk.planes || levels[l].planes == Halved(base.planes, l)
    ensures Minimum(levels[l].rows, levels[l].cols) <= Maximum(chunk.rows, chunk.cols)
            || (levels[l].rows == Halved(base.rows, l) && levels[l].cols == Halved(base.cols, l))
  {
    if l > 0 {
      LevelIs(levels, base, chunk, zIsSpace, l - 1);
      HalvedNext(base.planes, l - 1);
      HalvedNext(base.rows, l - 1);
      HalvedNext(base.cols, l - 1);
    }
  }

  /** The number of levels is enough: with no other limit asked for, nothing is left to halve at the last one. */
  lemma LastLevelStays(levels: seq<Shape>, base: Shape, chunk: Shape, zIsSpace: bool)
    requires chunk.planes > 0 && chunk.rows > 0 && chunk.cols > 0 && AreLevels(levels, base, chunk, zIsSpace)
    requires |levels| == 1 + LevelCount(base, chunk, zIsSpace, 0)
    ensures NextShape(levels[|levels| - 1], chunk, zIsSpace) == levels[|levels| - 1]
  {
    var l := |levels| - 1;
    LevelIs(levels, base, chunk, zIsSpace, l);
    if zIsSpace {
      DivisionsSuffice(base.planes, chunk.planes, l);
    }
    if Divisions(base.cols, chunk.cols) <= Divisions(base.rows, chunk.rows) {
      DivisionsSuffice(base.cols, chunk.cols, l);
    } else {
      DivisionsSuffice(base.rows, chunk.rows, l);
    }
  }

  // ----- What the rule comes to --------------------------------------------------------------------

  /** Halved, rounding up, `k` times: divided by 2 to the `k`, rounding up. */
  lemma {:induction false} HalvedFits(size: nat, k: nat, c: nat)
    ensures Halved(size, k) <= c <==> size <= c * Pow2(k)
    decreases k
  {
    if k > 0 {
      HalvedFits(HalfUp(size), k - 1, c);
      assert c * Pow2(k) == 2 * (c * Pow2(k - 1));
    }
  }

  lemma OneLess(n: nat, p: nat, size: nat)
    requires n > 0 && n * p < size + p
    ensures (n - 1) * p < size
  {
    assert n * p == (n - 1) * p + p;
  }

  /** Halving repeatedly is dividing once. */
  lemma HalvedIs(size: nat, k: nat)
    ensures Halved(size, k) == CeilDiv(size, Pow2(k))
  {
    var n := CeilDiv(size, Pow2(k));
    CeilDivCovers(size, Pow2(k));
    HalvedFits(size, k, n);
    if n > 0 {
      HalvedFits(size, k, n - 1);
      OneLess(n, Pow2(k), size);
    }
  }

  lemma {:induction false} BitWidthLeast(a: nat, k: nat)
    requires a < Pow2(k)
    ensures BitWidth(a) <= k
    decreases k
  {
    if a > 0 {
      BitWidthLeast(a / 2, k - 1);
    }
  }

  /** The division count is the least number of halvings after which one chunk is enough. */
  lemma DivisionsIs(size: nat, chunk: nat, k: nat)
    requires chunk > 0
    ensures Divisions(size, chunk) <= k <==> size <= chunk * Pow2(k)
  {
    HalvedFits(size, k, chunk);
    if Divisions(size, chunk) <= k {
      DivisionsSuffice(size, chunk, k);
    }
    if size <= chunk * Pow2(k) {
      CeilDivLeast(size, chunk, Pow2(k));
      if CeilDiv(size, chunk) > 1 {
        BitWidthLeast(CeilDiv(size, chunk) - 1, k);
      }
    }
  }

  /** The number of levels is the least that brings planes, and rows or columns, to one chunk; or the limit. */
  lemma LevelCountIs(base: Shape, chunk: Shape, zIsSpace: bool, maxLevels: nat, k: nat)
    requires chunk.planes > 0 && chunk.rows > 0 && chunk.cols > 0
    ensures LevelCount(base, chunk, zIsSpace, maxLevels) <= k <==>
            (maxLevels > 0 && maxLevels <= k)
            || ((zIsSpace ==> base.planes <= chunk.planes * Pow2(k)) && (base.rows <= chunk.rows * Pow2(k) || base.cols <= chunk.cols * Pow2(k)))
  {
    DivisionsIs(base.planes, chunk.planes, k);
    DivisionsIs(base.rows, chunk.rows, k);
    DivisionsIs(base.cols, chunk.cols, k);
  }

  /** `k` is how often an axis of `size` has been halved at level `l`: as long as more than `limit` were left. */
  predicate HalvingsAt(size: nat, limit: nat, l: nat, k: nat) {
    k <= l && (k == l || size <= limit * Pow2(k)) && (k == 0 || size > limit * Pow2(k - 1))
  }

  lemma {:induction false} Pow2Mono(a: nat, b: nat)
    requires a <= b
    ensures Pow2(a) <= Pow2(b)
    decreases b
  {
    if a < b {
      Pow2Mono(a, b - 1);
    }
  }

  lemma HalvingsNext(size: nat, limit: nat, l: nat, k: nat)
    requires HalvingsAt(size, limit, l + 1, k)
    ensures if k == l + 1 then HalvingsAt(size, limit, l, l) && size > limit * Pow2(l)
            else HalvingsAt(size, limit, l, k) && size <= limit * Pow2(k)
  {
    if k == l + 1 && l > 0 {
      Pow2Mono(l - 1, l);
      MulMono(Pow2(l - 1), Pow2(l), limit);
    }
  }

  /** Closed form of the levels: planes. */
  lemma {:induction false} PlanesAt(levels: seq<Shape>, base: Shape, chunk: Shape, zIsSpace: bool, l: nat, k: nat)
    requires AreLevels(levels, base, chunk, zIsSpace) && l < |levels| && HalvingsAt(base.planes, chunk.planes, l, k)
    ensures levels[l].planes == if zIsSpace then CeilDiv(base.planes, Pow2(k)) else base.planes
    decreases l
  {
    HalvedIs(base.planes, k);
    if l > 0 {
      HalvingsNext(base.planes, chunk.planes, l - 1, k);
      var j := if k == l then l - 1 else k;
      PlanesAt(levels, base, chunk, zIsSpace, l - 1, j);
      HalvedIs(base.planes, j);
      HalvedFits(base.planes, j, chunk.planes);
      HalvedNext(base.planes, l - 1);
    }
  }

  lemma MinimumHalved(a: nat, b: nat, k: nat, c: nat)
    ensures Minimum(Halved(a, k), Halved(b, k)) <= c <==> Minimum(a, b) <= c * Pow2(k)
  {
    HalvedFits(a, k, c);
    HalvedFits(b, k, c);
  }

  /** Rows and columns. */
  lemma {:induction false} FrameAt(levels: seq<Shape>, base: Shape, chunk: Shape, zIsSpace: bool, l: nat, k: nat)
    requires AreLevels(levels, base, chunk, zIsSpace) && l < |levels|
    requires HalvingsAt(Minimum(base.rows, base.cols), Maximum(chunk.rows, chunk.cols), l, k)
    ensures levels[l].rows == CeilDiv(base.rows, Pow2(k)) && levels[l].cols == CeilDiv(base.cols, Pow2(k))
    decreases l
  {
    HalvedIs(base.rows, k);
    HalvedIs(base.cols, k);
    if l > 0 {
      HalvingsNext(Minimum(base.rows, base.cols), Maximum(chunk.rows, chunk.cols), l - 1, k);
      var j := if k == l then l - 1 else k;
      FrameAt(levels, base, chunk, zIsSpace, l - 1, j);
      HalvedIs(base.rows, j);
      HalvedIs(base.cols, j);
      MinimumHalved(base.rows, base.cols, j, Maximum(chunk.rows, chunk.cols));
      HalvedNext(base.rows, l - 1);
      HalvedNext(base.cols, l - 1);
    }
  }

  /** No level too many, and none too few unless there is a limit. */
  lemma LevelsAre(levels: seq<Shape>, base: Shape, chunk: Shape, zIsSpace: bool, maxLevels: nat)
    requires chunk.planes > 0 && chunk.rows > 0 && chunk.cols > 0 && AreLevels(levels, base, chunk, zIsSpace)
    requires |levels| == 1 + LevelCount(base, chunk, zIsSpace, maxLevels)
    ensures maxLevels > 0 ==> |levels| <= 1 + maxLevels
    ensures forall k: nat :: k < |levels| - 1 ==>
              (zIsSpace && base.planes > chunk.planes * Pow2(k)) || (base.rows > chunk.rows * Pow2(k) && base.cols > chunk.cols * Pow2(k))
    ensures maxLevels == 0 || |levels| <= maxLevels ==>
              var k, last := |levels| - 1, levels[|levels| - 1];
              && (zIsSpace ==> base.planes <= chunk.planes * Pow2(k) && last.planes <= chunk.planes)
              && (base.rows <= chunk.rows * Pow2(k) || base.cols <= chunk.cols * Pow2(k))
              && (last.rows <= chunk.rows || last.rows <= chunk.cols || last.cols <= chunk.rows || last.cols <= chunk.cols)
  {
    forall k: nat ensures LevelCount(base, chunk, zIsSpace, maxLevels) <= k <==>
            (maxLevels > 0 && maxLevels <= k)
            || ((zIsSpace ==> base.planes <= chunk.planes * Pow2(k)) && (base.rows <= chunk.rows * Pow2(k) || base.cols <= chunk.cols * Pow2(k)))
    {
      LevelCountIs(base, chunk, zIsSpace, maxLevels, k);
    }
    if maxLevels == 0 || |levels| <= maxLevels {
      LastLevelStays(levels, base, chunk, zIsSpace);
    }
  }

  /**
   Without a limit, when an axis of the last level's frames fits its chunk: `k` is how often the smaller frame axis has to
   be halved to come to the larger chunk axis, which is when the rule stops.
   */
  lemma LastFrameFits(levels: seq<Shape>, base: Shape, chunk: Shape, zIsSpace: bool, k: nat)
    requires chunk.planes > 0 && chunk.rows > 0 && chunk.cols > 0 && AreLevels(levels, base, chunk, zIsSpace)
    requires |levels| == 1 + LevelCount(base, chunk, zIsSpace, 0)
    requires k == Divisions(Minimum(base.rows, base.cols), Maximum(chunk.rows, chunk.cols))
    ensures k < |levels|
    ensures var last := levels[|levels| - 1];
            last.rows <= chunk.rows || last.cols <= chunk.cols <==> base.rows <= chunk.rows * Pow2(k) || base.cols <= chunk.cols * Pow2(k)
    ensures chunk.rows == chunk.cols ==> base.rows <= chunk.rows * Pow2(k) || base.cols <= chunk.cols * Pow2(k)
  {
    var m, c, l := Minimum(base.rows, base.cols), Maximum(chunk.rows, chunk.cols), |levels| - 1;
    LevelCountIs(base, chunk, zIsSpace, 0, l);
    MulMono(chunk.rows, c, Pow2(l));
    MulMono(chunk.cols, c, Pow2(l));
    DivisionsIs(m, c, l);
    HalvingsAre(m, c, l);
    FrameAt(levels, base, chunk, zIsSpace, l, k);
    HalvedIs(base.rows, k);
    HalvedIs(base.cols, k);
    HalvedFits(base.rows, k, chunk.rows);
    HalvedFits(base.cols, k, chunk.cols);
  }

  lemma HalvingsAre(size: nat, limit: nat, l: nat)
    requires limit > 0
    ensures HalvingsAt(size, limit, l, Minimum(l, Divisions(size, limit)))
  {
    var k := Minimum(l, Divisions(size, limit));
    DivisionsIs(size, limit, k);
    if k > 0 {
      DivisionsIs(size, limit, k - 1);
    }
  }

  /** Two consecutive levels are equal exactly when neither planes nor rows and columns are left to halve. */
  lemma LevelRepeats(levels: seq<Shape>, base: Shape, chunk: Shape, zIsSpace: bool, l: nat)
    requires chunk.planes > 0 && chunk.rows > 0 && chunk.cols > 0 && AreLevels(levels, base, chunk, zIsSpace) && 1 <= l < |levels|
    ensures levels[l] == levels[l - 1] <==>
            (zIsSpace ==> base.planes <= chunk.planes * Pow2(l - 1))
            && Minimum(base.rows, base.cols) <= Maximum(chunk.rows, chunk.cols) * Pow2(l - 1)
  {
    StillToHalve(levels, base, chunk, zIsSpace, l - 1);
  }

  /** What is left to halve at a level, in terms of the base. */
  lemma StillToHalve(levels: seq<Shape>, base: Shape, chunk: Shape, zIsSpace: bool, l: nat)
    requires chunk.planes > 0 && chunk.rows > 0 && chunk.cols > 0 && AreLevels(levels, base, chunk, zIsSpace) && l < |levels|
    ensures zIsSpace ==> (levels[l].planes <= chunk.planes <==> base.planes <= chunk.planes * Pow2(l))
    ensures Minimum(levels[l].rows, levels[l].cols) <= Maximum(chunk.rows, chunk.cols) <==>
            Minimum(base.rows, base.cols) <= Maximum(chunk.rows, chunk.cols) * Pow2(l)
  {
    var m, c := Minimum(base.rows, base.cols), Maximum(chunk.rows, chunk.cols);
    var k, j := Minimum(l, Divisions(m, c)), Minimum(l, Divisions(base.planes, chunk.planes));
    HalvingsAre(m, c, l);
    FrameAt(levels, base, chunk, zIsSpace, l, k);
    HalvedIs(base.rows, k);
    HalvedIs(base.cols, k);
    MinimumHalved(base.rows, base.cols, k, c);
    DivisionsIs(m, c, l);
    DivisionsIs(m, c, k);
    HalvingsAre(base.planes, chunk.planes, l);
    PlanesAt(levels, base, chunk, zIsSpace, l, j);
    HalvedIs(base.planes, j);
    HalvedFits(base.planes, j, chunk.planes);
    DivisionsIs(base.planes, chunk.planes, l);
    DivisionsIs(base.planes, chunk.planes, j);
  }

  /** Frames of 300 rows and 5000 columns in chunks of 256 and 400: a second level, equal to the first, and no axis fits its chunk. */
  lemma LevelWithoutHalving(base: Shape, chunk: Shape)
    requires base == Shape(1, 300, 5000) && chunk == Shape(1, 256, 400)
    ensures LevelCount(base, chunk, false, 0) == 1 && NextShape(base, chunk, false) == base
    ensures base.rows > chunk.rows && base.cols > chunk.cols
  {
    assert Pow2(1) == 2 && Pow2(0) == 1;
    LevelCountIs(base, chunk, false, 0, 0);
    LevelCountIs(base, chunk, false, 0, 1);
  }

  method MakeLevels(base: Shape, chunk: Shape, zIsSpace: bool, maxLevels: nat) returns (levels: seq<Shape>)
    requires base.rows > 0 && base.cols > 0 && chunk.planes > 0 && chunk.rows > 0 && chunk.cols > 0
    ensures AreLevels(levels, base, chunk, zIsSpace) && |levels| == 1 + LevelCount(base, chunk, zIsSpace, maxLevels)
    ensures maxLevels > 0 ==> |levels| <= 1 + maxLevels
    ensures forall k: nat :: k < |levels| - 1 ==>
              (zIsSpace && base.planes > chunk.planes * Pow2(k)) || (base.rows > chunk.rows * Pow2(k) && base.cols > chunk.cols * Pow2(k))
    ensures maxLevels == 0 || |levels| <= maxLevels ==>
              var k, last := |levels| - 1, levels[|levels| - 1];
              && (zIsSpace ==> base.planes <= chunk.planes * Pow2(k) && last.planes <= chunk.planes)
              && (base.rows <= chunk.rows * Pow2(k) || base.cols <= chunk.cols * Pow2(k))
              && (last.rows <= chunk.rows || last.rows <= chunk.cols || last.cols <= chunk.rows || last.cols <= chunk.cols)
    ensures forall l :: 1 <= l < |levels| ==> StepsTo(levels[l - 1], levels[l])
    ensures forall l :: 0 <= l < |levels| ==> levels[l].rows > 0 && levels[l].cols > 0
  {
    levels := [base];
    for level := 1 to 1 + LevelCount(base, chunk, zIsSpace, maxLevels)
      invariant |levels| == level && levels[0] == base
      invariant forall l :: 1 <= l < |levels| ==>
                  levels[l] == NextShape(levels[l - 1], chunk, zIsSpace) && StepsTo(levels[l - 1], levels[l])
      invariant forall l :: 0 <= l < |levels| ==> levels[l].rows > 0 && levels[l].cols > 0
    {
      levels := levels + [NextShape(levels[level - 1], chunk, zIsSpace)];
    }
    LevelsAre(levels, base, chunk, zIsSpace, maxLevels);
  }
}
