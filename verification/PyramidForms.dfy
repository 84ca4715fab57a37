/** Closed forms of the pyramid: box extremes for Min and Max, strided subsampling for Decimate, drift of Mean. */
module PyramidForms {
  import opened Arith
  import opened PyramidLevels

  datatype Point = Point(k: nat, y: nat, x: nat)

  predicate InFrame(p: Pyramid, l: nat, v: Point)
    requires l < |p.levels|
  {
    v.y < p.levels[l].rows && v.x < p.levels[l].cols
  }

  function At(p: Pyramid, l: nat, v: Point): int
    requires p.Valid() && l < |p.levels|
  {
    Voxel(p, l, v.k, v.y, v.x)
  }

  // ----- Where a base voxel goes ---------------------------------------------------------------

  /** The voxel of level `l` that the voxel `v` of the level below falls in. */
  function Down(p: Pyramid, l: nat, v: Point): Point
    requires p.Valid() && 1 <= l < |p.levels|
  {
    Point(if p.Z(l) then Pair(p.levels[l - 1].planes, p.levels[l].planes, v.k) else v.k,
          if p.XY(l) then v.y / 2 else v.y,
          if p.XY(l) then v.x / 2 else v.x)
  }

  function Pair(zp: nat, zn: nat, k: nat): nat
    requires zp > 0
  {
    var start: nat := Row(k, zp) * zn;
    start + Col(k, zp) / 2
  }

  /** The voxel of level `l` that a base voxel falls in. */
  function Project(p: Pyramid, l: nat, v: Point): Point
    requires p.Valid() && l < |p.levels|
  {
    if l == 0 then v else Down(p, l, Project(p, l - 1, v))
  }

  /** Halvings of the planes (of the rows and columns) down to level `l`. */
  function ZSteps(p: Pyramid, l: nat): nat
    requires p.Valid() && l < |p.levels|
  {
    if l == 0 then 0 else ZSteps(p, l - 1) + if p.Z(l) then 1 else 0
  }

  function XYSteps(p: Pyramid, l: nat): nat
    requires p.Valid() && l < |p.levels|
  {
    if l == 0 then 0 else XYSteps(p, l - 1) + if p.XY(l) then 1 else 0
  }

  function Pow2(n: nat): (q: nat)
    ensures q > 0
  {
    if n == 0 then 1 else 2 * Pow2(n - 1)
  }

  lemma HalfOfQuotient(a: nat, n: nat)
    ensures a / Pow2(n) / 2 == a / Pow2(n + 1)
  {
    assert Pow2(n) * 2 == Pow2(n + 1);
    DivDiv(a, Pow2(n), 2);
  }

  /** Projection shifts each index right by its axis's number of halvings, the plane within its own stack. */
  lemma {:induction false} ProjectIsShift(p: Pyramid, l: nat, v: Point)
    requires p.Valid() && l < |p.levels|
    ensures Project(p, l, v).y == v.y / Pow2(XYSteps(p, l))
    ensures Project(p, l, v).x == v.x / Pow2(XYSteps(p, l))
    ensures p.levels[0].planes > 0 ==>
              && p.levels[l].planes > 0
              && Row(Project(p, l, v).k, p.levels[l].planes) == Row(v.k, p.levels[0].planes)
              && Col(Project(p, l, v).k, p.levels[l].planes) == Col(v.k, p.levels[0].planes) / Pow2(ZSteps(p, l))
  {
    if l > 0 {
      ProjectIsShift(p, l - 1, v);
      var u := Project(p, l - 1, v);
      if p.XY(l) {
        HalfOfQuotient(v.y, XYSteps(p, l - 1));
        HalfOfQuotient(v.x, XYSteps(p, l - 1));
      }
      if p.Z(l) {
        PairSplits(p.levels[l - 1].planes, p.levels[l].planes, u.k);
        if p.levels[0].planes > 0 {
          HalfOfQuotient(Col(v.k, p.levels[0].planes), ZSteps(p, l - 1));
        }
      }
    }
  }

  lemma PairSplits(zp: nat, zn: nat, k: nat)
    requires zp >= 2 && zn == HalfUp(zp)
    ensures Row(Pair(zp, zn, k), zn) == Row(k, zp) && Col(Pair(zp, zn, k), zn) == Col(k, zp) / 2
  {
    RowColOf(Row(k, zp), zn, Col(k, zp) / 2);
  }

  lemma {:induction false} ProjectInFrame(p: Pyramid, l: nat, v: Point)
    requires p.Valid() && l < |p.levels| && InFrame(p, 0, v)
    ensures InFrame(p, l, Project(p, l, v))
  {
    if l > 0 {
      ProjectInFrame(p, l - 1, v);
    }
  }

  // ----- The eight voxels a voxel is made of ---------------------------------------------------

  /** The voxels of the level below that the kernels of level `l` read for `w`. */
  predicate Reads(p: Pyramid, l: nat, w: Point, u: Point)
    requires p.Valid() && 1 <= l < |p.levels|
  {
    && (if p.Z(l) then u.k == FirstOf(p, l, w.k) || (HasSecond(p, l, w.k) && u.k == FirstOf(p, l, w.k) + 1) else u.k == w.k)
    && (if p.XY(l) then
          && (u.y == 2 * w.y || u.y == Beside(w.y, p.levels[l - 1].rows))
          && (u.x == 2 * w.x || u.x == Beside(w.x, p.levels[l - 1].cols))
        else u.y == w.y && u.x == w.x)
  }

  /** They are exactly the ones that fall in it: the 2 x 2 x 2 box, clipped to the frame and to the stack. */
  lemma ReadsIsDown(p: Pyramid, l: nat, w: Point, u: Point)
    requires p.Valid() && 1 <= l < |p.levels| && InFrame(p, l, w)
    ensures Reads(p, l, w, u) && InFrame(p, l - 1, u) <==> Down(p, l, u) == w && InFrame(p, l - 1, u)
  {
    if p.Z(l) {
      PlanesOf(p.levels[l - 1].planes, p.levels[l].planes, w.k, u.k);
    }
  }

  lemma PlanesOf(zp: nat, zn: nat, k: nat, u: nat)
    requires zp >= 2 && zn == HalfUp(zp)
    ensures Pair(zp, zn, u) == k
            <==> u == First(zp, zn, k) || (2 * Col(k, zn) + 1 < zp && u == First(zp, zn, k) + 1)
  {
    PairSplits(zp, zn, u);
    RowColDiv(u, zp);
    RowColDiv(k, zn);
    RowColOf(Row(k, zn), zp, 2 * Col(k, zn));
    if 2 * Col(k, zn) + 1 < zp {
      RowColOf(Row(k, zn), zp, 2 * Col(k, zn) + 1);
    }
    if Pair(zp, zn, u) == k {
      assert Row(u, zp) == Row(k, zn);
    }
  }

  lemma ReadsInFrame(p: Pyramid, l: nat, w: Point, u: Point)
    requires p.Valid() && 1 <= l < |p.levels| && InFrame(p, l, w) && Reads(p, l, w, u)
    ensures InFrame(p, l - 1, u)
  {
  }

  // ----- Min and Max -----------------------------------------------------------------------------

  predicate Extreme(m: Method) {
    m.Min? || m.Max?
  }

  /** `a` is at least as extreme as `b`. */
  predicate Beats(m: Method, a: int, b: int) {
    if m.Min? then a <= b else a >= b
  }

  lemma VoxelBeats(p: Pyramid, l: nat, w: Point, u: Point)
    requires p.Valid() && 1 <= l < |p.levels| && Extreme(p.kernel) && Reads(p, l, w, u)
    ensures Beats(p.kernel, At(p, l, w), At(p, l - 1, u))
  {
    assert Beats(p.kernel, Scaled(p, l, u.k, w.y, w.x), Voxel(p, l - 1, u.k, u.y, u.x));
  }

  lemma VoxelIsOne(p: Pyramid, l: nat, w: Point) returns (u: Point)
    requires p.Valid() && 1 <= l < |p.levels| && Extreme(p.kernel)
    ensures Reads(p, l, w, u) && At(p, l, w) == At(p, l - 1, u)
  {
    var k := if p.Z(l) then FirstOf(p, l, w.k) else w.k;
    if p.Z(l) && HasSecond(p, l, w.k) && At(p, l, w) != Scaled(p, l, k, w.y, w.x) {
      k := k + 1;
    }
    assert At(p, l, w) == Scaled(p, l, k, w.y, w.x);
    u := ScaledIsOne(p, l, k, w.y, w.x);
  }

  lemma ScaledIsOne(p: Pyramid, l: nat, k: nat, y: nat, x: nat) returns (u: Point)
    requires p.Valid() && 1 <= l < |p.levels| && Extreme(p.kernel)
    ensures u.k == k && Scaled(p, l, k, y, x) == At(p, l - 1, u)
    ensures if p.XY(l) then (u.y == 2 * y || u.y == Beside(y, p.levels[l - 1].rows))
                            && (u.x == 2 * x || u.x == Beside(x, p.levels[l - 1].cols))
            else u.y == y && u.x == x
  {
    if p.XY(l) {
      var y1, x1 := Beside(y, p.levels[l - 1].rows), Beside(x, p.levels[l - 1].cols);
      var s := Scaled(p, l, k, y, x);
      u := if s == Voxel(p, l - 1, k, 2 * y, 2 * x) then Point(k, 2 * y, 2 * x)
           else if s == Voxel(p, l - 1, k, 2 * y, x1) then Point(k, 2 * y, x1)
           else if s == Voxel(p, l - 1, k, y1, 2 * x) then Point(k, y1, 2 * x)
           else Point(k, y1, x1);
    } else {
      u := Point(k, y, x);
    }
  }

  /** A voxel is at least as extreme as every base voxel that falls in it. */
  lemma {:induction false} BoxBound(p: Pyramid, l: nat, v: Point)
    requires p.Valid() && l < |p.levels| && Extreme(p.kernel) && InFrame(p, 0, v)
    ensures Beats(p.kernel, At(p, l, Project(p, l, v)), At(p, 0, v))
  {
    if l > 0 {
      BoxBound(p, l - 1, v);
      ProjectInFrame(p, l - 1, v);
      ProjectInFrame(p, l, v);
      ReadsIsDown(p, l, Project(p, l, v), Project(p, l - 1, v));
      VoxelBeats(p, l, Project(p, l, v), Project(p, l - 1, v));
    }
  }

  /** And it is one of them. */
  lemma {:induction false} BoxAttained(p: Pyramid, l: nat, w: Point) returns (v: Point)
    requires p.Valid() && l < |p.levels| && Extreme(p.kernel) && InFrame(p, l, w)
    ensures InFrame(p, 0, v) && Project(p, l, v) == w && At(p, l, w) == At(p, 0, v)
  {
    if l == 0 {
      v := w;
    } else {
      var u := VoxelIsOne(p, l, w);
      ReadsInFrame(p, l, w, u);
      ReadsIsDown(p, l, w, u);
      v := BoxAttained(p, l - 1, u);
    }
  }

  // ----- Decimate --------------------------------------------------------------------------------

  /** First voxel of the level below that falls in `w`. */
  function Up(p: Pyramid, l: nat, w: Point): Point
    requires p.Valid() && 1 <= l < |p.levels|
  {
    Point(if p.Z(l) then FirstOf(p, l, w.k) else w.k, if p.XY(l) then 2 * w.y else w.y, if p.XY(l) then 2 * w.x else w.x)
  }

  function Origin(p: Pyramid, l: nat, w: Point): Point
    requires p.Valid() && l < |p.levels|
  {
    if l == 0 then w else Origin(p, l - 1, Up(p, l, w))
  }

  /** Subsampling keeps the first voxel of every box. */
  lemma {:induction false} DecimateKeeps(p: Pyramid, l: nat, w: Point)
    requires p.Valid() && l < |p.levels| && p.kernel.Decimate?
    ensures At(p, l, w) == At(p, 0, Origin(p, l, w))
  {
    if l > 0 {
      var u := Up(p, l, w);
      DecimateKeeps(p, l - 1, u);
      assert Scaled(p, l, u.k, w.y, w.x) == At(p, l - 1, u);
      assert At(p, l, w) == Scaled(p, l, u.k, w.y, w.x);
    }
  }

  /** Which is the voxel at index times 2^halvings in the frame. */
  lemma {:induction false} OriginInFrame(p: Pyramid, l: nat, w: Point)
    requires p.Valid() && l < |p.levels|
    ensures Origin(p, l, w).y == w.y * Pow2(XYSteps(p, l)) && Origin(p, l, w).x == w.x * Pow2(XYSteps(p, l))
  {
    if l == 0 {
      assert Pow2(0) == 1;
    } else {
      OriginInFrame(p, l - 1, Up(p, l, w));
      DoubleStride(w.y, XYSteps(p, l - 1));
      DoubleStride(w.x, XYSteps(p, l - 1));
    }
  }

  /** And across planes, in the same stack. */
  lemma {:induction false} OriginInStack(p: Pyramid, l: nat, w: Point)
    requires p.Valid() && l < |p.levels| && p.levels[0].planes > 0
    ensures p.levels[l].planes > 0
    ensures Row(Origin(p, l, w).k, p.levels[0].planes) == Row(w.k, p.levels[l].planes)
    ensures Col(Origin(p, l, w).k, p.levels[0].planes) == Col(w.k, p.levels[l].planes) * Pow2(ZSteps(p, l))
  {
    if l == 0 {
      assert Pow2(0) == 1;
    } else {
      OriginInStack(p, l - 1, Up(p, l, w));
      if p.Z(l) {
        UpPlane(p.levels[l - 1].planes, p.levels[l].planes, w.k);
        DoubleStride(Col(w.k, p.levels[l].planes), ZSteps(p, l - 1));
      }
    }
  }

  lemma UpPlane(zp: nat, zn: nat, k: nat)
    requires zp >= 2 && zn == HalfUp(zp)
    ensures Row(First(zp, zn, k), zp) == Row(k, zn) && Col(First(zp, zn, k), zp) == 2 * Col(k, zn)
  {
    RowColOf(Row(k, zn), zp, 2 * Col(k, zn));
  }

  lemma DoubleStride(a: nat, n: nat)
    ensures 2 * a * Pow2(n) == a * Pow2(n + 1)
  {
    MulSwap(a, Pow2(n));
  }

  lemma MulSwap(a: int, q: int)
    ensures 2 * a * q == a * (2 * q)
  {
  }

  // ----- Mean --------------------------------------------------------------------------------------

  /** The exact average, with the same edge replication. */
  function Exact(p: Pyramid, l: nat, k: nat, y: nat, x: nat): real
    requires p.Valid() && l < |p.levels|
    decreases l, 1
  {
    if l == 0 then p.base(k, y, x) as real
    else if p.Z(l) then
      var first := FirstOf(p, l, k);
      if HasSecond(p, l, k) then (ExactScaled(p, l, first, y, x) + ExactScaled(p, l, first + 1, y, x)) / 2.0
      else ExactScaled(p, l, first, y, x)
    else ExactScaled(p, l, k, y, x)
  }

  function ExactScaled(p: Pyramid, l: nat, k: nat, y: nat, x: nat): real
    requires p.Valid() && 1 <= l < |p.levels|
    decreases l, 0
  {
    if p.XY(l) then
      var y1, x1 := Beside(y, p.levels[l - 1].rows), Beside(x, p.levels[l - 1].cols);
      (Exact(p, l - 1, k, 2 * y, 2 * x) + Exact(p, l - 1, k, 2 * y, x1)
       + Exact(p, l - 1, k, y1, 2 * x) + Exact(p, l - 1, k, y1, x1)) / 4.0
    else Exact(p, l - 1, k, y, x)
  }

  /** Unsigned data. */
  ghost predicate Unsigned(p: Pyramid) {
    forall k: nat, y: nat, x: nat :: p.base(k, y, x) >= 0
  }

  /** `v` is the exact value rounded down by at most `slack`. */
  predicate Near(v: int, exact: real, slack: real) {
    0 <= v && v as real <= exact <= v as real + slack
  }

  lemma Mean4Near(a: int, b: int, c: int, d: int, ea: real, eb: real, ec: real, ed: real, slack: real)
    requires Near(a, ea, slack) && Near(b, eb, slack) && Near(c, ec, slack) && Near(d, ed, slack)
    ensures Near((a + b + c + d) / 4, (ea + eb + ec + ed) / 4.0, slack + 0.75)
  {
    var s := a + b + c + d;
    assert s == 4 * (s / 4) + s % 4;
    assert s as real == 4.0 * ((s / 4) as real) + (s % 4) as real;
  }

  lemma Mean2Near(a: int, b: int, ea: real, eb: real, slack: real)
    requires Near(a, ea, slack) && Near(b, eb, slack)
    ensures Near((a + b) / 2, (ea + eb) / 2.0, slack + 0.5)
  {
    var s := a + b;
    assert s == 2 * (s / 2) + s % 2;
    assert s as real == 2.0 * ((s / 2) as real) + (s % 2) as real;
  }

  /** Each level rounds down by at most 3/4 in the frame and 1/2 across planes. */
  lemma {:induction false} MeanDrift(p: Pyramid, l: nat, k: nat, y: nat, x: nat)
    requires p.Valid() && l < |p.levels| && p.kernel.Mean? && Unsigned(p)
    ensures Near(Voxel(p, l, k, y, x), Exact(p, l, k, y, x), 1.25 * l as real)
    decreases l, 1
  {
    if l > 0 {
      if p.Z(l) {
        var first := FirstOf(p, l, k);
        ScaledDrift(p, l, first, y, x);
        if HasSecond(p, l, k) {
          ScaledDrift(p, l, first + 1, y, x);
          Mean2Near(Scaled(p, l, first, y, x), Scaled(p, l, first + 1, y, x), ExactScaled(p, l, first, y, x),
                    ExactScaled(p, l, first + 1, y, x), 1.25 * (l - 1) as real + 0.75);
        }
      } else {
        ScaledDrift(p, l, k, y, x);
      }
    }
  }

  lemma {:induction false} ScaledDrift(p: Pyramid, l: nat, k: nat, y: nat, x: nat)
    requires p.Valid() && 1 <= l < |p.levels| && p.kernel.Mean? && Unsigned(p)
    ensures Near(Scaled(p, l, k, y, x), ExactScaled(p, l, k, y, x), 1.25 * (l - 1) as real + 0.75)
    decreases l, 0
  {
    if p.XY(l) {
      var y1, x1 := Beside(y, p.levels[l - 1].rows), Beside(x, p.levels[l - 1].cols);
      MeanDrift(p, l - 1, k, 2 * y, 2 * x);
      MeanDrift(p, l - 1, k, 2 * y, x1);
      MeanDrift(p, l - 1, k, y1, 2 * x);
      MeanDrift(p, l - 1, k, y1, x1);
      MeanOfFour(p, l, k, y, x, Voxel(p, l - 1, k, 2 * y, 2 * x), Voxel(p, l - 1, k, 2 * y, x1), Voxel(p, l - 1, k, y1, 2 * x),
                 Voxel(p, l - 1, k, y1, x1), Exact(p, l - 1, k, 2 * y, 2 * x), Exact(p, l - 1, k, 2 * y, x1),
                 Exact(p, l - 1, k, y1, 2 * x), Exact(p, l - 1, k, y1, x1));
    } else {
      MeanDrift(p, l - 1, k, y, x);
    }
  }

  lemma MeanOfFour(p: Pyramid, l: nat, k: nat, y: nat, x: nat, a: int, b: int, c: int, d: int,
                   ea: real, eb: real, ec: real, ed: real)
    requires p.Valid() && 1 <= l < |p.levels| && p.kernel.Mean?
    requires Scaled(p, l, k, y, x) == Scale4(Mean, a, b, c, d) && ExactScaled(p, l, k, y, x) == (ea + eb + ec + ed) / 4.0
    requires var s := 1.25 * (l - 1) as real; Near(a, ea, s) && Near(b, eb, s) && Near(c, ec, s) && Near(d, ed, s)
    ensures Near(Scaled(p, l, k, y, x), ExactScaled(p, l, k, y, x), 1.25 * (l - 1) as real + 0.75)
  {
    Mean4Near(a, b, c, d, ea, eb, ec, ed, 1.25 * (l - 1) as real);
  }
}
