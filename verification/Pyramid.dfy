/**
 What each level of the multiscale pyramid holds, voxel by voxel (src/streaming/downsampler.cpp): the
 recursive definition that the online downsampler is proved to emit, and the closed forms it comes to.
 */
module PyramidLevels {
  import opened Arith

  datatype Method = Decimate | Mean | Min | Max

  function Least(a: int, b: int): int { if b < a then b else a }
  function Greatest(a: int, b: int): int { if b > a then b else a }

  /** Division as the program's integers do it, towards zero. */
  function Divide(a: int, d: int): int
    requires d > 0
  {
    if a >= 0 then a / d else -(-a / d)
  }

  /** What is left over has the sign of `a` and is less than `d`: the quotient nearest to `a / d` on the side of 0. */
  lemma DivideTruncates(a: int, d: int)
    requires d > 0
    ensures var rest := a - Divide(a, d) * d; if a >= 0 then 0 <= rest < d else -d < rest <= 0
    ensures Divide(-a, d) == -Divide(a, d)
  {
    if a >= 0 {
      DivModDef(a, d);
    } else {
      DivModDef(-a, d);
    }
  }

  /** The 2 x 2 kernels: here, right, down, diagonal. */
  function Scale4(m: Method, a: int, b: int, c: int, d: int): int {
    match m
    case Decimate => a
    case Mean => Divide(a + b + c + d, 4)
    case Min => Least(Least(Least(a, b), c), d)
    case Max => Greatest(Greatest(Greatest(a, b), c), d)
  }

  /** The kernels over two planes: older, newer. */
  function Average2(m: Method, a: int, b: int): int {
    match m
    case Decimate => a
    case Mean => Divide(a + b, 2)
    case Min => if a < b then a else b
    case Max => if a > b then a else b
  }

  /** Planes of a z-stack, rows and columns; 0 planes stand for an unbounded axis. */
  datatype Shape = Shape(planes: nat, rows: nat, cols: nat)

  function HalfUp(n: nat): nat {
    (n + n % 2) / 2
  }

  predicate HalvesZ(prev: Shape, next: Shape) {
    next.planes < prev.planes
  }

  predicate HalvesXY(prev: Shape, next: Shape) {
    next.rows < prev.rows || next.cols < prev.cols
  }

  /** Each axis group is halved, rounding up, or left alone. */
  predicate StepsTo(prev: Shape, next: Shape) {
    && (next.planes == prev.planes || (prev.planes >= 2 && next.planes == HalfUp(prev.planes)))
    && ((next.rows == prev.rows && next.cols == prev.cols)
        || (prev.rows >= 2 && prev.cols >= 2 && next.rows == HalfUp(prev.rows) && next.cols == HalfUp(prev.cols)))
  }

  /** Base voxels by frame index, row, column. */
  datatype Pyramid = Pyramid(kernel: Method, levels: seq<Shape>, base: (nat, nat, nat) -> int) {
    predicate Valid() {
      |levels| > 0 && forall l :: 1 <= l < |levels| ==> StepsTo(levels[l - 1], levels[l])
    }

    /** Whether level `l` halves the planes (the rows and columns) of the level below it. */
    predicate Z(l: nat) requires 1 <= l < |levels| { HalvesZ(levels[l - 1], levels[l]) }
    predicate XY(l: nat) requires 1 <= l < |levels| { HalvesXY(levels[l - 1], levels[l]) }
  }

  /** The second sample along an axis: the next one, or the same at an odd edge. */
  function Beside(i: nat, size: nat): nat {
    if 2 * i + 1 < size then 2 * i + 1 else 2 * i
  }

  /** Voxel of level `l`, frame `k` of that level. */
  function Voxel(p: Pyramid, l: nat, k: nat, y: nat, x: nat): int
    requires p.Valid() && l < |p.levels|
    decreases l, 1
  {
    if l == 0 then p.base(k, y, x)
    else if p.Z(l) then
      var first := FirstOf(p, l, k);
      if HasSecond(p, l, k) then Average2(p.kernel, Scaled(p, l, first, y, x), Scaled(p, l, first + 1, y, x))
      else Scaled(p, l, first, y, x)
    else Scaled(p, l, k, y, x)
  }

  /** Voxel of frame `k` of the level below, scaled to the rows and columns of level `l`. */
  function Scaled(p: Pyramid, l: nat, k: nat, y: nat, x: nat): int
    requires p.Valid() && 1 <= l < |p.levels|
    decreases l, 0
  {
    if p.XY(l) then
      var y1, x1 := Beside(y, p.levels[l - 1].rows), Beside(x, p.levels[l - 1].cols);
      Scale4(p.kernel, Voxel(p, l - 1, k, 2 * y, 2 * x), Voxel(p, l - 1, k, 2 * y, x1),
             Voxel(p, l - 1, k, y1, 2 * x), Voxel(p, l - 1, k, y1, x1))
    else Voxel(p, l - 1, k, y, x)
  }

  /** First of the two planes of the level below that make frame `k`; both in the same stack. */
  function FirstOf(p: Pyramid, l: nat, k: nat): nat
    requires p.Valid() && 1 <= l < |p.levels| && p.Z(l)
  {
    First(p.levels[l - 1].planes, p.levels[l].planes, k)
  }

  function First(zp: nat, zn: nat, k: nat): nat
    requires zn > 0
  {
    var start: nat := Row(k, zn) * zp;
    start + 2 * Col(k, zn)
  }

  /** There is no second one for the odd last plane of a stack. */
  predicate HasSecond(p: Pyramid, l: nat, k: nat)
    requires p.Valid() && 1 <= l < |p.levels| && p.Z(l)
  {
    2 * Col(k, p.levels[l].planes) + 1 < p.levels[l - 1].planes
  }

  // ----- How many frames each level has emitted ----------------------------------------------

  /** Frames of level `l` that `c` frames of the level below give. */
  function Passed(p: Pyramid, l: nat, c: nat): nat
    requires p.Valid() && 1 <= l < |p.levels|
  {
    if p.Z(l) then Pass(p.levels[l - 1].planes, p.levels[l].planes, c) else c
  }

  function Pass(zp: nat, zn: nat, c: nat): nat
    requires zp > 0
  {
    var whole: nat := Row(c, zp) * zn;
    whole + Col(c, zp) / 2
  }

  /** A plane waits for its partner. */
  predicate Waiting(p: Pyramid, l: nat, c: nat)
    requires p.Valid() && 1 <= l < |p.levels|
  {
    p.Z(l) && Col(c, p.levels[l - 1].planes) % 2 == 1
  }

  function Emitted(p: Pyramid, l: nat, n: nat): nat
    requires p.Valid() && l < |p.levels|
  {
    if l == 0 then n else Passed(p, l, Emitted(p, l - 1, n))
  }

  /** Frame `c` of the level below: alone in its stack's last place, second of a pair, or first. */
  predicate Alone(p: Pyramid, l: nat, c: nat)
    requires p.Valid() && 1 <= l < |p.levels| && p.Z(l)
  {
    p.levels[l - 1].planes % 2 == 1 && Col(c + 1, p.levels[l - 1].planes) == 0
  }

  /** What one more frame of the level below does: the program's three cases. */
  lemma PassedStep(p: Pyramid, l: nat, c: nat)
    requires p.Valid() && 1 <= l < |p.levels| && p.Z(l)
    ensures Alone(p, l, c) ==> !Waiting(p, l, c) && !Waiting(p, l, c + 1)
    ensures Alone(p, l, c) ==> Passed(p, l, c + 1) == Passed(p, l, c) + 1
                               && FirstOf(p, l, Passed(p, l, c)) == c && !HasSecond(p, l, Passed(p, l, c))
    ensures !Alone(p, l, c) && Waiting(p, l, c) ==>
              c > 0 && !Waiting(p, l, c + 1) && Passed(p, l, c + 1) == Passed(p, l, c) + 1
              && FirstOf(p, l, Passed(p, l, c)) == c - 1 && HasSecond(p, l, Passed(p, l, c))
    ensures !Alone(p, l, c) && !Waiting(p, l, c) ==>
              Waiting(p, l, c + 1) && Passed(p, l, c + 1) == Passed(p, l, c)
  {
    var zp, zn := p.levels[l - 1].planes, p.levels[l].planes;
    RowColDiv(c, zp);
    PassStep(zp, zn, c, Row(c, zp), Col(c, zp));
  }

  lemma PassStep(zp: nat, zn: nat, c: nat, q: nat, r: nat)
    requires zp >= 2 && zn == HalfUp(zp) && q == Row(c, zp) && r == Col(c, zp) && c == q * zp + r
    ensures var last := r + 1 == zp;
            && Col(c + 1, zp) == (if last then 0 else r + 1)
            && Pass(zp, zn, c + 1) == Pass(zp, zn, c) + (if last || r % 2 == 1 then 1 else 0)
    ensures Row(Pass(zp, zn, c), zn) == q && Col(Pass(zp, zn, c), zn) == r / 2
    ensures First(zp, zn, Pass(zp, zn, c)) == c - r % 2
  {
    RowNext(c, zp);
    RowColOf(q, zn, r / 2);
    assert (q + 1) * zn == q * zn + zn;
  }

  /** After complete stacks every level has emitted complete stacks, and no plane waits. */
  lemma {:induction false} StacksAligned(p: Pyramid, l: nat, stacks: nat)
    requires p.Valid() && l < |p.levels|
    ensures 0 <= stacks * p.levels[0].planes && 0 <= stacks * p.levels[l].planes
    ensures Emitted(p, l, stacks * p.levels[0].planes) == stacks * p.levels[l].planes
    ensures l > 0 ==> !Waiting(p, l, Emitted(p, l - 1, stacks * p.levels[0].planes))
  {
    if l > 0 {
      StacksAligned(p, l - 1, stacks);
      if p.Z(l) {
        PassStacks(p.levels[l - 1].planes, p.levels[l].planes, stacks);
      }
    }
  }

  lemma PassStacks(zp: nat, zn: nat, stacks: nat)
    requires zp > 0
    ensures 0 <= stacks * zp && Pass(zp, zn, stacks * zp) == stacks * zn && Col(stacks * zp, zp) == 0
  {
    assert stacks * zp == stacks * zp + 0;
    RowColOf(stacks, zp, 0);
  }
}
