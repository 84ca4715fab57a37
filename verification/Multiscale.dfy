/** The multiscale writer (src/streaming/multiscale.array.cpp, write_multiscale_frames_). */
module Multiscale {
  import opened Arith
  import opened Lattice
  import opened PyramidLevels
  import opened Levels
  import opened Downsampling
  import opened Answers
  import opened Wrappers

  // ----- Room in the level arrays --------------------------------------------------------------------

  lemma {:induction false} PassedMono(p: Pyramid, l: nat, a: nat, b: nat)
    requires p.Valid() && 1 <= l < |p.levels| && a <= b
    ensures Passed(p, l, a) <= Passed(p, l, b)
    decreases b - a
  {
    if a < b {
      if p.Z(l) {
        PassedStep(p, l, a);
      }
      PassedMono(p, l, a + 1, b);
    }
  }

  lemma {:induction false} EmittedMono(p: Pyramid, l: nat, a: nat, b: nat)
    requires p.Valid() && l < |p.levels| && a <= b
    ensures Emitted(p, l, a) <= Emitted(p, l, b)
  {
    if l > 0 {
      EmittedMono(p, l - 1, a, b);
      PassedMono(p, l, Emitted(p, l - 1, a), Emitted(p, l - 1, b));
    }
  }

  lemma {:induction false} PlanesStay(p: Pyramid, l: nat)
    requires p.Valid() && l < |p.levels|
    ensures p.levels[0].planes > 0 <==> p.levels[l].planes > 0
  {
    if l > 0 {
      PlanesStay(p, l - 1);
      assert StepsTo(p.levels[l - 1], p.levels[l]);
    }
  }

  /** Frames a level's array has room for: its planes in each of the stacks; 0 for no limit. */
  function LevelFrames(stacks: nat, level: Shape): (n: nat)
    ensures n > 0 ==> stacks > 0 && level.planes > 0
  {
    stacks * level.planes
  }

  /** Base frames within the base array's size give frames within each level's. */
  lemma LevelFits(p: Pyramid, l: nat, stacks: nat, n: nat)
    requires p.Valid() && l < |p.levels|
    requires LevelFrames(stacks, p.levels[0]) > 0 ==> n <= LevelFrames(stacks, p.levels[0])
    ensures LevelFrames(stacks, p.levels[l]) > 0 ==> Emitted(p, l, n) <= LevelFrames(stacks, p.levels[l])
  {
    if LevelFrames(stacks, p.levels[l]) > 0 {
      PlanesStay(p, l);
      MulPos(stacks, p.levels[0].planes);
      StacksAligned(p, l, stacks);
      EmittedMono(p, l, n, stacks * p.levels[0].planes);
    }
  }

  /** Pixels of a level's frame and of its array. */
  function FramePixels(level: Shape): nat {
    level.rows * level.cols
  }

  function ArrayPixels(stacks: nat, level: Shape): nat {
    LevelFrames(stacks, level) * FramePixels(level)
  }

  /** The array of a level has room for all its pixels: stacks, planes, rows and columns. */
  lemma ArrayPixelsAre(stacks: nat, level: Shape)
    ensures ArrayPixels(stacks, level) == Size([stacks, level.planes, level.rows, level.cols])
  {
    assert Size([level.cols]) == level.cols;
    assert Size([level.rows, level.cols]) == level.rows * level.cols;
    assert Size([level.planes, level.rows, level.cols]) == level.planes * (level.rows * level.cols);
    MulAssoc(stacks, level.planes, level.rows * level.cols);
  }

  /** A frame of a level, the next in order and within its room, is accepted. */
  lemma LevelAccepts(stacks: nat, level: Shape, frames: nat)
    requires LevelFrames(stacks, level) > 0 ==> frames + 1 <= LevelFrames(stacks, level)
    ensures Answer(FramePixels(level), ArrayPixels(stacks, level), frames, FramePixels(level), frames) == Ok
  {
    AcceptedInOrder(FramePixels(level), ArrayPixels(stacks, level), frames, FramePixels(level), frames);
    if LevelFrames(stacks, level) > 0 {
      MulMono(frames + 1, LevelFrames(stacks, level), FramePixels(level));
    }
  }

  /** And so is the base frame, exactly if there is room for it. */
  lemma BaseAccepts(stacks: nat, level: Shape, frames: nat, size: nat, frameId: nat)
    requires FramePixels(level) > 0
    requires Answer(FramePixels(level), ArrayPixels(stacks, level), frames, size, frameId) == Ok
    ensures size == FramePixels(level) && frameId == frames
    ensures LevelFrames(stacks, level) > 0 ==> frames + 1 <= LevelFrames(stacks, level)
  {
    AcceptedInOrder(FramePixels(level), ArrayPixels(stacks, level), frames, size, frameId);
    if LevelFrames(stacks, level) > 0 {
      MulPos(LevelFrames(stacks, level), FramePixels(level));
      if frames + 1 > LevelFrames(stacks, level) {
        LastStep(LevelFrames(stacks, level), frames + 1, FramePixels(level));
      }
    }
  }

  // ----- The writer --------------------------------------------------------------------------------

  class MultiscaleWriter {
    const downsampler: Downsampler
    /** Stacks of the whole acquisition, 0 if it may grow; the same for all levels. */
    const stacks: nat
    var arrayFrameIds: seq<nat>
    /** Frames accepted by the array of each level. */
    var written: seq<seq<Image>>

    ghost predicate Valid(n: nat)
      reads this, downsampler
    {
      && downsampler.Built() && downsampler.Counting(n, 0) && downsampler.downsampledFrames == map[]
      && |arrayFrameIds| == |written| == |downsampler.levels| && |written[0]| == n && HasRoom(n)
      && forall l :: 1 <= l < |written| ==> WrittenIs(downsampler.pyramid, written[l], arrayFrameIds[l], l, n)
    }

    /** The base array has room for `n` frames. */
    predicate HasRoom(n: nat)
    {
      |downsampler.levels| > 0
      && (LevelFrames(stacks, downsampler.levels[0]) > 0 ==> n <= LevelFrames(stacks, downsampler.levels[0]))
    }

    constructor (d: Downsampler, count: nat)
      requires d.Built() && d.Counting(0, 0) && d.downsampledFrames == map[]
      ensures Valid(0) && downsampler == d && stacks == count
    {
      downsampler, stacks := d, count;
      arrayFrameIds, written := seq(|d.levels|, l => 0), seq(|d.levels|, l => []);
      new;
      forall l: nat | 1 <= l < |written| ensures WrittenIs(d.pyramid, written[l], arrayFrameIds[l], l, 0) {
        StacksAligned(d.pyramid, l, 0);
      }
    }

    /** The array of a level answers as write_frame does. */
    method WriteToArray(l: nat, frame: Image, frameId: nat) returns (r: WriteResult)
      requires l < |written| == |downsampler.levels|
      modifies this`written
      ensures var level := downsampler.levels[l];
              r == Answer(FramePixels(level), ArrayPixels(stacks, level), |old(written)[l]|, |frame|, frameId)
      ensures written == if r.Ok? then old(written)[l := old(written)[l] + [frame]] else old(written)
    {
      var level := downsampler.levels[l];
      if |frame| != FramePixels(level) {
        return FrameSizeMismatch;
      }
      if ArrayPixels(stacks, level) > 0 && |written[l]| * FramePixels(level) + |frame| > ArrayPixels(stacks, level) {
        return OutOfBounds;
      }
      if frameId != |written[l]| {
        return FrameOutOfOrder;
      }
      written := written[l := written[l] + [frame]];
      r := Ok;
    }

    /** A frame offered: the base array decides, and the answers of the levels, which are never looked at, are all Ok. */
    method WriteFrame(frame: Image, frameId: nat, ghost n: nat) returns (r: WriteResult)
      requires Valid(n)
      requires |frame| == FramePixels(downsampler.levels[0]) ==> Shows(downsampler.pyramid, frame, 0, n)
      modifies this`arrayFrameIds, this`written, downsampler
      ensures var base := downsampler.levels[0]; r == Answer(FramePixels(base), ArrayPixels(stacks, base), n, |frame|, frameId)
      ensures if r == Ok then Valid(n + 1) else Valid(n) && unchanged(this) && unchanged(downsampler)
    {
      r := WriteToArray(0, frame, frameId);
      if r == Ok {
        BaseAccepts(stacks, downsampler.levels[0], n, |frame|, frameId);
        var levels := WriteMultiscaleFrames(frame, n);
      }
    }

    /** Frame `n` is in the base array and not yet in the levels. */
    ghost predicate BaseWritten(n: nat)
      reads this, downsampler
    {
      && downsampler.Built() && downsampler.Counting(n, 0) && downsampler.downsampledFrames == map[]
      && |arrayFrameIds| == |written| == |downsampler.levels| && HasRoom(n + 1) && |written[0]| == n + 1
      && forall l :: 1 <= l < |written| ==> WrittenIs(downsampler.pyramid, written[l], arrayFrameIds[l], l, n)
    }

    /** One base frame: every level array accepts what is due to it, in order. */
    method WriteMultiscaleFrames(frame: Image, ghost n: nat) returns (r: WriteResult)
      requires BaseWritten(n) && Shows(downsampler.pyramid, frame, 0, n)
      modifies this`arrayFrameIds, this`written, downsampler
      ensures r == Ok && Valid(n + 1)
    {
      ghost var to := downsampler.AddFrame(frame, n);
      ghost var p, made, base := downsampler.pyramid, downsampler.downsampledFrames, written[0];
      for i := 1 to |written|
        invariant downsampler.Counting(n + 1, 0)
        invariant |arrayFrameIds| == |written| == |downsampler.levels|
        invariant written[0] == base && forall l :: 1 <= l < i ==> WrittenIs(p, written[l], arrayFrameIds[l], l, n + 1)
        invariant forall l :: i <= l < |written| ==> WrittenIs(p, written[l], arrayFrameIds[l], l, n)
        invariant forall l :: l in downsampler.downsampledFrames <==> l in made && l >= i
        invariant forall l :: l in downsampler.downsampledFrames ==> downsampler.downsampledFrames[l] == made[l]
      {
        var downsampled := downsampler.TakeFrame(i);
        if downsampled.Some? {
          assert Ready(p, made, i, n);
          var frameId := arrayFrameIds[i];
          arrayFrameIds := arrayFrameIds[i := frameId + 1];
          WrittenNext(p, written[i], frameId, i, n, downsampled.value);
          LevelFits(p, i, stacks, n + 1);
          LevelAccepts(stacks, downsampler.levels[i], frameId);
          r := WriteToArray(i, downsampled.value, frameId);
          if r != Ok {
            return;
          }
        } else {
          assert to > i ==> Ready(p, made, i, n);
        }
      }
      assert downsampler.downsampledFrames == map[];
      r := Ok;
    }
  }

  /** The array of a level holds exactly the frames of its level of the pyramid, in order. */
  ghost predicate WrittenIs(p: Pyramid, written: seq<Image>, frameId: nat, l: nat, n: nat)
    requires ValidPyramid(p) && 1 <= l < |p.levels|
  {
    && |written| == frameId == Emitted(p, l, n)
    && forall k :: 0 <= k < |written| ==> Shows(p, written[k], l, k)
  }

  lemma WrittenNext(p: Pyramid, written: seq<Image>, frameId: nat, l: nat, n: nat, px: Image)
    requires ValidPyramid(p) && 1 <= l < |p.levels| && WrittenIs(p, written, frameId, l, n)
    requires Emitted(p, l, n + 1) == Emitted(p, l, n) + 1 && Shows(p, px, l, Emitted(p, l, n))
    ensures WrittenIs(p, written + [px], frameId + 1, l, n + 1)
  {
  }
}
