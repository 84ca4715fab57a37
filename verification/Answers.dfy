/** What an array answers to a frame offered to it (src/streaming/array.cpp, write_frame). */
module Answers {
  import opened Arith

  datatype WriteResult = Ok | PartialWrite | OutOfBounds | FrameOutOfOrder | FrameSizeMismatch

  /**
   The program's checks in their order: the size, the room left of `maxBytes` (0 for no limit), the id;
   `frames` frames of `frameBytes` bytes have been accepted before.
   */
  function Answer(frameBytes: nat, maxBytes: nat, frames: nat, size: nat, frameId: nat): WriteResult {
    if size != frameBytes then FrameSizeMismatch
    else if maxBytes > 0 && frames * frameBytes + size > maxBytes then OutOfBounds
    else if frameId != frames then FrameOutOfOrder
    else Ok
  }

  /** A wrong size is reported first, then a frame past the end, then one out of order; nothing is ever accepted in part. */
  lemma RefusedInOrder(frameBytes: nat, maxBytes: nat, frames: nat, size: nat, frameId: nat)
    ensures var r, room := Answer(frameBytes, maxBytes, frames, size, frameId), maxBytes == 0 || (frames + 1) * frameBytes <= maxBytes;
            && (r == FrameSizeMismatch <==> size != frameBytes)
            && (r == OutOfBounds <==> size == frameBytes && !room)
            && (r == FrameOutOfOrder <==> size == frameBytes && room && frameId != frames)
            && r != PartialWrite
  {
    OneMore(frames, frameBytes);
  }

  /** The next frame of an array that has room for it is accepted, and no other. */
  lemma AcceptedInOrder(frameBytes: nat, maxBytes: nat, frames: nat, size: nat, frameId: nat)
    ensures Answer(frameBytes, maxBytes, frames, size, frameId) == Ok
            <==> size == frameBytes && frameId == frames && (maxBytes > 0 ==> (frameId + 1) * frameBytes <= maxBytes)
  {
    OneMore(frames, frameBytes);
  }

  lemma OneMore(n: nat, d: nat)
    ensures (n + 1) * d == n * d + d
  {
  }
}
