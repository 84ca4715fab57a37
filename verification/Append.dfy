/**
 Appending bytes to an array (src/streaming/zarr.stream.cpp, append): arbitrary pieces are cut into frames,
 the same frames whatever the pieces.
 */
module Appending {
  import opened Arith
  import opened Bytes
  import opened FrameQueues

  /** The complete frames of a byte stream. */
  function Cut(s: seq<Byte>, n: nat): seq<seq<Byte>>
    requires n > 0
    decreases |s|
  {
    if |s| < n then [] else [s[..n]] + Cut(s[n..], n)
  }

  /** What is left over. */
  function Rest(s: seq<Byte>, n: nat): (r: seq<Byte>)
    requires n > 0
    ensures |r| < n
    decreases |s|
  {
    if |s| < n then s else Rest(s[n..], n)
  }

  function Concat(frames: seq<seq<Byte>>): seq<Byte> {
    if frames == [] then [] else frames[0] + Concat(frames[1..])
  }

  /** Frames and rest are the stream. */
  lemma {:induction false} CutIsAll(s: seq<Byte>, n: nat)
    requires n > 0
    ensures Concat(Cut(s, n)) + Rest(s, n) == s
    ensures forall i :: 0 <= i < |Cut(s, n)| ==> |Cut(s, n)[i]| == n
    decreases |s|
  {
    if |s| >= n {
      CutIsAll(s[n..], n);
      assert s == s[..n] + s[n..];
    }
  }

  /** More bytes, up to the end of the open frame. */
  lemma {:induction false} CutMore(s: seq<Byte>, t: seq<Byte>, n: nat)
    requires n > 0 && |Rest(s, n)| + |t| <= n
    ensures |Rest(s, n)| + |t| < n ==> Cut(s + t, n) == Cut(s, n) && Rest(s + t, n) == Rest(s, n) + t
    ensures |Rest(s, n)| + |t| == n ==> Cut(s + t, n) == Cut(s, n) + [Rest(s, n) + t] && Rest(s + t, n) == []
    decreases |s|
  {
    if |s| < n {
      if |s| + |t| == n {
        assert (s + t)[..n] == s + t && (s + t)[n..] == [];
      }
    } else {
      CutMore(s[n..], t, n);
      assert (s + t)[..n] == s[..n] && (s + t)[n..] == s[n..] + t;
    }
  }

  /** Frames as they are queued: under the array's key, numbered from 0. */
  function Tagged(key: string, frames: seq<seq<Byte>>): (items: seq<Item>)
    ensures |items| == |frames|
    ensures forall i :: 0 <= i < |items| ==> items[i] == Item(key, frames[i], i)
  {
    seq(|frames|, i requires 0 <= i < |frames| => Item(key, frames[i], i))
  }

  function Datas(items: seq<Item>): (frames: seq<seq<Byte>>)
    ensures |frames| == |items| && forall i :: 0 <= i < |frames| ==> frames[i] == items[i].data
  {
    seq(|items|, i requires 0 <= i < |items| => items[i].data)
  }

  lemma TaggedNext(key: string, frames: seq<seq<Byte>>, frame: seq<Byte>)
    ensures Tagged(key, frames + [frame]) == Tagged(key, frames) + [Item(key, frame, |frames|)]
  {
  }

  /** Complete frames are no more bytes than the stream. */
  lemma {:induction false} CutFits(s: seq<Byte>, n: nat)
    requires n > 0
    ensures 0 <= |Cut(s, n)| * n <= |s|
    decreases |s|
  {
    if |s| >= n {
      CutFits(s[n..], n);
      assert |Cut(s, n)| * n == |Cut(s[n..], n)| * n + n;
    }
  }

  /** What had entered the queue, left it and been pushed at some moment. */
  datatype Mark = Mark(entered: seq<Item>, left: nat, pushed: seq<Item>)

  datatype Status = Success | WriteOutOfBounds | PartialWrite | InternalError

  /** One array's side of the stream. */
  class Output {
    const key: string
    const frameSizeBytes: nat
    const maxArraySizeBytes: nat
    var frameBuffer: seq<Byte>
    var frameBufferOffset: nat
    var framesQueued: nat
    var bytesWritten: nat
    /** Frames pushed to the queue under this array's key. */
    ghost var pushed: seq<Item>
    /** All bytes accepted so far. */
    ghost var accepted: seq<Byte>

    ghost predicate Valid()
      reads this
    {
      && frameSizeBytes > 0 && bytesWritten == |accepted|
      && (maxArraySizeBytes > 0 ==> bytesWritten <= maxArraySizeBytes)
      && Holds(accepted)
    }

    /** The queue has been given exactly these frames under this key. */
    ghost predicate Linked(queue: FrameQueue)
      reads this`pushed, queue`entered
    {
      OfKey(queue.entered, key) == pushed
    }

    /** The stream `s` has been cut: its frames are queued, in order, its rest is held. */
    ghost predicate Holds(s: seq<Byte>)
      requires frameSizeBytes > 0
      reads this
    {
      && framesQueued == |pushed| && pushed == Tagged(key, Cut(s, frameSizeBytes))
      && frameBufferOffset == |Rest(s, frameSizeBytes)|
      && (frameBufferOffset > 0 ==> |frameBuffer| == frameSizeBytes && frameBuffer[..frameBufferOffset] == Rest(s, frameSizeBytes))
      && (frameBuffer != [] ==> |frameBuffer| == frameSizeBytes)
    }

    constructor (name: string, frameSize: nat, maxBytes: nat)
      requires frameSize > 0
      ensures Valid() && key == name && frameSizeBytes == frameSize && maxArraySizeBytes == maxBytes
      ensures accepted == [] && pushed == [] && frameBuffer == []
    {
      key, frameSizeBytes, maxArraySizeBytes := name, frameSize, maxBytes;
      frameBuffer, frameBufferOffset, framesQueued, bytesWritten := [], 0, 0, 0;
      pushed, accepted := [], [];
    }

    /** What entered the queue since then are the frames pushed since then; and nothing that left came back. */
    ghost predicate Added(queue: FrameQueue, since: Mark)
      reads this`pushed, queue`entered, queue`left
    {
      && |since.pushed| <= |pushed| && pushed[..|since.pushed|] == since.pushed
      && queue.entered == since.entered + pushed[|since.pushed|..] && since.left <= |queue.left|
    }

    /** The next frame: pushed with its id, once there is room. */
    method Enqueue(queue: FrameQueue, frame: seq<Byte>, ghost frames: seq<seq<Byte>>, ghost since: Mark)
      requires queue.Valid() && Linked(queue) && Added(queue, since)
      requires framesQueued == |frames| && pushed == Tagged(key, frames)
      modifies this`pushed, this`framesQueued, queue, queue.buffer
      ensures queue.Valid() && Linked(queue) && Added(queue, since)
      ensures framesQueued == |frames| + 1 && pushed == Tagged(key, frames + [frame])
    {
      ghost var item := Item(key, frame, framesQueued);
      OfKeySnoc(queue.entered, item, key);
      TaggedNext(key, frames, frame);
      PushWhenRoom(queue, frame, key, framesQueued);
      assert pushed[|since.pushed|..] + [item] == (pushed + [item])[|since.pushed|..];
      pushed := pushed + [item];
      framesQueued := framesQueued + 1;
    }

    /** One call, while the consumer runs; what enters the queue is this array's new frames. */
    method Append(queue: FrameQueue, input: seq<Byte>) returns (status: Status, bytesOut: nat)
      requires Valid() && queue.Valid() && Linked(queue)
      modifies this, queue, queue.buffer
      ensures Valid() && queue.Valid() && Linked(queue)
      ensures Added(queue, Mark(old(queue.entered), |old(queue.left)|, old(pushed)))
      ensures if input == [] then status == Success && bytesOut == 0 && unchanged(this) && unchanged(queue)
              else if maxArraySizeBytes > 0 && old(bytesWritten) + |input| > maxArraySizeBytes then
                status == WriteOutOfBounds && bytesOut == 0 && unchanged(this) && unchanged(queue)
              else status == Success && bytesOut == |input| && accepted == old(accepted) + input
    {
      bytesOut := 0;
      if |input| == 0 {
        return Success, 0;
      }
      if maxArraySizeBytes > 0 && bytesWritten + |input| > maxArraySizeBytes {
        return WriteOutOfBounds, 0;
      }
      ghost var since := Mark(queue.entered, |queue.left|, pushed);
      var data := 0; // offset of the program's `data` pointer in the input
      assert accepted + input[..0] == accepted;
      while bytesOut < |input|
        invariant Taken(queue, input, bytesOut, since)
        invariant bytesOut < |input| ==> data == bytesOut && (frameBufferOffset > 0 ==> bytesOut == 0)
        invariant accepted == old(accepted) && bytesWritten == old(bytesWritten)
      {
        bytesOut, data := TakePiece(queue, input, bytesOut, data, since);
      }
      bytesWritten := bytesWritten + bytesOut;
      assert input[..bytesOut] == input;
      accepted := accepted + input;
      status := Success;
    }

    /** The input up to `at` has been taken, and each complete frame of it is queued. */
    ghost predicate Taken(queue: FrameQueue, input: seq<Byte>, at: nat, since: Mark)
      requires frameSizeBytes > 0
      reads this, queue, queue.buffer
    {
      at <= |input| && Holds(accepted + input[..at]) && queue.Valid() && Linked(queue) && Added(queue, since)
    }

    /** One turn of the loop: to the end of the input or of a frame. */
    method TakePiece(queue: FrameQueue, input: seq<Byte>, bytesOut: nat, data: nat, ghost since: Mark)
      returns (bytesOut': nat, data': nat)
      requires frameSizeBytes > 0 && bytesOut < |input| && Taken(queue, input, bytesOut, since)
      requires data == bytesOut && (frameBufferOffset > 0 ==> bytesOut == 0)
      modifies this`frameBuffer, this`frameBufferOffset, this`pushed, this`framesQueued, queue, queue.buffer
      ensures bytesOut < bytesOut' && Taken(queue, input, bytesOut', since)
      ensures bytesOut' < |input| ==> data' == bytesOut' && frameBufferOffset == 0
    {
      var bytesRemaining := |input| - bytesOut;
      data' := data;
      if frameBufferOffset > 0 {
        var bytesToCopy := if frameSizeBytes - frameBufferOffset < bytesRemaining then frameSizeBytes - frameBufferOffset
                           else bytesRemaining;
        data' := HeldFrame(queue, input, data, bytesToCopy, since);
        bytesOut' := bytesOut + bytesToCopy;
      } else if bytesRemaining < frameSizeBytes {
        BeginFrame(input, bytesOut, data, bytesRemaining);
        bytesOut' := bytesOut + bytesRemaining;
      } else {
        WholeFrame(queue, input, bytesOut, data, since);
        bytesOut' := bytesOut + frameSizeBytes;
        data' := data + frameSizeBytes;
      }
    }

    /** More of the frame held from before, and the frame itself once it is complete. */
    method HeldFrame(queue: FrameQueue, input: seq<Byte>, data: nat, bytesToCopy: nat, ghost since: Mark)
      returns (data': nat)
      requires frameSizeBytes > 0 && data == 0 < frameBufferOffset && Taken(queue, input, 0, since)
      requires bytesToCopy <= |input| && frameBufferOffset + bytesToCopy <= frameSizeBytes
      modifies this`frameBuffer, this`frameBufferOffset, this`pushed, this`framesQueued, queue, queue.buffer
      ensures Taken(queue, input, bytesToCopy, since)
      ensures old(frameBufferOffset) + bytesToCopy == frameSizeBytes ==> data' == bytesToCopy && frameBufferOffset == 0
    {
      ghost var frames := Cut(accepted + input[..0], frameSizeBytes);
      ContinueFrame(input, 0, data, bytesToCopy);
      data' := data;
      if frameBufferOffset == frameSizeBytes {
        Enqueue(queue, frameBuffer, frames, since);
        data' := data + bytesToCopy;
        frameBufferOffset := 0;
      }
    }

    /** A frame straight from the input. */
    method WholeFrame(queue: FrameQueue, input: seq<Byte>, bytesOut: nat, data: nat, ghost since: Mark)
      requires frameSizeBytes > 0 && data == bytesOut && bytesOut + frameSizeBytes <= |input| && frameBufferOffset == 0
      requires Taken(queue, input, bytesOut, since)
      modifies this`pushed, this`framesQueued, queue, queue.buffer
      ensures Taken(queue, input, bytesOut + frameSizeBytes, since)
    {
      Extended(accepted, input, bytesOut, frameSizeBytes, frameSizeBytes);
      Enqueue(queue, input[data..data + frameSizeBytes], Cut(accepted + input[..bytesOut], frameSizeBytes), since);
    }

    /** Adds to the frame held from before. */
    method ContinueFrame(input: seq<Byte>, bytesOut: nat, data: nat, bytesToCopy: nat)
      requires frameSizeBytes > 0 && bytesOut == data == 0 && 0 < frameBufferOffset
      requires bytesToCopy <= |input| && frameBufferOffset + bytesToCopy <= frameSizeBytes
      requires Holds(accepted + input[..bytesOut])
      modifies this`frameBuffer, this`frameBufferOffset
      ensures frameBufferOffset == old(frameBufferOffset) + bytesToCopy && |frameBuffer| == frameSizeBytes
      ensures frameBufferOffset < frameSizeBytes ==> Holds(accepted + input[..bytesToCopy])
      ensures frameBufferOffset == frameSizeBytes ==>
                Cut(accepted + input[..bytesToCopy], frameSizeBytes) == Cut(accepted + input[..bytesOut], frameSizeBytes) + [frameBuffer]
                && Rest(accepted + input[..bytesToCopy], frameSizeBytes) == []
    {
      assert accepted + input[..0] == accepted;
      CutMore(accepted, input[..bytesToCopy], frameSizeBytes);
      ghost var held := frameBuffer[..frameBufferOffset];
      frameBuffer := frameBuffer[..frameBufferOffset] + input[data + bytesOut..data + bytesOut + bytesToCopy]
                     + frameBuffer[frameBufferOffset + bytesToCopy..];
      frameBufferOffset := frameBufferOffset + bytesToCopy;
      assert frameBuffer[..frameBufferOffset] == held + input[..bytesToCopy];
      assert frameBuffer[..|frameBuffer|] == frameBuffer;
    }

    /** Holds back a piece that is less than a frame. */
    method BeginFrame(input: seq<Byte>, bytesOut: nat, data: nat, bytesRemaining: nat)
      requires frameSizeBytes > 0 && data == bytesOut && bytesOut + bytesRemaining == |input|
      requires 0 < bytesRemaining < frameSizeBytes && frameBufferOffset == 0
      requires Holds(accepted + input[..bytesOut])
      modifies this`frameBuffer, this`frameBufferOffset
      ensures Holds(accepted + input[..|input|]) && frameBufferOffset == bytesRemaining
    {
      Extended(accepted, input, bytesOut, bytesRemaining, frameSizeBytes);
      if |frameBuffer| == 0 {
        frameBuffer := Zeros(frameSizeBytes);
      }
      frameBuffer := input[data..data + bytesRemaining] + frameBuffer[bytesRemaining..];
      frameBufferOffset := bytesRemaining;
      assert frameBuffer[..frameBufferOffset] == input[data..data + bytesRemaining];
    }
  }

  /** Pushes, and waits as long as that fails. */
  method PushWhenRoom(queue: FrameQueue, frame: seq<Byte>, key: string, frameId: nat)
    requires queue.Valid()
    modifies queue, queue.buffer
    ensures queue.Valid() && queue.entered == old(queue.entered) + [Item(key, frame, frameId)]
    ensures |old(queue.left)| <= |queue.left|
  {
    ConsumerTakes(queue, false);
    var ok := queue.Push(frame, key, frameId);
    while !ok
      invariant queue.Valid() && queue.entered == old(queue.entered) + if ok then [Item(key, frame, frameId)] else []
      invariant |old(queue.left)| <= |queue.left| && (!ok ==> queue.Contents() != [])
      decreases if ok then 0 else 1 + |queue.Contents()|
    {
      ConsumerTakes(queue, true);
      ok := queue.Push(frame, key, frameId);
    }
  }

  /** Meanwhile: the consumer takes any number of frames, at least one if the producer waits for it. */
  method ConsumerTakes(queue: FrameQueue, waiting: bool)
    requires queue.Valid() && (waiting ==> queue.Contents() != [])
    modifies queue`readPos, queue`left, queue.buffer
    ensures queue.Valid() && queue.entered == old(queue.entered) && |old(queue.left)| <= |queue.left|
    ensures |queue.Contents()| <= |old(queue.Contents())| - if waiting then 1 else 0
  {
    if waiting {
      var ok, item := queue.Pop([]);
    }
    ghost var most := |queue.Contents()|;
    var more: bool := *;
    while more
      invariant queue.Valid() && queue.entered == old(queue.entered) && |queue.Contents()| <= most
      invariant |old(queue.left)| <= |queue.left|
      decreases |queue.Contents()|, more
    {
      var ok, item := queue.Pop([]);
      more := *;
      more := more && ok;
    }
  }

  /** The next piece of the input, from a frame boundary. */
  lemma Extended(accepted: seq<Byte>, input: seq<Byte>, at: nat, k: nat, n: nat)
    requires n > 0 && k <= n && at + k <= |input| && Rest(accepted + input[..at], n) == []
    ensures k < n ==> Cut(accepted + input[..at + k], n) == Cut(accepted + input[..at], n)
                      && Rest(accepted + input[..at + k], n) == input[at..at + k]
    ensures k == n ==> Cut(accepted + input[..at + k], n) == Cut(accepted + input[..at], n) + [input[at..at + k]]
                       && Rest(accepted + input[..at + k], n) == []
  {
    CutMore(accepted + input[..at], input[at..at + k], n);
    assert accepted + input[..at] + input[at..at + k] == accepted + input[..at + k];
    assert [] + input[at..at + k] == input[at..at + k];
  }

  /** How the bytes are split over calls does not matter: the state is a function of the bytes accepted. */
  lemma SplitInvariant(a: Output, b: Output)
    requires a.Valid() && b.Valid() && a.key == b.key && a.frameSizeBytes == b.frameSizeBytes && a.accepted == b.accepted
    ensures a.pushed == b.pushed && a.framesQueued == b.framesQueued && a.bytesWritten == b.bytesWritten
    ensures a.frameBufferOffset == b.frameBufferOffset
    ensures a.frameBufferOffset > 0 ==> a.frameBuffer[..a.frameBufferOffset] == b.frameBuffer[..b.frameBufferOffset]
    ensures Concat(Datas(a.pushed)) + Rest(a.accepted, a.frameSizeBytes) == a.accepted
  {
    CutIsAll(a.accepted, a.frameSizeBytes);
    assert Datas(a.pushed) == Cut(a.accepted, a.frameSizeBytes);
  }

  /** Every queued frame is the array's, is a whole frame, has its place as id, and is within the array's size. */
  lemma QueuedFrames(o: Output, i: nat)
    requires o.Valid() && i < |o.pushed|
    ensures o.pushed[i].key == o.key && |o.pushed[i].data| == o.frameSizeBytes && o.pushed[i].frameId == i
    ensures o.maxArraySizeBytes > 0 ==> (i + 1) * o.frameSizeBytes <= o.maxArraySizeBytes
  {
    CutIsAll(o.accepted, o.frameSizeBytes);
    CutFits(o.accepted, o.frameSizeBytes);
    MulMono(i + 1, |o.pushed|, o.frameSizeBytes);
  }
}
