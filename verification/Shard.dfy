/**
 One shard file (src/streaming/shard.cpp): the fields the program keeps, each critical section
 as a function on them, and the class whose methods run those sections in place.
 */
module Shard {
  import opened Bytes
  import opened ShardFormat

  datatype Fields = Fields(
    offsets: seq<nat>,
    extents: seq<nat>,
    unwritten: nat,
    fileOffset: nat,
    tableFlushed: bool,
    finalized: bool,
    finalizeOk: bool,
    sinkOpen: bool,
    file: seq<Byte>)

  /** What the sink does with a write: store it, or fail and leave some bytes inside the range. */
  datatype Io = Landed | Lost(junk: seq<Byte>)

  function SinkWrite(file: seq<Byte>, offset: nat, data: seq<Byte>, io: Io): seq<Byte> {
    match io
    case Landed => WriteAt(file, offset, data)
    case Lost(junk) => WriteAt(file, offset, if |junk| <= |data| then junk else junk[..|data|])
  }

  function Fresh(n: nat): Fields {
    Fields(seq(n, i => EMPTY), seq(n, i => EMPTY), n, 0, false, false, false, true, [])
  }

  function StoreExtent(f: Fields, i: nat, size: nat): Fields
    requires i < |f.extents|
  {
    f.(extents := f.extents[i := size])
  }

  function ClaimOffset(f: Fields, i: nat, size: nat): Fields
    requires i < |f.offsets|
  {
    f.(offsets := f.offsets[i := f.fileOffset], fileOffset := f.fileOffset + size)
  }

  function StoreSkip(f: Fields, i: nat): Fields
    requires i < |f.offsets| && i < |f.extents|
  {
    f.(offsets := f.offsets[i := EMPTY], extents := f.extents[i := EMPTY])
  }

  function CountDown(f: Fields): Fields
    requires f.unwritten > 0
  {
    f.(unwritten := f.unwritten - 1)
  }

  /** The body of finalize_unlocked_, given the table and what the sink answers to its write and to the flush. */
  function Finalize(f: Fields, table: seq<Byte>, io: Io, flushOk: bool): Fields {
    if f.finalized then f
    else
      var needed := !f.tableFlushed;
      var flushed := f.tableFlushed || io.Landed?;
      f.(file := if needed then SinkWrite(f.file, f.fileOffset, table, io) else f.file,
         tableFlushed := flushed,
         finalized := true,
         sinkOpen := f.sinkOpen && !flushOk,
         finalizeOk := flushed && flushOk)
  }

  /** What a landed write of the table leaves from its offset on. */
  lemma LandedTable(before: seq<Byte>, at: nat, offsets: seq<nat>, extents: seq<nat>, crc: Checksum)
    requires |offsets| == |extents|
    ensures var file, n := SinkWrite(before, at, EncodeTable(offsets, extents, crc), Landed), |offsets|;
            && |file| >= at + 16 * n + 4 && (|before| <= at ==> |file| == at + 16 * n + 4)
            && IsIndex(file[at..at + 16 * n + 4], offsets, extents, crc)
  {
    TableIsIndex(offsets, extents, crc);
  }

  /** What a call gives its caller: an answer, or an exception from a failed check. */
  datatype Reply = Answered(ok: bool) | Threw

  class Shard {
    var offsets: seq<nat>
    var extents: seq<nat>
    var unwritten: nat
    var fileOffset: nat
    var tableFlushed: bool
    var finalized: bool
    var finalizeOk: bool
    var sinkOpen: bool
    var file: seq<Byte>
    const crc: Checksum

    function State(): Fields
      reads this
    {
      Fields(offsets, extents, unwritten, fileOffset, tableFlushed, finalized, finalizeOk, sinkOpen, file)
    }

    constructor (chunksPerShard: nat, checksum: Checksum)
      ensures State() == Fresh(chunksPerShard) && crc == checksum
    {
      offsets, extents := seq(chunksPerShard, i => EMPTY), seq(chunksPerShard, i => EMPTY);
      unwritten, fileOffset := chunksPerShard, 0;
      tableFlushed, finalized, finalizeOk, sinkOpen := false, false, false, true;
      file := [];
      crc := checksum;
    }

    /** The loop that lays the pairs out, and the checksum behind them. */
    method WriteTable(io: Io) returns (ok: bool)
      requires |offsets| == |extents|
      modifies this`tableFlushed, this`file
      ensures file == SinkWrite(old(file), fileOffset, EncodeTable(offsets, extents, crc), io)
      ensures tableFlushed == ok == io.Landed?
    {
      var parts: seq<seq<Byte>> := [];
      for i := 0 to |offsets|
        invariant |parts| == i
        invariant forall k :: 0 <= k < i ==> parts[k] == EncodePair(offsets[k], extents[k])
      {
        parts := parts + [EncodePair(offsets[i], extents[i])];
      }
      assert parts == Pairs(offsets, extents);
      var pairs := Join(parts);
      var table := pairs + ToLittleEndian(crc(pairs) % Pow256(SUM), SUM);
      file := SinkWrite(file, fileOffset, table, io);
      tableFlushed := io.Landed?;
      ok := tableFlushed;
    }

    method FinalizeUnlocked(table: Io, flushOk: bool) returns (ok: bool)
      requires |offsets| == |extents|
      modifies this
      ensures |offsets| == |extents|
      ensures State() == Finalize(old(State()), EncodeTable(offsets, extents, crc), table, flushOk)
      ensures ok == finalizeOk
    {
      if finalized {
        return finalizeOk;
      }
      finalized := true;
      ok := true;
      if !tableFlushed {
        var written := WriteTable(table);
        if !written {
          ok := false;
        }
      }
      if flushOk {
        sinkOpen := false;
      } else {
        ok := false;
      }
      finalizeOk := ok;
    }

    /** First attempt: store the extent, then claim the next free offset. */
    method ClaimNext(i: nat, size: nat)
      requires i < |offsets| == |extents|
      modifies this`offsets, this`extents, this`fileOffset
      ensures State() == ClaimOffset(StoreExtent(old(State()), i, size), i, size)
    {
      extents := extents[i := size];
      offsets := offsets[i := fileOffset];
      fileOffset := fileOffset + size;
    }

    /** The shared tail of both calls: the last one to count down publishes; the check fails if there is none to count. */
    method CountAndPublish(table: Io, flushOk: bool) returns (r: Reply)
      requires |offsets| == |extents|
      modifies this
      ensures offsets == old(offsets) && extents == old(extents)
      ensures old(unwritten) == 0 ==> State() == old(State()) && r == Threw
      ensures old(unwritten) > 1 ==> State() == CountDown(old(State())) && r == Answered(true)
      ensures old(unwritten) == 1 ==>
                State() == Finalize(CountDown(old(State())), EncodeTable(offsets, extents, crc), table, flushOk)
                && r == Answered(finalizeOk)
    {
      if unwritten == 0 {
        return Threw;
      }
      unwritten := unwritten - 1;
      var ok := true;
      if unwritten == 0 {
        ok := FinalizeUnlocked(table, flushOk);
      }
      r := Answered(ok);
    }

    /** One call of write_chunk with nobody else on the shard. */
    method WriteChunk(i: nat, buffer: seq<Byte>, io: Io, table: Io, flushOk: bool) returns (r: Reply)
      requires |offsets| == |extents|
      modifies this
      ensures |offsets| == |extents|
      ensures i >= |old(offsets)| ==> State() == old(State()) && r == Threw
      ensures i < |old(offsets)| && old(finalized) ==> State() == old(State()) && r == Answered(finalizeOk)
      ensures i < |old(offsets)| && !old(finalized) && old(offsets)[i] < EMPTY && old(extents)[i] != |buffer| ==>
                State() == old(State()) && r == Threw
      ensures i < |old(offsets)| && !old(finalized) && (old(offsets)[i] < EMPTY ==> old(extents)[i] == |buffer|) ==>
                var claimed := if old(offsets)[i] < EMPTY then old(State())
                               else ClaimOffset(StoreExtent(old(State()), i, |buffer|), i, |buffer|);
                var written := claimed.(file := SinkWrite(claimed.file, claimed.offsets[i], buffer, io));
                && (io.Lost? ==> State() == written && r == Answered(false))
                && (io.Landed? && old(unwritten) == 0 ==> State() == written && r == Threw)
                && (io.Landed? && old(unwritten) > 1 ==> State() == CountDown(written) && r == Answered(true))
                && (io.Landed? && old(unwritten) == 1 ==>
                      State() == Finalize(CountDown(written), EncodeTable(offsets, extents, crc), table, flushOk)
                      && r == Answered(finalizeOk))
    {
      if i >= |offsets| {
        return Threw;
      }
      if finalized {
        return Answered(finalizeOk);
      }
      if offsets[i] < EMPTY {
        if extents[i] != |buffer| {
          return Threw;
        }
      } else {
        ClaimNext(i, |buffer|);
      }
      file := SinkWrite(file, offsets[i], buffer, io);
      if io.Lost? {
        return Answered(false);
      }
      r := CountAndPublish(table, flushOk);
    }

    method SkipChunk(i: nat, table: Io, flushOk: bool) returns (r: Reply)
      requires i < |offsets| == |extents|
      modifies this
      ensures |offsets| == |extents|
      ensures old(finalized) ==> State() == old(State()) && r == Answered(finalizeOk)
      ensures !old(finalized) && old(unwritten) == 0 ==> State() == StoreSkip(old(State()), i) && r == Threw
      ensures !old(finalized) && old(unwritten) > 1 ==> State() == CountDown(StoreSkip(old(State()), i)) && r == Answered(true)
      ensures !old(finalized) && old(unwritten) == 1 ==>
                State() == Finalize(CountDown(StoreSkip(old(State()), i)), EncodeTable(offsets, extents, crc), table, flushOk)
                && r == Answered(finalizeOk)
    {
      if finalized {
        return Answered(finalizeOk);
      }
      offsets := offsets[i := EMPTY];
      extents := extents[i := EMPTY];
      r := CountAndPublish(table, flushOk);
    }
  }
}
