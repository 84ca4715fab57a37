/**
 The binary shard format of the Zarr v3 `sharding_indexed` codec, index at the end: one
 (offset, nbytes) pair of little-endian 64-bit numbers per inner chunk, both 2^64 - 1 for an
 empty one, then a 32-bit checksum.
 */
module ShardFormat {
  import opened Bytes
  import opened Wrappers

  const EMPTY: nat := 0xFFFF_FFFF_FFFF_FFFF

  /** Bytes of an index word, and of the checksum. */
  const WORD: nat := 8
  const SUM: nat := 4

  type Checksum = seq<Byte> -> nat

  datatype Entry = Entry(offset: nat, nbytes: nat)

  function EncodePair(offset: nat, nbytes: nat): (p: seq<Byte>)
    ensures |p| == 16
  {
    ToLittleEndian(offset, WORD) + ToLittleEndian(nbytes, WORD)
  }

  function Pairs(offsets: seq<nat>, extents: seq<nat>): (parts: seq<seq<Byte>>)
    requires |offsets| == |extents|
    ensures |parts| == |offsets|
    ensures forall i :: 0 <= i < |parts| ==> parts[i] == EncodePair(offsets[i], extents[i])
  {
    seq(|offsets|, i requires 0 <= i < |offsets| => EncodePair(offsets[i], extents[i]))
  }

  function EncodePairs(offsets: seq<nat>, extents: seq<nat>): (t: seq<Byte>)
    requires |offsets| == |extents|
    ensures |t| == 16 * |offsets|
  {
    Join(Pairs(offsets, extents))
  }

  /** Sixteen-byte records one after the other. */
  function Join(parts: seq<seq<Byte>>): (t: seq<Byte>)
    requires forall p | p in parts :: |p| == 16
    ensures |t| == 16 * |parts|
  {
    if parts == [] then [] else Join(parts[..|parts| - 1]) + parts[|parts| - 1]
  }

  lemma {:induction false} PartAt(parts: seq<seq<Byte>>, i: nat)
    requires forall p | p in parts :: |p| == 16
    requires i < |parts|
    ensures Join(parts)[16 * i..16 * i + 16] == parts[i]
  {
    var m := |parts| - 1;
    if i < m {
      PartAt(parts[..m], i);
      SliceOfPrefix(Join(parts[..m]), parts[m], 16 * i, 16 * i + 16);
    }
  }

  function EncodeTable(offsets: seq<nat>, extents: seq<nat>, crc: Checksum): (t: seq<Byte>)
    requires |offsets| == |extents|
    ensures |t| == 16 * |offsets| + 4
  {
    EncodePairs(offsets, extents) + ToLittleEndian(crc(EncodePairs(offsets, extents)) % Pow256(SUM), SUM)
  }

  /** What a reader finds at index `i` of a shard file of `n` inner chunks. */
  function ReadEntry(file: seq<Byte>, n: nat, i: nat): Entry
    requires |file| >= 16 * n + 4 && i < n
  {
    var at := |file| - (16 * n + 4) + 16 * i;
    Entry(FromLittleEndian(file[at..at + 8]), FromLittleEndian(file[at + 8..at + 16]))
  }

  /** The stored bytes of inner chunk `i`, or `None` for an empty one. */
  function ReadChunk(file: seq<Byte>, n: nat, i: nat): Option<seq<Byte>>
    requires |file| >= 16 * n + 4 && i < n
  {
    var e := ReadEntry(file, n, i);
    if e.offset == EMPTY && e.nbytes == EMPTY then None
    else if e.offset + e.nbytes <= |file| then Some(file[e.offset..e.offset + e.nbytes])
    else None
  }

  lemma Pow256Of8()
    ensures Pow256(WORD) == EMPTY + 1
  {
    assert Pow256(4) == 0x1_0000_0000 by {
      assert Pow256(2) == 0x1_0000;
    }
    assert Pow256(6) == 0x1_0000_0000_0000;
  }

  /** The table written at the end of a file is what a reader finds. */
  lemma TableRoundTrip(file: seq<Byte>, offsets: seq<nat>, extents: seq<nat>, crc: Checksum, i: nat)
    requires |offsets| == |extents| && i < |offsets|
    requires offsets[i] <= EMPTY && extents[i] <= EMPTY
    requires |file| >= 16 * |offsets| + 4
    requires file[|file| - (16 * |offsets| + 4)..] == EncodeTable(offsets, extents, crc)
    ensures ReadEntry(file, |offsets|, i) == Entry(offsets[i], extents[i])
  {
    var n := |offsets|;
    var start := |file| - (16 * n + 4);
    var joined := EncodePairs(offsets, extents);
    assert file[start..][..|joined|] == joined;
    PairInFile(file, start, joined, Pairs(offsets, extents), i);
    var at := |file| - (16 * n + 4) + 16 * i;
    assert file[at..at + 16] == EncodePair(offsets[i], extents[i]);
    PairRoundTrip(file, at, offsets[i], extents[i]);
    assert ReadEntry(file, n, i).offset == offsets[i];
  }

  /** A reader's test of the index at the end of a shard file of `n` inner chunks. */
  predicate ChecksumHolds(file: seq<Byte>, n: nat, crc: Checksum) {
    && |file| >= 16 * n + 4
    && FromLittleEndian(file[|file| - 4..]) == crc(file[|file| - (16 * n + 4)..|file| - 4]) % 0x1_0000_0000
  }

  /** Offsets and sizes in 8 bytes each, least significant first, and the checksum of all of them in 4. */
  ghost predicate IsIndex(t: seq<Byte>, offsets: seq<nat>, extents: seq<nat>, crc: Checksum)
    requires |offsets| == |extents|
  {
    && |t| == 16 * |offsets| + 4 && ChecksumHolds(t, |offsets|, crc)
    && forall i, k :: 0 <= i < |offsets| && 0 <= k < 8 ==>
         t[16 * i + k] == ByteOf(offsets[i], k) && t[16 * i + 8 + k] == ByteOf(extents[i], k)
  }

  /** The bytes of a table. */
  lemma TableIsIndex(offsets: seq<nat>, extents: seq<nat>, crc: Checksum)
    requires |offsets| == |extents|
    ensures IsIndex(EncodeTable(offsets, extents, crc), offsets, extents, crc)
  {
    var t, n, pairs := EncodeTable(offsets, extents, crc), |offsets|, EncodePairs(offsets, extents);
    assert t[0..16 * n] == t[..16 * n] == pairs && Pow256(2) == 0x1_0000 && Pow256(SUM) == 0x1_0000_0000;
    LittleEndianRoundTrip(crc(pairs) % Pow256(SUM), SUM);
    assert t[16 * n..] == ToLittleEndian(crc(pairs) % Pow256(SUM), SUM);
    forall i, k | 0 <= i < n && 0 <= k < 8
      ensures t[16 * i + k] == ByteOf(offsets[i], k) && t[16 * i + 8 + k] == ByteOf(extents[i], k)
    {
      PairBytes(t, offsets, extents, i, k);
    }
  }

  lemma ChecksumAtEnd(file: seq<Byte>, at: nat, n: nat, crc: Checksum)
    requires |file| == at + 16 * n + 4 && ChecksumHolds(file[at..], n, crc)
    ensures ChecksumHolds(file, n, crc)
  {
    var t := file[at..];
    assert t[|t| - 4..] == file[|file| - 4..];
    assert t[|t| - (16 * n + 4)..|t| - 4] == file[|file| - (16 * n + 4)..|file| - 4];
  }

  lemma PairBytes(t: seq<Byte>, offsets: seq<nat>, extents: seq<nat>, i: nat, k: nat)
    requires |offsets| == |extents| && i < |offsets| && k < 8 && |t| >= 16 * |offsets|
    requires t[..16 * |offsets|] == EncodePairs(offsets, extents)
    ensures t[16 * i + k] == ByteOf(offsets[i], k) && t[16 * i + 8 + k] == ByteOf(extents[i], k)
  {
    PairStands(t, offsets, extents, i);
    PairAt(t, 16 * i, offsets[i], extents[i], k);
  }

  lemma PairStands(t: seq<Byte>, offsets: seq<nat>, extents: seq<nat>, i: nat)
    requires |offsets| == |extents| && i < |offsets| && |t| >= 16 * |offsets|
    requires t[..16 * |offsets|] == EncodePairs(offsets, extents)
    ensures t[16 * i..16 * i + 16] == EncodePair(offsets[i], extents[i])
  {
    var joined := EncodePairs(offsets, extents);
    PartAt(Pairs(offsets, extents), i);
    SliceOfTake(t, |joined|, 16 * i, 16 * i + 16);
  }

  lemma PairAt(t: seq<Byte>, at: nat, offset: nat, nbytes: nat, k: nat)
    requires at + 16 <= |t| && t[at..at + 16] == EncodePair(offset, nbytes) && k < 8
    ensures t[at + k] == ByteOf(offset, k) && t[at + 8 + k] == ByteOf(nbytes, k)
  {
    var a, b := ToLittleEndian(offset, WORD), ToLittleEndian(nbytes, WORD);
    LittleEndianAt(offset, WORD, k);
    LittleEndianAt(nbytes, WORD, k);
    assert t[at..at + 16][k] == t[at + k] && t[at..at + 16][8 + k] == t[at + 8 + k];
    assert (a + b)[k] == a[k] && (a + b)[8 + k] == b[k];
  }

  lemma PairInFile(file: seq<Byte>, start: nat, joined: seq<Byte>, parts: seq<seq<Byte>>, i: nat)
    requires forall p | p in parts :: |p| == 16
    requires i < |parts| && joined == Join(parts) && start + |joined| <= |file|
    requires file[start..][..|joined|] == joined
    ensures file[start + 16 * i..start + 16 * i + 16] == parts[i]
  {
    var lo := 16 * i;
    PartAt(parts, i);
    SliceOfTake(file[start..], |joined|, lo, lo + 16);
    SliceOfSlice(file, start, lo, lo + 16);
  }

  lemma PairRoundTrip(file: seq<Byte>, at: nat, offset: nat, nbytes: nat)
    requires at + 16 <= |file| && file[at..at + 16] == EncodePair(offset, nbytes)
    requires offset <= EMPTY && nbytes <= EMPTY
    ensures FromLittleEndian(file[at..at + 8]) == offset
    ensures FromLittleEndian(file[at + 8..at + 16]) == nbytes
  {
    Pow256Of8();
    assert file[at..at + 8] == file[at..at + 16][..8];
    assert file[at + 8..at + 16] == file[at..at + 16][8..];
    LittleEndianRoundTrip(offset, WORD);
    LittleEndianRoundTrip(nbytes, WORD);
  }
}

/** Bytes, little-endian numbers and files written at offsets. */
module Bytes {
  import Arith

  type Byte = b: int | 0 <= b < 256

  function Pow256(n: nat): (p: nat)
    ensures p > 0
  {
    if n == 0 then 1 else 256 * Pow256(n - 1)
  }

  /** `v` in `n` bytes, least significant first. */
  function ToLittleEndian(v: nat, n: nat): (s: seq<Byte>)
    ensures |s| == n
    decreases n
  {
    if n == 0 then [] else [v % 256] + ToLittleEndian(v / 256, n - 1)
  }

  function FromLittleEndian(s: seq<Byte>): nat {
    if s == [] then 0 else s[0] + 256 * FromLittleEndian(s[1..])
  }

  lemma {:induction false} LittleEndianRoundTrip(v: nat, n: nat)
    requires v < Pow256(n)
    ensures FromLittleEndian(ToLittleEndian(v, n)) == v
    decreases n
  {
    if n > 0 {
      LittleEndianRoundTrip(v / 256, n - 1);
    }
  }

  /** Digit `k` of a number in base 256. */
  function ByteOf(v: nat, k: nat): Byte {
    v / Pow256(k) % 256
  }

  lemma {:induction false} LittleEndianAt(v: nat, n: nat, k: nat)
    requires k < n
    ensures ToLittleEndian(v, n)[k] == ByteOf(v, k)
    decreases n
  {
    if k > 0 {
      LittleEndianAt(v / 256, n - 1, k - 1);
      Arith.DivDiv(v, 256, Pow256(k - 1));
    }
  }

  predicate AllZero(s: seq<Byte>) {
    forall i :: 0 <= i < |s| ==> s[i] == 0
  }

  function Zeros(n: nat): (s: seq<Byte>)
    ensures |s| == n && AllZero(s)
  {
    seq(n, i => 0)
  }

  /** A positioned write; a gap before the offset reads as zeros. */
  function WriteAt(file: seq<Byte>, offset: nat, data: seq<Byte>): (f: seq<Byte>)
    ensures data == [] ==> f == file
    ensures data != [] ==> |f| == if |file| < offset + |data| then offset + |data| else |file|
    ensures data != [] ==> f[offset..offset + |data|] == data
    ensures forall i :: 0 <= i < |file| && (i < offset || i >= offset + |data|) ==> i < |f| && f[i] == file[i]
  {
    if data == [] then file
    else
      var padded := if |file| < offset then file + Zeros(offset - |file|) else file;
      padded[..offset] + data + (if offset + |data| < |file| then file[offset + |data|..] else [])
  }

  /** A write elsewhere leaves a stored range alone. */
  lemma WriteElsewhere(file: seq<Byte>, offset: nat, data: seq<Byte>, lo: nat, hi: nat)
    requires lo <= hi <= |file|
    requires hi <= offset || offset + |data| <= lo
    ensures hi <= |WriteAt(file, offset, data)|
    ensures WriteAt(file, offset, data)[lo..hi] == file[lo..hi]
  {
  }

  lemma SliceOfPrefix<T>(a: seq<T>, b: seq<T>, lo: nat, hi: nat)
    requires lo <= hi <= |a|
    ensures (a + b)[lo..hi] == a[lo..hi]
  {
  }

  lemma SliceOfSlice<T>(s: seq<T>, from: nat, lo: nat, hi: nat)
    requires from <= |s| && lo <= hi <= |s| - from
    ensures s[from..][lo..hi] == s[from + lo..from + hi]
  {
  }

  lemma SliceOfTake<T>(s: seq<T>, m: nat, lo: nat, hi: nat)
    requires lo <= hi <= m <= |s|
    ensures s[..m][lo..hi] == s[lo..hi]
  {
  }
}
