/**
 Every interleaving of the chunk jobs of one shard: threads that run write_chunk or skip_chunk (src/streaming/shard.cpp)
 inside the retry loop of dispatch_chunk_job_ (src/streaming/array.cpp).  A step is a critical section, an atomic or a sink call.
 */
module ShardMachine {
  import opened Bytes
  import opened ShardFormat
  import opened Wrappers
  import opened Permutation
  import opened Shard

  /** How the offset and extent tables become bytes. */
  type TableCodec = (seq<nat>, seq<nat>) -> seq<Byte>

  datatype Task = Put(data: seq<Byte>) | Skip

  datatype Pc =
    | Start                 // about to look at finalized_
    | Entered               // not finalized when looked at
    | Sized                 // extent stored, offset not yet claimed
    | Claimed               // about to write to the sink
    | Stored                // about to count down
    | Last                  // counted down to zero, about to finalize
    | Returned(ok: bool)

  /** A thread's program point, and how many attempts the retry loop still allows. */
  datatype Run = Run(left: nat, pc: Pc)

  datatype Extent = Extent(i: nat, offset: nat, size: nat)

  /**
   Fields, jobs and threads; then history: the extent each index claimed, the extents in the
   order they were claimed, the indices whose write landed, the indices counted down.
   */
  datatype State = State(
    f: Fields,
    tasks: map<nat, Task>,
    runs: map<nat, Run>,
    claims: map<nat, Extent>,
    layout: seq<Extent>,
    stored: set<nat>,
    counted: set<nat>,
    closed: bool)

  datatype Step =
    | Submit(i: nat, task: Task, retries: nat)
    | Check(i: nat)
    | Record(i: nat)
    | Claim(i: nat)
    | Write(i: nat, io: Io)
    | Count(i: nat)
    | Publish(i: nat, table: Io, flushOk: bool)
    | Close(table: Io, flushOk: bool)

  function Init(n: nat): State {
    State(Fresh(n), map[], map[], map[], [], {}, {}, false)
  }

  predicate At(runs: map<nat, Run>, i: nat, pc: Pc) {
    i in runs && runs[i].pc == pc
  }

  predicate IsPut(tasks: map<nat, Task>, i: nat) {
    i in tasks && tasks[i].Put?
  }

  /** Steps a thread or the closing array can take; the offsets must stay representable. */
  predicate Enabled(s: State, step: Step) {
    match step
    case Submit(i, task, retries) => i < |s.f.offsets| && i !in s.tasks && i !in s.runs && retries > 0 && !s.closed
    case Check(i) => At(s.runs, i, Start)
    case Record(i) => At(s.runs, i, Entered) && i in s.tasks && i < |s.f.offsets| && i < |s.f.extents|
    case Claim(i) => At(s.runs, i, Sized) && i < |s.f.offsets| && IsPut(s.tasks, i)
                     && s.f.fileOffset + |s.tasks[i].data| < EMPTY
    case Write(i, _) => At(s.runs, i, Claimed) && i < |s.f.offsets| && IsPut(s.tasks, i)
    case Count(i) => At(s.runs, i, Stored) && s.f.unwritten > 0
    case Publish(i, _, _) => At(s.runs, i, Last)
    case Close(_, _) => !s.closed && forall i :: i in s.runs ==> s.runs[i].pc.Returned?
  }

  function SetPc(runs: map<nat, Run>, i: nat, pc: Pc): map<nat, Run>
    requires i in runs
  {
    runs[i := runs[i].(pc := pc)]
  }

  /** The call returns to the retry loop. */
  function Return(runs: map<nat, Run>, i: nat, ok: bool): map<nat, Run>
    requires i in runs
  {
    if ok then SetPc(runs, i, Returned(true))
    else if runs[i].left > 1 then runs[i := Run(runs[i].left - 1, Start)]
    else SetPc(runs, i, Returned(false))
  }

  function Apply(s: State, step: Step, enc: TableCodec): State
    requires Enabled(s, step)
  {
    match step
    case Submit(i, task, retries) => s.(tasks := s.tasks[i := task], runs := s.runs[i := Run(retries, Start)])
    case Check(i) =>
      s.(runs := if s.f.finalized then Return(s.runs, i, s.f.finalizeOk) else SetPc(s.runs, i, Entered))
    case Record(i) =>
      (match s.tasks[i]
       case Put(data) =>
         if s.f.offsets[i] < EMPTY then s.(runs := SetPc(s.runs, i, Claimed))
         else s.(f := StoreExtent(s.f, i, |data|), runs := SetPc(s.runs, i, Sized))
       case Skip => s.(f := StoreSkip(s.f, i), runs := SetPc(s.runs, i, Stored)))
    case Claim(i) =>
      var e := Extent(i, s.f.fileOffset, |s.tasks[i].data|);
      s.(f := ClaimOffset(s.f, i, e.size), claims := s.claims[i := e], layout := s.layout + [e],
         runs := SetPc(s.runs, i, Claimed))
    case Write(i, io) =>
      var f := s.f.(file := SinkWrite(s.f.file, s.f.offsets[i], s.tasks[i].data, io));
      if io.Landed? then s.(f := f, stored := s.stored + {i}, runs := SetPc(s.runs, i, Stored))
      else s.(f := f, runs := Return(s.runs, i, false))
    case Count(i) =>
      s.(f := CountDown(s.f), counted := s.counted + {i},
         runs := SetPc(s.runs, i, if s.f.unwritten == 1 then Last else Returned(true)))
    case Publish(i, table, flushOk) =>
      var f := Finalize(s.f, enc(s.f.offsets, s.f.extents), table, flushOk);
      s.(f := f, runs := Return(s.runs, i, f.finalizeOk))
    case Close(table, flushOk) =>
      s.(f := Finalize(s.f, enc(s.f.offsets, s.f.extents), table, flushOk), closed := true)
  }

  // ----- The invariant -------------------------------------------------------------------

  ghost predicate Shape(s: State) {
    && |s.f.offsets| == |s.f.extents|
    && s.tasks.Keys == s.runs.Keys
    && (forall i :: i in s.tasks ==> i < |s.f.offsets|)
    && s.counted <= s.tasks.Keys
    && s.f.unwritten + |s.counted| == |s.f.offsets|
  }

  /** The extents lie end to end from 0 to `end`, in order. */
  ghost predicate Tiled(layout: seq<Extent>, end: nat) {
    if layout == [] then end == 0
    else
      var e := layout[|layout| - 1];
      e.offset + e.size == end && Tiled(layout[..|layout| - 1], e.offset)
  }

  predicate Apart(a: Extent, b: Extent) {
    a.offset + a.size <= b.offset || b.offset + b.size <= a.offset
  }

  /** The claims of the tasks are laid out end to end up to the file offset. */
  ghost predicate Claims(fileOffset: nat, tasks: map<nat, Task>, claims: map<nat, Extent>, layout: seq<Extent>) {
    && Tiled(layout, fileOffset) && fileOffset < EMPTY && |layout| == |claims|
    && Listed(claims, layout) && Placed(fileOffset, tasks, claims) && Disjoint(claims)
  }

  ghost predicate Listed(claims: map<nat, Extent>, layout: seq<Extent>) {
    && (forall e :: e in layout ==> e.i in claims && claims[e.i] == e)
    && (forall i :: i in claims ==> claims[i].i == i && claims[i] in layout)
  }

  ghost predicate Placed(fileOffset: nat, tasks: map<nat, Task>, claims: map<nat, Extent>) {
    forall i :: i in claims ==>
      && claims[i].offset + claims[i].size <= fileOffset
      && IsPut(tasks, i) && claims[i].size == |tasks[i].data|
  }

  ghost predicate Disjoint(claims: map<nat, Extent>) {
    forall i, j :: i in claims && j in claims && i != j ==> Apart(claims[i], claims[j])
  }

  /** The tables hold the claims, and the sentinel elsewhere. */
  ghost predicate Entries(offsets: seq<nat>, extents: seq<nat>, claims: map<nat, Extent>, runs: map<nat, Run>) {
    && |offsets| == |extents|
    && (forall i :: i in claims ==>
          i < |offsets| && offsets[i] == claims[i].offset < EMPTY && extents[i] == claims[i].size)
    && (forall i :: 0 <= i < |offsets| && i !in claims ==> offsets[i] == EMPTY)
    && (forall i :: 0 <= i < |offsets| && i !in claims && !At(runs, i, Sized) ==> extents[i] == EMPTY)
  }

  /** What a program point means. */
  ghost predicate Point(s: State, i: nat) {
    && i in s.tasks && i in s.runs
    && (s.tasks[i].Skip? ==> i !in s.claims && i !in s.stored && s.runs[i].pc != Sized && s.runs[i].pc != Claimed)
    && (i in s.counted && s.tasks[i].Put? ==> i in s.stored)
    && (i in s.stored ==> i in s.counted || s.runs[i].pc.Stored?)
    && match s.runs[i].pc
       case Start => i in s.counted ==> s.f.finalized && !s.f.finalizeOk
       case Entered => i !in s.counted && !s.f.finalized
       case Sized => i !in s.counted && !s.f.finalized && i !in s.claims
                     && i < |s.f.extents| && s.tasks[i].Put? && s.f.extents[i] == |s.tasks[i].data|
       case Claimed => i !in s.counted && !s.f.finalized && i in s.claims
       case Stored => i !in s.counted && !s.f.finalized && (s.tasks[i].Put? ==> i in s.stored)
       case Last => i in s.counted && !s.f.finalized && s.f.unwritten == 0
       case Returned(ok) =>
         if ok then i in s.counted else i in s.counted || s.tasks[i].Skip? ==> s.f.finalized && !s.f.finalizeOk
  }

  ghost predicate Points(s: State) {
    forall i :: i in s.tasks ==> Point(s, i)
  }

  ghost predicate Flags(s: State) {
    && (forall i, j :: i in s.runs && j in s.runs && s.runs[i].pc.Last? && s.runs[j].pc.Last? ==> i == j)
    && (s.f.finalized ==> s.f.unwritten == 0 || s.closed)
    && (s.closed ==> s.f.finalized && forall i :: i in s.runs ==> s.runs[i].pc.Returned?)
    && (s.f.finalized && s.f.finalizeOk ==> s.f.tableFlushed)
    && (!s.f.finalized ==> !s.f.tableFlushed)
    && (s.f.unwritten == 0 && |s.f.offsets| > 0 && !s.f.finalized ==> exists i :: i in s.runs && s.runs[i].pc.Last?)
    && (s.f.unwritten == 0 && |s.f.offsets| > 0 && s.f.finalized && !s.f.finalizeOk ==> exists i :: Failed(s, i))
  }

  /** The thread that counted down last, and could not finalize. */
  ghost predicate Failed(s: State, i: nat) {
    i in s.runs && i in s.counted && (s.runs[i].pc.Start? || s.runs[i].pc == Returned(false))
  }

  /** The chunk of index `i` is stored where its claim says. */
  ghost predicate InFile(file: seq<Byte>, e: Extent, data: seq<Byte>) {
    data != [] ==> e.offset + |data| <= |file| && file[e.offset..e.offset + |data|] == data
  }

  ghost predicate Contents(file: seq<Byte>, tasks: map<nat, Task>, claims: map<nat, Extent>, stored: set<nat>) {
    forall i :: i in stored ==> i in claims && IsPut(tasks, i) && InFile(file, claims[i], tasks[i].data)
  }

  ghost predicate Table(f: Fields, enc: TableCodec) {
    && (!f.finalized ==> |f.file| <= f.fileOffset)
    && (f.tableFlushed ==> f.fileOffset <= |f.file| && f.file[f.fileOffset..] == enc(f.offsets, f.extents))
  }

  /** Threads, points and flags. */
  ghost predicate Control(s: State) {
    Shape(s) && Points(s) && Flags(s)
  }

  /** Claims, tables and file. */
  ghost predicate Data(s: State, enc: TableCodec) {
    && Claims(s.f.fileOffset, s.tasks, s.claims, s.layout)
    && Entries(s.f.offsets, s.f.extents, s.claims, s.runs)
    && Contents(s.f.file, s.tasks, s.claims, s.stored)
    && Table(s.f, enc)
  }

  ghost predicate Inv(s: State, enc: TableCodec) {
    Control(s) && Data(s, enc)
  }

  lemma InitInv(n: nat, enc: TableCodec)
    ensures Inv(Init(n), enc)
  {
  }

  lemma AllCounted(s: State, i: nat)
    requires Shape(s) && s.f.unwritten == 0 && i < |s.f.offsets|
    ensures i in s.counted
  {
    var below := Below(|s.f.offsets|);
    assert s.counted <= below;
    SubsetOfSameSize(s.counted, below);
    assert i in below;
  }

  /** A thread that a step does not touch keeps its point. */
  lemma PointKept(s: State, s': State, j: nat)
    requires Point(s, j)
    requires j in s'.tasks && s'.tasks[j] == s.tasks[j] && j in s'.runs && s'.runs[j] == s.runs[j]
    requires (j in s'.claims <==> j in s.claims) && (j in s'.stored <==> j in s.stored) && (j in s'.counted <==> j in s.counted)
    requires s'.f.finalized == s.f.finalized && s'.f.finalizeOk == s.f.finalizeOk
    requires s'.f.unwritten == s.f.unwritten || s.f.unwritten > 0
    requires |s'.f.extents| == |s.f.extents| && (j < |s.f.extents| ==> s'.f.extents[j] == s.f.extents[j])
    ensures Point(s', j)
  {
  }

  /** When thread `i` alone moves, the other points stand. */
  lemma PointsMoved(s: State, s': State, i: nat)
    requires Points(s) && (forall j :: j in s.tasks ==> j in s.runs)
    requires s'.tasks == s.tasks && s'.runs.Keys == s.runs.Keys
    requires forall j :: j in s.runs && j != i ==> s'.runs[j] == s.runs[j]
    requires forall j :: j != i ==> (j in s'.claims <==> j in s.claims) && (j in s'.stored <==> j in s.stored)
                                    && (j in s'.counted <==> j in s.counted)
    requires s'.f.finalized == s.f.finalized && s'.f.finalizeOk == s.f.finalizeOk
    requires s'.f.unwritten == s.f.unwritten || s.f.unwritten > 0
    requires |s'.f.extents| == |s.f.extents|
    requires forall j :: 0 <= j < |s.f.extents| && j != i ==> s'.f.extents[j] == s.f.extents[j]
    requires i in s.tasks ==> Point(s', i)
    ensures Points(s')
  {
    forall j | j in s'.tasks ensures Point(s', j) {
      if j != i {
        PointKept(s, s', j);
      }
    }
  }

  // ----- Each step keeps each part ---------------------------------------------------------

  lemma ClaimsMoreTasks(fileOffset: nat, tasks: map<nat, Task>, claims: map<nat, Extent>, layout: seq<Extent>, i: nat, t: Task)
    requires Claims(fileOffset, tasks, claims, layout) && i !in tasks
    ensures Claims(fileOffset, tasks[i := t], claims, layout)
  {
  }

  lemma ContentsMoreTasks(file: seq<Byte>, tasks: map<nat, Task>, claims: map<nat, Extent>, stored: set<nat>, i: nat, t: Task)
    requires Contents(file, tasks, claims, stored) && i !in tasks
    ensures Contents(file, tasks[i := t], claims, stored)
  {
  }

  lemma ClaimsExtended(fileOffset: nat, tasks: map<nat, Task>, claims: map<nat, Extent>, layout: seq<Extent>, i: nat)
    requires Claims(fileOffset, tasks, claims, layout) && i !in claims
    requires IsPut(tasks, i) && fileOffset + |tasks[i].data| < EMPTY
    ensures var e := Extent(i, fileOffset, |tasks[i].data|);
            Claims(fileOffset + e.size, tasks, claims[i := e], layout + [e])
  {
    var e := Extent(i, fileOffset, |tasks[i].data|);
    assert (layout + [e])[..|layout|] == layout;
    ListedExtended(claims, layout, i, e);
    PlacedExtended(fileOffset, tasks, claims, i, e);
  }

  lemma ListedExtended(claims: map<nat, Extent>, layout: seq<Extent>, i: nat, e: Extent)
    requires Listed(claims, layout) && i !in claims && e.i == i
    ensures Listed(claims[i := e], layout + [e])
  {
  }

  lemma PlacedExtended(fileOffset: nat, tasks: map<nat, Task>, claims: map<nat, Extent>, i: nat, e: Extent)
    requires Placed(fileOffset, tasks, claims) && Disjoint(claims) && i !in claims
    requires IsPut(tasks, i) && e == Extent(i, fileOffset, |tasks[i].data|)
    ensures Placed(fileOffset + e.size, tasks, claims[i := e]) && Disjoint(claims[i := e])
  {
  }

  lemma ContentsMoreClaims(file: seq<Byte>, tasks: map<nat, Task>, claims: map<nat, Extent>, stored: set<nat>, i: nat, e: Extent)
    requires Contents(file, tasks, claims, stored) && i !in claims
    ensures Contents(file, tasks, claims[i := e], stored)
  {
  }

  /** What reaches the file of a write that may fail. */
  function Reached(data: seq<Byte>, io: Io): (r: seq<Byte>)
    ensures |r| <= |data|
  {
    match io
    case Landed => data
    case Lost(junk) => if |junk| <= |data| then junk else junk[..|data|]
  }

  /** A write inside one claim, landed or lost, leaves a chunk in another claim intact. */
  lemma OtherIntact(file: seq<Byte>, a: Extent, data: seq<Byte>, io: Io, b: Extent, other: seq<Byte>)
    requires Apart(a, b) && |data| == a.size && |other| == b.size && InFile(file, b, other)
    ensures InFile(SinkWrite(file, a.offset, data, io), b, other)
  {
    if other != [] {
      assert SinkWrite(file, a.offset, data, io) == WriteAt(file, a.offset, Reached(data, io));
      WriteElsewhere(file, a.offset, Reached(data, io), b.offset, b.offset + b.size);
    }
  }

  lemma ContentsWritten(fileOffset: nat, tasks: map<nat, Task>, claims: map<nat, Extent>, layout: seq<Extent>,
                        file: seq<Byte>, stored: set<nat>, i: nat, io: Io)
    requires Claims(fileOffset, tasks, claims, layout) && Contents(file, tasks, claims, stored)
    requires i in claims && i !in stored
    ensures Contents(SinkWrite(file, claims[i].offset, tasks[i].data, io), tasks, claims,
                     if io.Landed? then stored + {i} else stored)
  {
    var file' := SinkWrite(file, claims[i].offset, tasks[i].data, io);
    forall j | j in stored ensures InFile(file', claims[j], tasks[j].data) {
      OtherIntact(file, claims[i], tasks[i].data, io, claims[j], tasks[j].data);
    }
  }

  lemma WriteStaysBelow(file: seq<Byte>, e: Extent, data: seq<Byte>, io: Io, end: nat)
    requires |file| <= end && e.offset + e.size <= end && |data| == e.size
    ensures |SinkWrite(file, e.offset, data, io)| <= end
  {
    assert SinkWrite(file, e.offset, data, io) == WriteAt(file, e.offset, Reached(data, io));
  }

  lemma ContentsKept(file: seq<Byte>, file': seq<Byte>, tasks: map<nat, Task>, claims: map<nat, Extent>, stored: set<nat>)
    requires Contents(file, tasks, claims, stored)
    requires forall lo: nat, hi: nat :: lo <= hi <= |file| ==> hi <= |file'| && file'[lo..hi] == file[lo..hi]
    ensures Contents(file', tasks, claims, stored)
  {
  }

  lemma FinalizeFile(f: Fields, t: seq<Byte>, io: Io, flushOk: bool)
    requires !f.finalized && !f.tableFlushed && |f.file| <= f.fileOffset && t != []
    ensures var g := Finalize(f, t, io, flushOk);
            && g.tableFlushed == io.Landed?
            && (g.tableFlushed ==> f.fileOffset <= |g.file| && g.file[f.fileOffset..] == t)
            && forall lo: nat, hi: nat :: lo <= hi <= |f.file| ==> hi <= |g.file| && g.file[lo..hi] == f.file[lo..hi]
  {
    var g := Finalize(f, t, io, flushOk);
    var landed := if io.Landed? then t else if |io.junk| <= |t| then io.junk else io.junk[..|t|];
    forall lo: nat, hi: nat | lo <= hi <= |f.file| ensures hi <= |g.file| && g.file[lo..hi] == f.file[lo..hi] {
      WriteElsewhere(f.file, f.fileOffset, landed, lo, hi);
    }
    if io.Landed? {
      assert g.file[f.fileOffset..] == g.file[f.fileOffset..f.fileOffset + |t|];
    }
  }

  lemma FinalizeData(f: Fields, enc: TableCodec, io: Io, flushOk: bool,
                     tasks: map<nat, Task>, claims: map<nat, Extent>, stored: set<nat>)
    requires !f.finalized && Table(f, enc) && Contents(f.file, tasks, claims, stored)
    requires !f.tableFlushed && enc(f.offsets, f.extents) != []
    ensures var g := Finalize(f, enc(f.offsets, f.extents), io, flushOk);
            Table(g, enc) && Contents(g.file, tasks, claims, stored)
  {
    FinalizeFile(f, enc(f.offsets, f.extents), io, flushOk);
    ContentsKept(f.file, Finalize(f, enc(f.offsets, f.extents), io, flushOk).file, tasks, claims, stored);
  }

  lemma SubmitControl(s: State, i: nat, task: Task, retries: nat, enc: TableCodec)
    requires Control(s) && Enabled(s, Submit(i, task, retries))
    requires i !in s.claims && i !in s.stored
    ensures Control(Apply(s, Submit(i, task, retries), enc))
  {
    var s' := Apply(s, Submit(i, task, retries), enc);
    forall j | j in s'.tasks ensures Point(s', j) {
      if j != i {
        PointKept(s, s', j);
      }
    }
    if k :| k in s.runs && s.runs[k].pc.Last? {
      assert k in s'.runs && s'.runs[k].pc.Last?;
    }
    if k :| Failed(s, k) {
      assert Failed(s', k);
    }
  }

  lemma CheckControl(s: State, i: nat, enc: TableCodec)
    requires Control(s) && Enabled(s, Check(i))
    ensures Control(Apply(s, Check(i), enc))
  {
    var s' := Apply(s, Check(i), enc);
    assert Point(s, i);
    if s.f.finalized {
      AllCounted(s, i);
    }
    PointsMoved(s, s', i);
    if k :| k in s.runs && s.runs[k].pc.Last? {
      assert k in s'.runs && s'.runs[k].pc.Last?;
    }
    if k :| Failed(s, k) {
      assert Failed(s', k);
    }
  }

  lemma RecordControl(s: State, i: nat, enc: TableCodec)
    requires Control(s) && Enabled(s, Record(i))
    requires i in s.claims <==> s.f.offsets[i] < EMPTY
    ensures Control(Apply(s, Record(i), enc))
  {
    var s' := Apply(s, Record(i), enc);
    assert Point(s, i);
    assert Point(s', i);
    PointsMoved(s, s', i);
  }

  /** The tables with one more extent stored, before its offset is claimed. */
  lemma EntriesSized(offsets: seq<nat>, extents: seq<nat>, claims: map<nat, Extent>, runs: map<nat, Run>, i: nat, size: nat)
    requires Entries(offsets, extents, claims, runs) && i < |extents| && i in runs && i !in claims
    ensures Entries(offsets, extents[i := size], claims, SetPc(runs, i, Sized))
  {
  }

  lemma EntriesMoved(offsets: seq<nat>, extents: seq<nat>, claims: map<nat, Extent>, runs: map<nat, Run>,
                     runs': map<nat, Run>, i: nat)
    requires Entries(offsets, extents, claims, runs)
    requires forall j :: j in runs && j != i ==> j in runs' && runs'[j] == runs[j]
    requires i in claims || !At(runs, i, Sized)
    ensures Entries(offsets, extents, claims, runs')
  {
  }

  lemma EntriesClaimed(offsets: seq<nat>, extents: seq<nat>, claims: map<nat, Extent>, runs: map<nat, Run>, e: Extent)
    requires Entries(offsets, extents, claims, runs)
    requires e.i < |offsets| && e.i in runs && e.i !in claims && extents[e.i] == e.size && e.offset < EMPTY
    ensures Entries(offsets[e.i := e.offset], extents, claims[e.i := e], SetPc(runs, e.i, Claimed))
  {
  }

  lemma RecordData(s: State, i: nat, enc: TableCodec)
    requires Inv(s, enc) && Enabled(s, Record(i))
    ensures Data(Apply(s, Record(i), enc), enc)
  {
    assert Point(s, i);
    if s.tasks[i].Put? && s.f.offsets[i] >= EMPTY {
      EntriesSized(s.f.offsets, s.f.extents, s.claims, s.runs, i, |s.tasks[i].data|);
    } else {
      RecordSame(s, i, enc);
    }
  }

  /** A retry stores nothing, and neither does a skip: the entry was empty. */
  lemma RecordSame(s: State, i: nat, enc: TableCodec)
    requires Data(s, enc) && Enabled(s, Record(i)) && Point(s, i)
    requires s.tasks[i].Put? ==> s.f.offsets[i] < EMPTY
    ensures Data(Apply(s, Record(i), enc), enc)
  {
    var s' := Apply(s, Record(i), enc);
    assert s'.f.offsets == s.f.offsets && s'.f.extents == s.f.extents;
    EntriesMoved(s.f.offsets, s.f.extents, s.claims, s.runs, s'.runs, i);
  }

  lemma ClaimControl(s: State, i: nat, enc: TableCodec)
    requires Control(s) && Enabled(s, Claim(i))
    ensures Control(Apply(s, Claim(i), enc))
  {
    var s' := Apply(s, Claim(i), enc);
    assert Point(s, i);
    PointsMoved(s, s', i);
  }

  lemma ClaimData(s: State, i: nat, enc: TableCodec)
    requires Inv(s, enc) && Enabled(s, Claim(i))
    ensures Data(Apply(s, Claim(i), enc), enc)
  {
    var s' := Apply(s, Claim(i), enc);
    assert Point(s, i);
    ClaimsExtended(s.f.fileOffset, s.tasks, s.claims, s.layout, i);
    ContentsMoreClaims(s.f.file, s.tasks, s.claims, s.stored, i, s'.claims[i]);
    EntriesClaimed(s.f.offsets, s.f.extents, s.claims, s.runs, s'.claims[i]);
  }

  lemma WriteControl(s: State, i: nat, io: Io, enc: TableCodec)
    requires Control(s) && Enabled(s, Write(i, io))
    ensures Control(Apply(s, Write(i, io), enc))
  {
    var s' := Apply(s, Write(i, io), enc);
    assert Point(s, i);
    PointsMoved(s, s', i);
  }

  lemma WriteData(s: State, i: nat, io: Io, enc: TableCodec)
    requires Data(s, enc) && Enabled(s, Write(i, io))
    requires i in s.claims && i !in s.stored && !s.f.finalized && !s.f.tableFlushed
    ensures Data(Apply(s, Write(i, io), enc), enc)
  {
    var s' := Apply(s, Write(i, io), enc);
    ContentsWritten(s.f.fileOffset, s.tasks, s.claims, s.layout, s.f.file, s.stored, i, io);
    WriteStaysBelow(s.f.file, s.claims[i], s.tasks[i].data, io, s.f.fileOffset);
    EntriesMoved(s.f.offsets, s.f.extents, s.claims, s.runs, s'.runs, i);
  }

  lemma CountControl(s: State, i: nat, enc: TableCodec)
    requires Control(s) && Enabled(s, Count(i))
    ensures Control(Apply(s, Count(i), enc))
  {
    var s' := Apply(s, Count(i), enc);
    assert Point(s, i);
    PointsMoved(s, s', i);
    assert s.f.unwritten == 1 ==> s'.runs[i].pc.Last?;
  }

  lemma PublishControl(s: State, i: nat, table: Io, flushOk: bool, enc: TableCodec)
    requires Control(s) && Enabled(s, Publish(i, table, flushOk))
    ensures Control(Apply(s, Publish(i, table, flushOk), enc))
  {
    var s' := Apply(s, Publish(i, table, flushOk), enc);
    assert Point(s, i);
    forall j | j in s'.tasks ensures Point(s', j) {
      AllCounted(s, j);
      assert Point(s, j);
    }
    assert !s'.f.finalizeOk ==> Failed(s', i);
  }

  lemma PublishData(s: State, i: nat, table: Io, flushOk: bool, enc: TableCodec)
    requires enc(s.f.offsets, s.f.extents) != []
    requires Data(s, enc) && Enabled(s, Publish(i, table, flushOk)) && !s.f.finalized && !s.f.tableFlushed
    ensures Data(Apply(s, Publish(i, table, flushOk), enc), enc)
  {
    var s' := Apply(s, Publish(i, table, flushOk), enc);
    FinalizeData(s.f, enc, table, flushOk, s.tasks, s.claims, s.stored);
    assert s'.f == Finalize(s.f, enc(s.f.offsets, s.f.extents), table, flushOk);
    EntriesMoved(s.f.offsets, s.f.extents, s.claims, s.runs, s'.runs, i);
  }

  lemma CloseControl(s: State, table: Io, flushOk: bool, enc: TableCodec)
    requires Control(s) && Enabled(s, Close(table, flushOk))
    ensures Control(Apply(s, Close(table, flushOk), enc))
  {
    var s' := Apply(s, Close(table, flushOk), enc);
    forall j | j in s'.tasks ensures Point(s', j) {
      assert Point(s, j);
    }
    if k :| Failed(s, k) {
      assert Failed(s', k);
    }
  }

  lemma CloseData(s: State, table: Io, flushOk: bool, enc: TableCodec)
    requires enc(s.f.offsets, s.f.extents) != []
    requires Inv(s, enc) && Enabled(s, Close(table, flushOk))
    ensures Data(Apply(s, Close(table, flushOk), enc), enc)
  {
    var s' := Apply(s, Close(table, flushOk), enc);
    if !s.f.finalized {
      FinalizeData(s.f, enc, table, flushOk, s.tasks, s.claims, s.stored);
    }
  }

  lemma SubmitData(s: State, i: nat, task: Task, retries: nat, enc: TableCodec)
    requires Inv(s, enc) && Enabled(s, Submit(i, task, retries))
    ensures Data(Apply(s, Submit(i, task, retries), enc), enc)
  {
    ClaimsMoreTasks(s.f.fileOffset, s.tasks, s.claims, s.layout, i, task);
    ContentsMoreTasks(s.f.file, s.tasks, s.claims, s.stored, i, task);
    EntriesMoved(s.f.offsets, s.f.extents, s.claims, s.runs, s.runs[i := Run(retries, Start)], i);
  }

  lemma CheckData(s: State, i: nat, enc: TableCodec)
    requires Inv(s, enc) && Enabled(s, Check(i))
    ensures Data(Apply(s, Check(i), enc), enc)
  {
    EntriesMoved(s.f.offsets, s.f.extents, s.claims, s.runs, Apply(s, Check(i), enc).runs, i);
  }

  lemma CountData(s: State, i: nat, enc: TableCodec)
    requires Inv(s, enc) && Enabled(s, Count(i))
    ensures Data(Apply(s, Count(i), enc), enc)
  {
    EntriesMoved(s.f.offsets, s.f.extents, s.claims, s.runs, Apply(s, Count(i), enc).runs, i);
  }

  lemma StepControl(s: State, step: Step, enc: TableCodec)
    requires Inv(s, enc) && Enabled(s, step)
    ensures Control(Apply(s, step, enc))
  {
    match step
    case Submit(i, task, retries) => SubmitControl(s, i, task, retries, enc);
    case Check(i) => CheckControl(s, i, enc);
    case Record(i) => RecordControl(s, i, enc);
    case Claim(i) => ClaimControl(s, i, enc);
    case Write(i, io) => WriteControl(s, i, io, enc);
    case Count(i) => CountControl(s, i, enc);
    case Publish(i, table, flushOk) => PublishControl(s, i, table, flushOk, enc);
    case Close(table, flushOk) => CloseControl(s, table, flushOk, enc);
  }

  lemma StepData(s: State, step: Step, enc: TableCodec)
    requires enc(s.f.offsets, s.f.extents) != []
    requires Inv(s, enc) && Enabled(s, step)
    ensures Data(Apply(s, step, enc), enc)
  {
    match step
    case Submit(i, task, retries) => SubmitData(s, i, task, retries, enc);
    case Check(i) => CheckData(s, i, enc);
    case Record(i) => RecordData(s, i, enc);
    case Claim(i) => ClaimData(s, i, enc);
    case Write(i, io) =>
      assert Point(s, i);
      WriteData(s, i, io, enc);
    case Count(i) => CountData(s, i, enc);
    case Publish(i, table, flushOk) =>
      assert Point(s, i);
      PublishData(s, i, table, flushOk, enc);
    case Close(table, flushOk) => CloseData(s, table, flushOk, enc);
  }

  /** A run: each step enabled where it is taken. */
  ghost predicate IsRun(s: State, steps: seq<Step>, enc: TableCodec)
    decreases |steps|
  {
    steps == [] || (Enabled(s, steps[0]) && IsRun(Apply(s, steps[0], enc), steps[1..], enc))
  }

  ghost function Outcome(s: State, steps: seq<Step>, enc: TableCodec): State
    requires IsRun(s, steps, enc)
    decreases |steps|
  {
    if steps == [] then s else Outcome(Apply(s, steps[0], enc), steps[1..], enc)
  }

  /** The sink is open until the shard is finalised; that went well exactly if the table is out and the flush closed the sink. */
  predicate SinkOk(f: Fields) {
    && (!f.finalized ==> f.sinkOpen && !f.tableFlushed && !f.finalizeOk)
    && (f.finalized ==> (f.finalizeOk <==> f.tableFlushed && !f.sinkOpen))
  }

  /** In every reachable state. */
  lemma {:induction false} RunsKeepSink(s: State, steps: seq<Step>, enc: TableCodec)
    requires SinkOk(s.f) && IsRun(s, steps, enc)
    ensures SinkOk(Outcome(s, steps, enc).f)
    decreases |steps|
  {
    if steps != [] {
      StepKeepsSink(s, steps[0], enc);
      RunsKeepSink(Apply(s, steps[0], enc), steps[1..], enc);
    }
  }

  lemma StepKeepsSink(s: State, step: Step, enc: TableCodec)
    requires SinkOk(s.f) && Enabled(s, step)
    ensures SinkOk(Apply(s, step, enc).f)
    ensures step.Publish? && !s.f.finalized ==> (Apply(s, step, enc).f.finalizeOk <==> step.table.Landed? && step.flushOk)
    ensures step.Close? && !s.f.finalized ==> (Apply(s, step, enc).f.finalizeOk <==> step.table.Landed? && step.flushOk)
  {
  }

  /** Whatever order the threads run in, the invariant holds after every run. */
  lemma {:induction false} RunsKeepInv(s: State, steps: seq<Step>, enc: TableCodec)
    requires forall o, e :: enc(o, e) != []
    requires Inv(s, enc) && IsRun(s, steps, enc)
    ensures Inv(Outcome(s, steps, enc), enc)
    decreases |steps|
  {
    if steps != [] {
      StepControl(s, steps[0], enc);
      StepData(s, steps[0], enc);
      RunsKeepInv(Apply(s, steps[0], enc), steps[1..], enc);
    }
  }

  // ----- What follows ----------------------------------------------------------------------

  /** Once finalized, the tables and the file never change again: the shard is published once. */
  lemma FinalizedOnce(s: State, step: Step, enc: TableCodec)
    requires Inv(s, enc) && Enabled(s, step) && s.f.finalized
    ensures Apply(s, step, enc).f == s.f
  {
    if step.Submit? || step.Check? || step.Close? {
    } else {
      assert Point(s, step.i);
    }
  }

  /** Finalizing comes after every successful chunk write: a chunk still being written keeps the shard open. */
  lemma NoWriteAfterFinalize(s: State, i: nat, enc: TableCodec)
    requires Inv(s, enc) && i in s.runs
    requires s.runs[i].pc.Sized? || s.runs[i].pc.Claimed? || s.runs[i].pc.Stored? || s.runs[i].pc.Last?
    ensures !s.f.finalized && !s.f.tableFlushed
    ensures s.runs[i].pc.Last? ==> forall j: nat :: j < |s.f.offsets| ==> j in s.counted
  {
    assert Point(s, i);
    if s.runs[i].pc.Last? {
      forall j: nat | j < |s.f.offsets| ensures j in s.counted {
        AllCounted(s, j);
      }
    }
  }

  function TableOf(crc: Checksum): TableCodec {
    (o: seq<nat>, e: seq<nat>) => if |o| == |e| then EncodeTable(o, e, crc) else [0]
  }

  lemma FileTail(s: State, crc: Checksum)
    requires Table(s.f, TableOf(crc)) && s.f.tableFlushed && |s.f.offsets| == |s.f.extents|
    ensures |s.f.file| == s.f.fileOffset + 16 * |s.f.offsets| + 4
    ensures s.f.file[|s.f.file| - (16 * |s.f.offsets| + 4)..] == EncodeTable(s.f.offsets, s.f.extents, crc)
  {
    assert |s.f.file[s.f.fileOffset..]| == 16 * |s.f.offsets| + 4;
  }

  /** The shard file says, through its index, what each entry holds. */
  lemma FileReadsBack(s: State, crc: Checksum, i: nat)
    requires |s.f.offsets| == |s.f.extents| && Data(s, TableOf(crc)) && s.f.tableFlushed && i < |s.f.offsets|
    ensures |s.f.file| == s.f.fileOffset + 16 * |s.f.offsets| + 4
    ensures i in s.stored ==> IsPut(s.tasks, i) && ReadChunk(s.f.file, |s.f.offsets|, i) == Some(s.tasks[i].data)
    ensures i in s.claims ==> s.claims[i].offset + s.claims[i].size <= s.f.fileOffset
                              && ReadChunk(s.f.file, |s.f.offsets|, i) == Some(ExtentOf(s.f.file, s.claims[i]))
    ensures i !in s.claims && !At(s.runs, i, Sized) ==> ReadChunk(s.f.file, |s.f.offsets|, i) == None
  {
    VariantReads(s, crc, s.f.file, i);
    if i in s.stored {
      LandedReads(s, s.f.file, i);
    }
  }

  // ----- Chunks whose writes were lost ----------------------------------------------------------------

  /** A file that differs from the shard's at most where a claimed chunk never landed. */
  ghost predicate Variant(s: State, file: seq<Byte>) {
    && |file| == |s.f.file|
    && forall k :: 0 <= k < |file| && !Unlanded(s, k) ==> file[k] == s.f.file[k]
  }

  /** The byte lies in the extent of a chunk that was claimed and never landed. */
  ghost predicate Unlanded(s: State, k: nat) {
    exists i :: i in s.claims && i !in s.stored && s.claims[i].offset <= k < s.claims[i].offset + s.claims[i].size
  }

  /** Every claimed chunk has landed, or has no bytes to lose. */
  ghost predicate AllLanded(s: State) {
    forall i :: i in s.claims ==> i in s.stored || s.claims[i].size == 0
  }

  /** The entry is the empty one, or leads to exactly the bytes of its chunk. */
  predicate EntryRight(tasks: map<nat, Task>, file: seq<Byte>, n: nat, i: nat)
    requires |file| >= 16 * n + 4 && i < n
  {
    ReadChunk(file, n, i) == None || (IsPut(tasks, i) && ReadChunk(file, n, i) == Some(tasks[i].data))
  }

  /** It has the same table. */
  lemma VariantTable(s: State, crc: Checksum, file: seq<Byte>)
    requires |s.f.offsets| == |s.f.extents| && Table(s.f, TableOf(crc)) && s.f.tableFlushed && Variant(s, file)
    requires Placed(s.f.fileOffset, s.tasks, s.claims)
    ensures |file| == s.f.fileOffset + 16 * |s.f.offsets| + 4
    ensures file[|file| - (16 * |s.f.offsets| + 4)..] == EncodeTable(s.f.offsets, s.f.extents, crc)
  {
    FileTail(s, crc);
    forall k | s.f.fileOffset <= k < |file| ensures file[k] == s.f.file[k] {
      assert !Unlanded(s, k);
    }
    assert file[s.f.fileOffset..] == s.f.file[s.f.fileOffset..];
  }

  lemma EntryReads(file: seq<Byte>, n: nat, i: nat, e: Extent)
    requires |file| >= 16 * n + 4 && i < n && ReadEntry(file, n, i) == Entry(e.offset, e.size)
    requires e.offset < EMPTY && e.offset + e.size <= |file|
    ensures ReadChunk(file, n, i) == Some(ExtentOf(file, e))
  {
  }

  /** What such a file reads: the extent of a claimed chunk, and nothing for the others. */
  lemma VariantReads(s: State, crc: Checksum, file: seq<Byte>, i: nat)
    requires |s.f.offsets| == |s.f.extents| && Data(s, TableOf(crc)) && s.f.tableFlushed && i < |s.f.offsets| && Variant(s, file)
    ensures |file| == s.f.fileOffset + 16 * |s.f.offsets| + 4
    ensures i in s.claims ==> s.claims[i].offset + s.claims[i].size <= s.f.fileOffset
                              && ReadChunk(file, |s.f.offsets|, i) == Some(ExtentOf(file, s.claims[i]))
    ensures i !in s.claims && !At(s.runs, i, Sized) ==> ReadChunk(file, |s.f.offsets|, i) == None
  {
    VariantTable(s, crc, file);
    if i in s.claims {
      ClaimedEntry(s.f.fileOffset, s.f.offsets, s.f.extents, s.tasks, s.claims, s.runs, s.layout, i);
      TableRoundTrip(file, s.f.offsets, s.f.extents, crc, i);
      EntryReads(file, |s.f.offsets|, i, s.claims[i]);
    } else if !At(s.runs, i, Sized) {
      TableRoundTrip(file, s.f.offsets, s.f.extents, crc, i);
    }
  }

  lemma ClaimedEntry(fileOffset: nat, offsets: seq<nat>, extents: seq<nat>, tasks: map<nat, Task>, claims: map<nat, Extent>,
                     runs: map<nat, Run>, layout: seq<Extent>, i: nat)
    requires Claims(fileOffset, tasks, claims, layout) && Entries(offsets, extents, claims, runs) && i in claims
    ensures i < |offsets| == |extents| && offsets[i] == claims[i].offset < EMPTY && extents[i] == claims[i].size <= EMPTY
    ensures claims[i].offset + claims[i].size <= fileOffset
  {
  }

  function ExtentOf(file: seq<Byte>, e: Extent): (data: seq<Byte>)
    requires e.offset + e.size <= |file|
    ensures |data| == e.size
  {
    file[e.offset..e.offset + e.size]
  }

  /** A landed chunk reads the same in all of them. */
  lemma LandedReads(s: State, file: seq<Byte>, i: nat)
    requires Claims(s.f.fileOffset, s.tasks, s.claims, s.layout) && Contents(s.f.file, s.tasks, s.claims, s.stored)
    requires s.f.fileOffset <= |file| && Variant(s, file) && i in s.stored
    ensures i in s.claims && IsPut(s.tasks, i) && s.claims[i].offset + s.claims[i].size <= |file|
    ensures ExtentOf(file, s.claims[i]) == s.tasks[i].data
  {
    var e := s.claims[i];
    assert Placed(s.f.fileOffset, s.tasks, s.claims);
    forall k | e.offset <= k < e.offset + e.size ensures file[k] == s.f.file[k] {
      assert !Unlanded(s, k);
    }
    assert InFile(s.f.file, e, s.tasks[i].data);
    assert ExtentOf(file, e) == s.tasks[i].data;
  }

  /** One byte of a chunk that did not land may be anything. */
  lemma OtherByte(s: State, i: nat, other: Byte) returns (file: seq<Byte>)
    requires i in s.claims && i !in s.stored && s.claims[i].size > 0 && s.claims[i].offset < |s.f.file|
    ensures Variant(s, file) && file == s.f.file[s.claims[i].offset := other]
  {
    var at := s.claims[i].offset;
    file := s.f.file[at := other];
    forall k | 0 <= k < |file| && !Unlanded(s, k) ensures file[k] == s.f.file[k] {
      assert s.claims[i].offset <= at < s.claims[i].offset + s.claims[i].size;
    }
  }

  /** A chunk that did not land can read as other bytes. */
  lemma LostReads(s: State, crc: Checksum, i: nat) returns (file: seq<Byte>)
    requires |s.f.offsets| == |s.f.extents| && Data(s, TableOf(crc)) && s.f.tableFlushed
    requires i in s.claims && i !in s.stored && s.claims[i].size > 0
    ensures Variant(s, file) && i < |s.f.offsets| && |file| >= 16 * |s.f.offsets| + 4
    ensures !EntryRight(s.tasks, file, |s.f.offsets|, i)
  {
    ClaimedEntry(s.f.fileOffset, s.f.offsets, s.f.extents, s.tasks, s.claims, s.runs, s.layout, i);
    FileTail(s, crc);
    var e, data := s.claims[i], s.tasks[i].data;
    file := OtherByte(s, i, if data[0] == 0 then 1 else 0);
    VariantReads(s, crc, file, i);
    NotTheChunk(s.tasks, file, |s.f.offsets|, i, e);
  }

  lemma NotTheChunk(tasks: map<nat, Task>, file: seq<Byte>, n: nat, i: nat, e: Extent)
    requires |file| >= 16 * n + 4 && i < n && IsPut(tasks, i) && |tasks[i].data| == e.size > 0 && e.offset + e.size <= |file|
    requires ReadChunk(file, n, i) == Some(ExtentOf(file, e)) && file[e.offset] != tasks[i].data[0]
    ensures !EntryRight(tasks, file, n, i)
  {
    assert ExtentOf(file, e)[0] == file[e.offset];
  }

  /** Every entry is right or empty, whatever failed writes have left behind. */
  ghost predicate AlwaysRight(s: State, n: nat) {
    forall file: seq<Byte>, i: nat :: RightIn(s, n, file, i)
  }

  ghost predicate RightIn(s: State, n: nat, file: seq<Byte>, i: nat) {
    Variant(s, file) && i < n ==> |file| >= 16 * n + 4 && EntryRight(s.tasks, file, n, i)
  }

  lemma LandedIsRight(s: State, crc: Checksum, n: nat)
    requires Readable(s, crc) && n == |s.f.offsets| && AllLanded(s)
    ensures AlwaysRight(s, n)
  {
    forall file: seq<Byte>, i: nat ensures RightIn(s, n, file, i) {
      if Variant(s, file) && i < n {
        LandedEntry(s, crc, file, i);
      }
    }
  }

  /** The file has its table, and no thread is in the middle of a claim. */
  ghost predicate Readable(s: State, crc: Checksum) {
    && |s.f.offsets| == |s.f.extents| && Data(s, TableOf(crc)) && s.f.tableFlushed
    && forall i :: i in s.runs ==> !s.runs[i].pc.Sized?
  }

  lemma LostIsWrong(s: State, crc: Checksum, n: nat, i: nat)
    requires Readable(s, crc) && n == |s.f.offsets|
    requires i in s.claims && i !in s.stored && s.claims[i].size > 0
    ensures !AlwaysRight(s, n)
  {
    var file := LostReads(s, crc, i);
    WrongFile(s, file, n, i);
  }

  lemma WrongFile(s: State, file: seq<Byte>, n: nat, i: nat)
    requires Variant(s, file) && i < n && |file| >= 16 * n + 4 && !EntryRight(s.tasks, file, n, i)
    ensures !AlwaysRight(s, n)
  {
    assert !RightIn(s, n, file, i);
  }

  lemma RightIffLanded(s: State, crc: Checksum, n: nat)
    requires Readable(s, crc) && n == |s.f.offsets|
    ensures AlwaysRight(s, n) <==> AllLanded(s)
  {
    if AllLanded(s) {
      LandedIsRight(s, crc, n);
    } else {
      var i :| i in s.claims && i !in s.stored && s.claims[i].size > 0;
      LostIsWrong(s, crc, n, i);
    }
  }

  /** After any run that finalised well, this holds if and only if every claimed chunk has landed. */
  lemma EntriesRight(n: nat, steps: seq<Step>, crc: Checksum)
    requires IsRun(Init(n), steps, TableOf(crc))
    ensures var s := Outcome(Init(n), steps, TableOf(crc));
            s.f.finalized && s.f.finalizeOk ==> (AlwaysRight(s, n) <==> AllLanded(s))
  {
    InitInv(n, TableOf(crc));
    RunsKeepInv(Init(n), steps, TableOf(crc));
    EntriesNeverResized(Init(n), steps, TableOf(crc));
    var s := Outcome(Init(n), steps, TableOf(crc));
    if s.f.finalized && s.f.finalizeOk {
      forall i | i in s.runs ensures !s.runs[i].pc.Sized? {
        NotSized(s, i);
      }
      RightIffLanded(s, crc, n);
    }
  }

  lemma LandedEntry(s: State, crc: Checksum, file: seq<Byte>, i: nat)
    requires Readable(s, crc) && i < |s.f.offsets| && Variant(s, file)
    requires i in s.claims ==> i in s.stored || s.claims[i].size == 0
    ensures |file| >= 16 * |s.f.offsets| + 4 && EntryRight(s.tasks, file, |s.f.offsets|, i)
  {
    VariantReads(s, crc, file, i);
    if i in s.stored {
      LandedReads(s, file, i);
    }
    assert Placed(s.f.fileOffset, s.tasks, s.claims);
  }

  lemma NotSized(s: State, i: nat)
    requires Control(s) && s.f.finalized
    ensures !At(s.runs, i, Sized)
  {
    assert i in s.runs ==> Point(s, i);
  }

  /**
   A run in which the only attempt to write the only chunk is lost, and the closing thread still finalises with
   success: the table leads to a byte that is not the chunk's.
   */
  lemma LostChunkIsPublished(crc: Checksum) returns (steps: seq<Step>)
    ensures IsRun(Init(1), steps, TableOf(crc))
    ensures var s := Outcome(Init(1), steps, TableOf(crc));
            && s.f.finalized && s.f.finalizeOk && s.tasks == map[0 := Put([1])] && |s.f.file| >= 16 * 1 + 4
            && ReadChunk(s.f.file, 1, 0) == Some([0]) && !AllLanded(s)
  {
    var enc, e := TableOf(crc), Extent(0, 0, 1);
    var f1 := StoreExtent(Fresh(1), 0, 1);
    var f2 := ClaimOffset(f1, 0, 1);
    var done := Lone(Returned(false), f2, map[0 := e], [e])
                .(f := Finalize(f2, enc(f2.offsets, f2.extents), Landed, true), closed := true);
    steps := LoseAndClose(f2, e, done, enc);
    steps := Prepend(Lone(Sized, f1, map[], []), Claim(0), Lone(Claimed, f2, map[0 := e], [e]), steps, enc);
    steps := SubmitAndSize(Fresh(1), f1, steps, enc);
    LoneOutcome(steps, done, f2, e, crc);
  }

  lemma SubmitAndSize(f0: Fields, f1: Fields, rest: seq<Step>, enc: TableCodec) returns (steps: seq<Step>)
    requires f0 == Fresh(1) && f1 == StoreExtent(f0, 0, 1) && IsRun(Lone(Sized, f1, map[], []), rest, enc)
    ensures IsRun(Init(1), steps, enc) && Outcome(Init(1), steps, enc) == Outcome(Lone(Sized, f1, map[], []), rest, enc)
  {
    steps := Prepend(Lone(Entered, f0, map[], []), Record(0), Lone(Sized, f1, map[], []), rest, enc);
    steps := Prepend(Lone(Start, f0, map[], []), Check(0), Lone(Entered, f0, map[], []), steps, enc);
    steps := Prepend(Init(1), Submit(0, Put([1]), 1), Lone(Start, f0, map[], []), steps, enc);
  }

  lemma LoseAndClose(f: Fields, e: Extent, done: State, enc: TableCodec) returns (steps: seq<Step>)
    requires |f.offsets| == 1 && f.file == []
    requires done == Lone(Returned(false), Finalize(f, enc(f.offsets, f.extents), Landed, true), map[0 := e], [e]).(closed := true)
    ensures IsRun(Lone(Claimed, f, map[0 := e], [e]), steps, enc)
    ensures Outcome(Lone(Claimed, f, map[0 := e], [e]), steps, enc) == done
  {
    var last := Lone(Returned(false), f, map[0 := e], [e]);
    steps := Prepend(last, Close(Landed, true), done, [], enc);
    steps := Prepend(Lone(Claimed, f, map[0 := e], [e]), Write(0, Lost([])), last, steps, enc);
  }

  /** One chunk of one byte, its thread on its only attempt. */
  function Lone(pc: Pc, f: Fields, claims: map<nat, Extent>, layout: seq<Extent>): State {
    State(f, map[0 := Put([1])], map[0 := Run(1, pc)], claims, layout, {}, {}, false)
  }

  lemma LoneOutcome(steps: seq<Step>, done: State, f: Fields, e: Extent, crc: Checksum)
    requires IsRun(Init(1), steps, TableOf(crc)) && Outcome(Init(1), steps, TableOf(crc)) == done
    requires f.file == [] && f.fileOffset == 1 && !f.finalized && !f.tableFlushed && |f.offsets| == |f.extents| && e == Extent(0, 0, 1)
    requires done == Lone(Returned(false), Finalize(f, EncodeTable(f.offsets, f.extents, crc), Landed, true), map[0 := e], [e]).(closed := true)
    ensures done.f.finalized && done.f.finalizeOk && |done.f.file| >= 16 * 1 + 4
    ensures ReadChunk(done.f.file, 1, 0) == Some([0]) && !AllLanded(done)
  {
    LostByte(done, f.offsets, f.extents, crc);
    ShardReadsBack(1, steps, crc, 0);
    assert ExtentOf(done.f.file, e) == [0];
  }

  /** The byte was never written, so it is 0. */
  lemma LostByte(g: State, offsets: seq<nat>, extents: seq<nat>, crc: Checksum)
    requires |offsets| == |extents| && g.f.file == WriteAt([], 1, EncodeTable(offsets, extents, crc))
    ensures |g.f.file| > 0 && g.f.file[0] == 0
  {
  }

  lemma Prepend(s: State, step: Step, s': State, rest: seq<Step>, enc: TableCodec) returns (steps: seq<Step>)
    requires Enabled(s, step) && Apply(s, step, enc) == s' && IsRun(s', rest, enc)
    ensures IsRun(s, steps, enc) && Outcome(s, steps, enc) == Outcome(s', rest, enc)
  {
    steps := [step] + rest;
    assert steps[1..] == rest;
  }

  /** A job that is about to count down finds the countdown above zero. */
  lemma CountNeverFails(s: State, i: nat)
    requires Control(s) && At(s.runs, i, Stored)
    ensures Enabled(s, Count(i))
  {
    assert Point(s, i);
    var below := Below(|s.f.offsets|);
    assert s.counted <= below - {i};
    SubsetSize(s.counted, below - {i});
  }

  /** The index is at the end of the file, with the checksum of its entries. */
  lemma FileChecks(s: State, crc: Checksum)
    requires |s.f.offsets| == |s.f.extents| && Table(s.f, TableOf(crc)) && s.f.tableFlushed
    ensures ChecksumHolds(s.f.file, |s.f.offsets|, crc)
    ensures IsIndex(s.f.file[s.f.fileOffset..], s.f.offsets, s.f.extents, crc)
  {
    FileTail(s, crc);
    TableIsIndex(s.f.offsets, s.f.extents, crc);
    ChecksumAtEnd(s.f.file, s.f.fileOffset, |s.f.offsets|, crc);
  }

  /** After any run that finalised well the checksum a reader computes is the one in the file. */
  lemma ChecksumReadsBack(n: nat, steps: seq<Step>, crc: Checksum)
    requires IsRun(Init(n), steps, TableOf(crc))
    ensures var s := Outcome(Init(n), steps, TableOf(crc));
            s.f.finalized && s.f.finalizeOk ==>
              ChecksumHolds(s.f.file, n, crc) && |s.f.offsets| == |s.f.extents| == n && s.f.fileOffset <= |s.f.file|
              && IsIndex(s.f.file[s.f.fileOffset..], s.f.offsets, s.f.extents, crc)
  {
    InitInv(n, TableOf(crc));
    RunsKeepInv(Init(n), steps, TableOf(crc));
    EntriesNeverResized(Init(n), steps, TableOf(crc));
    var s := Outcome(Init(n), steps, TableOf(crc));
    if s.f.finalized && s.f.finalizeOk {
      FileTail(s, crc);
      FileChecks(s, crc);
    }
  }

  /**
   After any run, a shard that reports success reads back every counted chunk; of one that was claimed and never
   counted whatever its extent holds; and nothing else.
   */
  lemma ShardReadsBack(n: nat, steps: seq<Step>, crc: Checksum, i: nat)
    requires IsRun(Init(n), steps, TableOf(crc)) && i < n
    ensures var s := Outcome(Init(n), steps, TableOf(crc));
            s.f.finalized && s.f.finalizeOk ==>
              && |s.f.file| >= 16 * n + 4
              && (i in s.counted && IsPut(s.tasks, i) ==> ReadChunk(s.f.file, n, i) == Some(s.tasks[i].data))
              && (i in s.claims ==> s.claims[i].offset + s.claims[i].size <= |s.f.file|
                                    && ReadChunk(s.f.file, n, i) == Some(ExtentOf(s.f.file, s.claims[i])))
              && (i !in s.claims ==> ReadChunk(s.f.file, n, i) == None)
              && (!IsPut(s.tasks, i) ==> i !in s.claims)
  {
    InitInv(n, TableOf(crc));
    RunsKeepInv(Init(n), steps, TableOf(crc));
    EntriesNeverResized(Init(n), steps, TableOf(crc));
    var s := Outcome(Init(n), steps, TableOf(crc));
    if s.f.finalized && s.f.finalizeOk {
      FileReadsBack(s, crc, i);
      NotSized(s, i);
      if i in s.tasks {
        assert Point(s, i);
      }
    }
  }

  lemma {:induction false} EntriesNeverResized(s: State, steps: seq<Step>, enc: TableCodec)
    requires IsRun(s, steps, enc)
    ensures |Outcome(s, steps, enc).f.offsets| == |s.f.offsets|
    decreases |steps|
  {
    if steps != [] {
      EntriesNeverResized(Apply(s, steps[0], enc), steps[1..], enc);
    }
  }

  /** When a job for every entry has reported success, the shard is finalized and did land. */
  lemma AllJobsSucceeded(s: State, enc: TableCodec)
    requires Inv(s, enc) && |s.f.offsets| > 0
    requires forall i: nat :: i < |s.f.offsets| ==> i in s.tasks && At(s.runs, i, Returned(true))
    ensures s.f.finalized && s.f.finalizeOk && s.f.tableFlushed && s.f.unwritten == 0
    ensures forall i: nat :: i < |s.f.offsets| ==> i in s.counted
  {
    forall i: nat | i < |s.f.offsets| ensures i in s.counted {
      assert Point(s, i);
    }
    var below := Below(|s.f.offsets|);
    assert below <= s.counted;
    SubsetSize(below, s.counted);
  }
}
