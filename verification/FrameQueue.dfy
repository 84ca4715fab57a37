/** The ring buffer between producer and consumer (src/streaming/frame.queue.cpp): a bounded FIFO. */
module FrameQueues {
  import opened Bytes

  datatype Item = Item(key: string, data: seq<Byte>, frameId: nat)

  datatype Slot = Slot(item: Item, ready: bool)

  /** The slot `i` places after `pos`, around the ring. */
  function After(pos: nat, i: nat, capacity: nat): (p: nat)
    requires pos < capacity && i <= capacity
    ensures p < capacity
  {
    if pos + i < capacity then pos + i else pos + i - capacity
  }

  /** How many slots lie between the two positions. */
  function Distance(read: nat, write: nat, capacity: nat): (n: nat)
    requires read < capacity && write < capacity
    ensures n < capacity && After(read, n, capacity) == write
  {
    if write >= read then write - read else capacity - (read - write)
  }

  function Window(slots: seq<Slot>, read: nat, n: nat): (w: seq<Item>)
    requires read < |slots| && n <= |slots|
    ensures |w| == n && forall i :: 0 <= i < n ==> w[i] == slots[After(read, i, |slots|)].item
  {
    seq(n, i requires 0 <= i < n => slots[After(read, i, |slots|)].item)
  }

  ghost predicate AllReady(slots: seq<Slot>, read: nat, n: nat)
    requires read < |slots| && n <= |slots|
  {
    forall i :: 0 <= i < n ==> slots[After(read, i, |slots|)].ready
  }

  lemma NextSlot(pos: nat, capacity: nat)
    requires pos < capacity
    ensures (pos + 1) % capacity == if pos + 1 < capacity then pos + 1 else 0
  {
    if pos + 1 < capacity {
      SmallMod(pos + 1, capacity);
    }
  }

  lemma SmallMod(a: nat, b: nat)
    requires a < b
    ensures a % b == a
  {
  }

  /** Filling the slot behind the window makes it longer by that item. */
  lemma Pushed(slots: seq<Slot>, read: nat, n: nat, slot: Slot)
    requires read < |slots| && n + 1 < |slots| && AllReady(slots, read, n) && slot.ready
    ensures AllReady(slots[After(read, n, |slots|) := slot], read, n + 1)
    ensures Window(slots[After(read, n, |slots|) := slot], read, n + 1) == Window(slots, read, n) + [slot.item]
  {
  }

  /** Leaving the first slot makes it shorter by that item, whatever is put there. */
  lemma Popped(slots: seq<Slot>, read: nat, n: nat, slot: Slot)
    requires read < |slots| && 0 < n < |slots| && AllReady(slots, read, n)
    ensures slots[read].ready && AllReady(slots[read := slot], After(read, 1, |slots|), n - 1)
    ensures Window(slots, read, n) == [slots[read].item] + Window(slots[read := slot], After(read, 1, |slots|), n - 1)
  {
    assert slots[After(read, 0, |slots|)].ready;
    forall i | 0 <= i < n - 1 ensures slots[read := slot][After(After(read, 1, |slots|), i, |slots|)].ready {
      assert After(After(read, 1, |slots|), i, |slots|) == After(read, i + 1, |slots|);
    }
    var rest := Window(slots[read := slot], After(read, 1, |slots|), n - 1);
    forall i | 0 <= i < n - 1 ensures rest[i] == Window(slots, read, n)[i + 1] {
      assert After(After(read, 1, |slots|), i, |slots|) == After(read, i + 1, |slots|);
    }
  }

  function TotalBytes(items: seq<Item>): nat {
    if items == [] then 0 else TotalBytes(items[..|items| - 1]) + |items[|items| - 1].data|
  }

  /** The bytes of the frames, one frame after the other. */
  function Concatenated(items: seq<Item>): seq<Byte> {
    if items == [] then [] else items[0].data + Concatenated(items[1..])
  }

  lemma {:induction false} TotalIs(items: seq<Item>)
    ensures TotalBytes(items) == |Concatenated(items)|
  {
    if items != [] {
      var last := |items| - 1;
      TotalIs(items[..last]);
      ConcatenatedSnoc(items[..last], items[last]);
      assert items[..last] + [items[last]] == items;
    }
  }

  lemma {:induction false} ConcatenatedSnoc(items: seq<Item>, item: Item)
    ensures Concatenated(items + [item]) == Concatenated(items) + item.data
  {
    if items != [] {
      ConcatenatedSnoc(items[1..], item);
      assert (items + [item])[1..] == items[1..] + [item];
      assert (items + [item])[0] == items[0];
    } else {
      assert (items + [item])[1..] == [];
    }
  }

  const NoItem := Item("", [], 0)

  /** Frames of one array in a list. */
  function OfKey(items: seq<Item>, key: string): seq<Item> {
    if items == [] then []
    else OfKey(items[..|items| - 1], key)
         + if items[|items| - 1].key == key then [items[|items| - 1]] else []
  }

  lemma OfKeySnoc(items: seq<Item>, item: Item, key: string)
    ensures OfKey(items + [item], key) == OfKey(items, key) + if item.key == key then [item] else []
  {
    assert (items + [item])[..|items|] == items;
  }

  lemma {:induction false} OfKeyConcat(a: seq<Item>, b: seq<Item>, key: string)
    ensures OfKey(a + b, key) == OfKey(a, key) + OfKey(b, key)
  {
    if b == [] {
      assert a + b == a;
    } else {
      var m := |b| - 1;
      OfKeyConcat(a, b[..m], key);
      OfKeySnoc(a + b[..m], b[m], key);
      assert a + b == a + b[..m] + [b[m]];
    }
  }

  lemma Regrouped(a: seq<Item>, item: Item, b: seq<Item>)
    ensures a + ([item] + b) == a + [item] + b
  {
  }

  class FrameQueue {
    const buffer: array<Slot>
    const capacity: nat
    var writePos: nat
    var readPos: nat
    /** All frames that ever entered, and those that left, in order. */
    ghost var entered: seq<Item>
    ghost var left: seq<Item>

    ghost predicate Valid()
      reads this, buffer
    {
      && capacity == buffer.Length >= 2 && writePos < capacity && readPos < capacity
      && AllReady(buffer[..], readPos, Count())
      && entered == left + Window(buffer[..], readPos, Count())
    }

    ghost function Count(): nat
      requires writePos < capacity && readPos < capacity
      reads this
    {
      Distance(readPos, writePos, capacity)
    }

    /** The frames queued, oldest first. */
    ghost function Contents(): seq<Item>
      requires Valid()
      reads this, buffer
    {
      Window(buffer[..], readPos, Count())
    }

    constructor (numFrames: nat)
      requires numFrames > 0
      ensures Valid() && Contents() == [] && entered == left == [] && capacity == numFrames + 1 && fresh(buffer)
    {
      capacity := numFrames + 1;
      buffer := new Slot[numFrames + 1](i => Slot(NoItem, false));
      writePos, readPos := 0, 0;
      entered, left := [], [];
    }

    method Push(frame: seq<Byte>, key: string, frameId: nat) returns (ok: bool)
      requires Valid()
      modifies this`writePos, this`entered, buffer
      ensures Valid() && ok == (|old(Contents())| + 1 < capacity)
      ensures entered == if ok then old(entered) + [Item(key, frame, frameId)] else old(entered)
      ensures Contents() == if ok then old(Contents()) + [Item(key, frame, frameId)] else old(Contents())
    {
      NextSlot(writePos, capacity);
      var nextPos := (writePos + 1) % capacity;
      if nextPos == readPos {
        return false;
      }
      Pushed(buffer[..], readPos, Count(), Slot(Item(key, frame, frameId), true));
      buffer[writePos] := Slot(Item(key, frame, frameId), true);
      writePos := nextPos;
      entered := entered + [Item(key, frame, frameId)];
      ok := true;
    }

    /** The popped frame's buffer is swapped with the caller's. */
    method Pop(frame: seq<Byte>) returns (ok: bool, item: Item)
      requires Valid()
      modifies this`readPos, this`left, buffer
      ensures Valid() && ok == (old(Contents()) != [])
      ensures ok ==> old(Contents()) == [item] + Contents() && left == old(left) + [item]
      ensures !ok ==> Contents() == [] && left == old(left)
    {
      if readPos == writePos {
        return false, NoItem;
      }
      item := buffer[readPos].item;
      NextSlot(readPos, capacity);
      ghost var slots, n := buffer[..], Count();
      var slot := Slot(item.(data := frame), false);
      Popped(slots, readPos, n, slot);
      assert buffer[readPos].ready; // so the program's second check never fails
      buffer[readPos] := slot;
      assert buffer[..] == slots[readPos := slot];
      Regrouped(left, item, Window(buffer[..], After(readPos, 1, capacity), n - 1));
      readPos := (readPos + 1) % capacity;
      left := left + [item];
      ok := true;
    }

    method Size() returns (n: nat)
      requires Valid()
      ensures n == |Contents()|
    {
      if writePos >= readPos {
        n := writePos - readPos;
      } else {
        n := capacity - (readPos - writePos);
      }
    }

    method BytesUsed() returns (total: nat)
      requires Valid()
      ensures total == TotalBytes(Contents()) == |Concatenated(Contents())|
    {
      total := 0;
      var pos := readPos;
      ghost var i := 0;
      while pos != writePos
        invariant 0 <= i <= Count() && pos == After(readPos, i, capacity)
        invariant total == TotalBytes(Contents()[..i])
        decreases Count() - i
      {
        assert buffer[After(readPos, i, capacity)].ready; // nor does this one
        assert Contents()[..i + 1][..i] == Contents()[..i];
        total := total + |buffer[pos].item.data|;
        NextSlot(pos, capacity);
        pos := (pos + 1) % capacity;
        i := i + 1;
      }
      assert Contents()[..i] == Contents();
      TotalIs(Contents());
    }

    method Full() returns (b: bool)
      requires Valid()
      ensures b == (|Contents()| + 1 == capacity)
    {
      NextSlot(writePos, capacity);
      b := (writePos + 1) % capacity == readPos;
    }

    method Empty() returns (b: bool)
      requires Valid()
      ensures b == (Contents() == [])
    {
      b := readPos == writePos;
    }

    method Clear()
      requires Valid()
      modifies this`readPos, this`left
      ensures Valid() && Contents() == [] && left == entered
    {
      readPos := writePos;
      left := entered;
    }
  }
}
