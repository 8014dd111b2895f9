/** A pool of equal slots cut from chunks of memory, with a stack of free slots. */
module BufferPool {
  import opened Bytes
  import Buffer

  /** A pointer to the first byte of a slot. */
  datatype Slot = Slot(chunk: array<Byte>, offset: nat)

  /** The first `n` slots of a chunk. */
  ghost function ChunkSlots(chunk: array<Byte>, size: nat, n: nat): set<Slot> {
    if n == 0 then {} else ChunkSlots(chunk, size, n - 1) + {Slot(chunk, (n - 1) * size)}
  }

  ghost function AllSlots(chunks: seq<array<Byte>>, size: nat, perChunk: nat): set<Slot> {
    if chunks == [] then {}
    else AllSlots(chunks[..|chunks| - 1], size, perChunk) + ChunkSlots(chunks[|chunks| - 1], size, perChunk)
  }

  ghost function ToSet(stack: seq<Slot>): set<Slot> {
    set s | s in stack
  }

  ghost predicate Distinct<T>(s: seq<T>) {
    forall i, j :: 0 <= i < j < |s| ==> s[i] != s[j]
  }

  lemma OneMore(n: nat, k: nat)
    ensures n * k + k == (n + 1) * k
  {
  }

  lemma {:induction false} ChunkSlotsBounds(chunk: array<Byte>, size: nat, n: nat)
    requires size > 0
    ensures |ChunkSlots(chunk, size, n)| == n
    ensures forall s :: s in ChunkSlots(chunk, size, n) ==> s.chunk == chunk && s.offset + size <= n * size
  {
    if n > 0 {
      ChunkSlotsBounds(chunk, size, n - 1);
      OneMore(n - 1, size);
    }
  }

  lemma NextSlot(chunk: array<Byte>, size: nat, n: nat, s: Slot)
    requires size > 0 && s == Slot(chunk, n * size)
    ensures s !in ChunkSlots(chunk, size, n)
    ensures ChunkSlots(chunk, size, n + 1) == ChunkSlots(chunk, size, n) + {s}
  {
    ChunkSlotsBounds(chunk, size, n);
  }

  /** Two slots of a chunk are the same or do not overlap. */
  lemma {:induction false} ChunkSlotsApart(chunk: array<Byte>, size: nat, n: nat, s: Slot, t: Slot)
    requires size > 0 && s in ChunkSlots(chunk, size, n) && t in ChunkSlots(chunk, size, n) && s != t
    ensures s.offset + size <= t.offset || t.offset + size <= s.offset
  {
    var last := Slot(chunk, (n - 1) * size);
    ChunkSlotsBounds(chunk, size, n - 1);
    if s != last && t != last {
      ChunkSlotsApart(chunk, size, n - 1, s, t);
    }
  }

  ghost predicate Chunks(chunks: seq<array<Byte>>, size: nat, perChunk: nat) {
    Distinct(chunks) && forall i :: 0 <= i < |chunks| ==> chunks[i].Length == size * perChunk
  }

  lemma {:induction false} AllSlotsBounds(chunks: seq<array<Byte>>, size: nat, perChunk: nat)
    requires size > 0 && Chunks(chunks, size, perChunk)
    ensures |AllSlots(chunks, size, perChunk)| == |chunks| * perChunk
    ensures forall s :: s in AllSlots(chunks, size, perChunk) ==>
              s.chunk in chunks && s.offset + size <= s.chunk.Length
  {
    if chunks != [] {
      var init, last := chunks[..|chunks| - 1], chunks[|chunks| - 1];
      AllSlotsBounds(init, size, perChunk);
      ChunkSlotsBounds(last, size, perChunk);
      assert AllSlots(init, size, perChunk) !! ChunkSlots(last, size, perChunk);
      OneMore(|chunks| - 1, perChunk);
    }
  }

  /** Distinct slots of the pool are disjoint byte ranges. */
  lemma {:induction false} SlotsDisjoint(chunks: seq<array<Byte>>, size: nat, perChunk: nat, s: Slot, t: Slot)
    requires size > 0 && Chunks(chunks, size, perChunk) && s != t
    requires s in AllSlots(chunks, size, perChunk) && t in AllSlots(chunks, size, perChunk)
    ensures s.chunk != t.chunk || s.offset + size <= t.offset || t.offset + size <= s.offset
  {
    var init, last := chunks[..|chunks| - 1], chunks[|chunks| - 1];
    AllSlotsBounds(init, size, perChunk);
    ChunkSlotsBounds(last, size, perChunk);
    if s in AllSlots(init, size, perChunk) && t in AllSlots(init, size, perChunk) {
      SlotsDisjoint(init, size, perChunk, s, t);
    } else if s in ChunkSlots(last, size, perChunk) && t in ChunkSlots(last, size, perChunk) {
      ChunkSlotsApart(last, size, perChunk, s, t);
    }
  }

  class BufferPool {
    const bufferSize: nat
    const buffersPerChunk: nat
    var memoryChunks: seq<array<Byte>>
    var available: seq<Slot>
    /** The slots handed out and not yet freed. */
    ghost var outstanding: set<Slot>

    /** Free and outstanding slots partition the slots of all chunks. */
    ghost predicate Valid()
      reads this
    {
      && 0 < bufferSize < 0x8000_0000 && 0 < buffersPerChunk && bufferSize * buffersPerChunk < 0x1_0000_0000
      && Chunks(memoryChunks, bufferSize, buffersPerChunk)
      && Distinct(available) && ToSet(available) !! outstanding
      && ToSet(available) + outstanding == AllSlots(memoryChunks, bufferSize, buffersPerChunk)
    }

    constructor (bufferSize: nat, buffersPerChunk: nat)
      requires 0 < bufferSize < 0x8000_0000 && 0 < buffersPerChunk && bufferSize * buffersPerChunk < 0x1_0000_0000
      ensures Valid() && outstanding == {} && this.bufferSize == bufferSize && this.buffersPerChunk == buffersPerChunk
    {
      this.bufferSize, this.buffersPerChunk := bufferSize, buffersPerChunk;
      memoryChunks, available, outstanding := [], [], {};
    }

    method Alloc() returns (b: Buffer.Buffer)
      requires Valid()
      modifies this
      ensures Valid()
      ensures b.Valid() && fresh(b) && b.start == b.internalAt && b.len == b.internalSize == bufferSize
      ensures Slot(b.mem, b.internalAt) !in old(outstanding)
      ensures outstanding == old(outstanding) + {Slot(b.mem, b.internalAt)}
      ensures old(available) != [] ==>
                old(available) == available + [Slot(b.mem, b.internalAt)] && memoryChunks == old(memoryChunks)
      ensures old(available) == [] ==>
                |available| == buffersPerChunk - 1 && |memoryChunks| == |old(memoryChunks)| + 1
    {
      if available == [] {
        AllocChunk();
      }
      var s := available[|available| - 1];
      PopTop(available);
      SlotInChunk(s);
      available := available[..|available| - 1];
      outstanding := outstanding + {s};
      b := new Buffer.Buffer(s.chunk, s.offset, bufferSize);
    }

    lemma SlotInChunk(s: Slot)
      requires Valid() && s in available
      ensures s.offset + bufferSize <= s.chunk.Length
    {
      AllSlotsBounds(memoryChunks, bufferSize, buffersPerChunk);
      assert s in ToSet(available);
    }

    method Free(b: Buffer.Buffer)
      requires Valid() && Slot(b.mem, b.internalAt) in outstanding
      modifies this`available, this`outstanding
      ensures Valid()
      ensures outstanding == old(outstanding) - {Slot(b.mem, b.internalAt)}
      ensures available == old(available) + [Slot(b.mem, b.internalAt)]
    {
      var s := Slot(b.mem, b.internalAt);
      PushNew(available, s);
      available := available + [s];
      outstanding := outstanding - {s};
    }

    method AllocChunk()
      requires Valid() && available == []
      modifies this`memoryChunks, this`available
      ensures Valid() && |available| == buffersPerChunk && |memoryChunks| == |old(memoryChunks)| + 1
    {
      var data := new Byte[bufferSize * buffersPerChunk];
      OneMoreChunk(memoryChunks, data, bufferSize, buffersPerChunk);
      PushSlots(data);
      memoryChunks := memoryChunks + [data];
    }

    method PushSlots(data: array<Byte>)
      requires available == [] && bufferSize > 0
      modifies this`available
      ensures |available| == buffersPerChunk && Distinct(available)
      ensures ToSet(available) == ChunkSlots(data, bufferSize, buffersPerChunk)
    {
      var i := 0;
      while i < buffersPerChunk
        invariant 0 <= i <= buffersPerChunk && |available| == i
        invariant Distinct(available) && ToSet(available) == ChunkSlots(data, bufferSize, i)
      {
        var s := Slot(data, i * bufferSize);
        NextSlot(data, bufferSize, i, s);
        PushNew(available, s);
        available := available + [s];
        i := i + 1;
      }
    }

    method AvailableCount() returns (n: nat)
      requires Valid()
      ensures n == |available|
    {
      n := |available|;
    }

    method AllCount() returns (n: nat)
      requires Valid()
      ensures n == |memoryChunks| * buffersPerChunk
    {
      n := |memoryChunks| * buffersPerChunk;
    }

    /** All slots less the free ones: just those handed out. */
    method ConsumedCount() returns (n: nat)
      requires Valid()
      ensures n == |outstanding| && n + |available| == |memoryChunks| * buffersPerChunk
    {
      AllSlotsBounds(memoryChunks, bufferSize, buffersPerChunk);
      DistinctCount(available);
      var all := AllCount();
      var free := AvailableCount();
      n := all - free;
    }
  }

  lemma OneMoreChunk(chunks: seq<array<Byte>>, data: array<Byte>, size: nat, perChunk: nat)
    requires size > 0 && Chunks(chunks, size, perChunk)
    requires data !in chunks && data.Length == size * perChunk
    ensures Chunks(chunks + [data], size, perChunk)
    ensures AllSlots(chunks + [data], size, perChunk) == AllSlots(chunks, size, perChunk) + ChunkSlots(data, size, perChunk)
    ensures AllSlots(chunks, size, perChunk) !! ChunkSlots(data, size, perChunk)
  {
    assert (chunks + [data])[..|chunks|] == chunks;
    AllSlotsBounds(chunks, size, perChunk);
    ChunkSlotsBounds(data, size, perChunk);
  }

  lemma PushNew(stack: seq<Slot>, s: Slot)
    requires Distinct(stack) && s !in ToSet(stack)
    ensures Distinct(stack + [s]) && ToSet(stack + [s]) == ToSet(stack) + {s}
  {
  }

  lemma PopTop(stack: seq<Slot>)
    requires stack != [] && Distinct(stack)
    ensures Distinct(stack[..|stack| - 1]) && ToSet(stack[..|stack| - 1]) == ToSet(stack) - {stack[|stack| - 1]}
  {
    forall s | s in ToSet(stack) && s != stack[|stack| - 1] ensures s in stack[..|stack| - 1] {
      var i :| 0 <= i < |stack| && stack[i] == s;
      assert stack[..|stack| - 1][i] == s;
    }
  }

  lemma {:induction false} DistinctCount(stack: seq<Slot>)
    requires Distinct(stack)
    ensures |ToSet(stack)| == |stack|
  {
    if stack != [] {
      var init := stack[..|stack| - 1];
      DistinctCount(init);
      PopTop(stack);
      assert ToSet(stack) == ToSet(init) + {stack[|stack| - 1]};
    }
  }
}
