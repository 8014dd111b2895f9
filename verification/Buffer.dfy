/** A movable window over a fixed slot of memory, used as a queue of records, each with a
    big-endian 16-bit length in front. */
module Buffer {
  import opened Bytes

  type Distance = x: int | -0x8000_0000 < x < 0x8000_0000

  type Content = c: seq<Byte> | |c| <= 0xffff

  function Record(c: Content): seq<Byte> {
    Big16(|c|) + c
  }

  /** The record at offset `from` of a window; nothing if it is not all there. */
  function ReadAt(w: seq<Byte>, from: nat): Content {
    if |w| < from + 2 then []
    else if |w| < from + 2 + Load16(w, from) then []
    else w[from + 2..from + 2 + Load16(w, from)]
  }

  /** The window after a read from the front: an empty answer consumes nothing. */
  function AfterRead(w: seq<Byte>): seq<Byte> {
    var r := ReadAt(w, 0);
    if |r| > 0 then w[2 + |r|..] else w
  }

  method StoreRecord(mem: array<Byte>, at: nat, c: Content)
    requires at + 2 + |c| <= mem.Length
    modifies mem
    ensures mem[..at] == old(mem[..at])
    ensures mem[at..at + 2 + |c|] == Record(c)
    ensures mem[at + 2 + |c|..] == old(mem[at + 2 + |c|..])
  {
    mem[at] := |c| / 0x100;
    mem[at + 1] := |c| % 0x100;
    forall i | 0 <= i < |c| {
      mem[at + 2 + i] := c[i];
    }
    assert mem[at..at + 2 + |c|] == mem[at..at + 2] + mem[at + 2..at + 2 + |c|];
  }

  class Buffer {
    const mem: array<Byte>
    const internalAt: nat
    const internalSize: nat
    var start: nat
    var len: nat

    ghost predicate Valid()
      reads this
    {
      && internalAt + internalSize <= mem.Length && internalSize < 0x8000_0000
      && internalAt <= start && start + len <= internalAt + internalSize
    }

    function Window(): seq<Byte>
      requires Valid()
      reads this, mem
    {
      mem[start..start + len]
    }

    function PrefixSpace(): nat
      requires Valid()
      reads this
    {
      start - internalAt
    }

    function SuffixSpace(): nat
      requires Valid()
      reads this
    {
      internalSize - PrefixSpace() - len
    }

    constructor (mem: array<Byte>, at: nat, size: nat)
      requires at + size <= mem.Length && size < 0x8000_0000
      ensures Valid() && this.mem == mem && internalAt == start == at && internalSize == len == size
    {
      this.mem, internalAt, internalSize := mem, at, size;
      start, len := at, size;
    }

    method SetSize(size: U32)
      requires Valid()
      modifies this`len
      ensures Valid() && len == if size <= internalSize - PrefixSpace() then size else old(len)
    {
      if size <= internalSize - PrefixSpace() {
        len := size;
      }
    }

    method Shift(distance: Distance)
      requires Valid()
      modifies this`start
      ensures Valid()
      ensures start == if 0 <= old(PrefixSpace()) + distance && distance <= old(SuffixSpace()) then old(start) + distance else old(start)
    {
      if distance <= SuffixSpace() && -distance <= PrefixSpace() {
        start := start + distance;
      }
    }

    method MoveFrontBoundary(distance: Distance)
      requires Valid()
      modifies this`start, this`len
      ensures Valid() && start + len == old(start + len)
      ensures start == if 0 <= old(PrefixSpace()) + distance && distance <= old(len) then old(start) + distance else old(start)
    {
      if -distance <= PrefixSpace() && distance <= len {
        start := start + distance;
        len := len - distance;
      }
    }

    method MoveBackBoundary(distance: Distance)
      requires Valid()
      modifies this`len
      ensures Valid()
      ensures len == if 0 <= old(len) + distance && distance <= old(SuffixSpace()) then old(len) + distance else old(len)
    {
      if distance <= SuffixSpace() && -distance <= len {
        len := len + distance;
      }
    }

    method ReadBuffer(from: nat) returns (r: Content)
      requires Valid() && from + 0x1_0002 < 0x1_0000_0000
      ensures r == ReadAt(Window(), from)
    {
      if len < from + 2 {
        return [];
      }
      var n := Pair(mem[start + from], mem[start + from + 1]);
      if len < from + 2 + n {
        return [];
      }
      r := mem[start + from + 2..start + from + 2 + n];
      assert n == Load16(Window(), from);
      assert forall i :: 0 <= i < n ==> r[i] == Window()[from + 2 + i];
    }

    method ReadBufferFromFront() returns (r: Content)
      requires Valid()
      modifies this`start, this`len
      ensures Valid()
      ensures r == ReadAt(old(Window()), 0) && Window() == AfterRead(old(Window()))
      ensures SuffixSpace() == old(SuffixSpace())
    {
      r := ReadBuffer(0);
      if |r| > 0 {
        MoveFrontBoundary(2 + |r|);
      }
    }

    /** Refused when the record would reach the end of the slot, even exactly. */
    method WriteBuffer(c: Content, from: nat) returns (ok: bool)
      requires Valid() && from + 0x1_0002 < 0x1_0000_0000
      modifies this`len, mem
      ensures Valid()
      ensures ok <==> from + |c| + 2 < old(len + SuffixSpace())
      ensures !ok ==> len == old(len) && mem[..] == old(mem[..])
      ensures ok ==>
                && len == (if from + |c| + 2 > old(len) then from + |c| + 2 else old(len))
                && mem[..start + from] == old(mem[..start + from])
                && mem[start + from..start + from + 2 + |c|] == Record(c)
                && mem[start + from + 2 + |c|..] == old(mem[start + from + 2 + |c|..])
    {
      if from + |c| + 2 >= len + SuffixSpace() {
        return false;
      }
      if from + |c| + 2 > len {
        SetSize(from + |c| + 2);
      }
      StoreRecord(mem, start + from, c);
      return true;
    }

    method WriteBufferToBack(c: Content) returns (ok: bool)
      requires Valid()
      modifies this`len, mem
      ensures Valid()
      ensures ok <==> |c| + 2 < old(SuffixSpace())
      ensures Window() == if ok then old(Window()) + Record(c) else old(Window())
      ensures SuffixSpace() == if ok then old(SuffixSpace()) - |Record(c)| else old(SuffixSpace())
      ensures mem[..start] == old(mem[..start]) && mem[start + len..] == old(mem[..])[start + len..]
    {
      ghost var size, before := len, mem[..];
      ok := WriteBuffer(c, len);
      SamePrefix(mem[..], before, start, start + size);
      assert mem[start..start + size] == mem[..][start..start + size];
      assert ok ==> Window() == mem[start..start + size] + mem[start + size..start + size + 2 + |c|];
      assert mem[start + len..] == mem[..][start + len..];
    }
  }

  lemma SamePrefix(a: seq<Byte>, b: seq<Byte>, i: nat, j: nat)
    requires i <= j <= |a| && j <= |b| && a[..j] == b[..j]
    ensures a[..i] == b[..i] && a[i..j] == b[i..j]
  {
    assert a[..i] == a[..j][..i] && b[..i] == b[..j][..i];
    assert a[i..j] == a[..j][i..] && b[i..j] == b[..j][i..];
  }

  // The window as a queue of byte strings

  function Records(q: seq<Content>): seq<Byte> {
    if q == [] then [] else Record(q[0]) + Records(q[1..])
  }

  /** A read at an offset yields a non-empty string exactly where its record begins, whole
      and within the window; of a record that is cut off it yields nothing. */
  lemma ReadExactly(w: seq<Byte>, from: nat, c: Content)
    requires c != []
    ensures ReadAt(w, from) == c <==> from + 2 + |c| <= |w| && w[from..from + 2 + |c|] == Record(c)
  {
    if from + 2 + |c| <= |w| && w[from..from + 2 + |c|] == Record(c) {
      assert w[from] == Record(c)[0] && w[from + 1] == Record(c)[1];
      assert w[from + 2..from + 2 + |c|] == w[from..from + 2 + |c|][2..] == c;
    }
  }

  lemma CutOffRecord(c: Content, n: nat, q: seq<Byte>)
    requires n < 2 + |c|
    ensures ReadAt(q + Record(c)[..n], |q|) == []
  {
    var w := q + Record(c)[..n];
    if n >= 2 {
      assert w[|q|] == Record(c)[0] && w[|q| + 1] == Record(c)[1];
    }
  }

  datatype Op = Write(c: Content) | Read

  datatype Result = Wrote(ok: bool) | Got(c: Content)

  /** What the operations answer on a window `w` with `room` bytes of slot behind it. */
  function OnWindow(w: seq<Byte>, room: nat, ops: seq<Op>): seq<Result>
    decreases |ops|
  {
    if ops == [] then []
    else match ops[0] {
      case Write(c) =>
        if |c| + 2 < room then [Wrote(true)] + OnWindow(w + Record(c), room - |Record(c)|, ops[1..])
        else [Wrote(false)] + OnWindow(w, room, ops[1..])
      case Read => [Got(ReadAt(w, 0))] + OnWindow(AfterRead(w), room, ops[1..])
    }
  }

  /** `OnWindow` is what the buffer's own operations answer. */
  method Perform(b: Buffer, ops: seq<Op>) returns (results: seq<Result>)
    requires b.Valid()
    modifies b, b.mem
    ensures b.Valid() && results == OnWindow(old(b.Window()), old(b.SuffixSpace()), ops)
    decreases |ops|
  {
    if ops == [] {
      return [];
    }
    var first;
    match ops[0] {
      case Write(c) =>
        var ok := b.WriteBufferToBack(c);
        first := Wrote(ok);
      case Read =>
        var c := b.ReadBufferFromFront();
        first := Got(c);
    }
    var rest := Perform(b, ops[1..]);
    results := [first] + rest;
  }

  /** What they answer on a queue of byte strings. */
  function OnQueue(q: seq<Content>, room: nat, ops: seq<Op>): seq<Result>
    decreases |ops|
  {
    if ops == [] then []
    else match ops[0] {
      case Write(c) =>
        if |c| + 2 < room then [Wrote(true)] + OnQueue(q + [c], room - |Record(c)|, ops[1..])
        else [Wrote(false)] + OnQueue(q, room, ops[1..])
      case Read =>
        if q == [] then [Got([])] + OnQueue(q, room, ops[1..])
        else [Got(q[0])] + OnQueue(q[1..], room, ops[1..])
    }
  }

  lemma {:induction false} RecordsAppend(q: seq<Content>, c: Content)
    ensures Records(q + [c]) == Records(q) + Record(c)
  {
    if q == [] {
      assert q + [c] == [c] && Records([c]) == Record(c) + Records([]);
    } else {
      RecordsAppend(q[1..], c);
      assert (q + [c])[1..] == q[1..] + [c];
    }
  }

  /** A read returns the first string, and removes it exactly when it is not empty. */
  lemma ReadFront(q: seq<Content>)
    requires q != []
    ensures ReadAt(Records(q), 0) == q[0]
    ensures AfterRead(Records(q)) == (if q[0] != [] then Records(q[1..]) else Records(q))
  {
    var w := Records(q);
    assert w == Big16(|q[0]|) + q[0] + Records(q[1..]);
    assert Load16(w, 0) == |q[0]|;
    assert w[2..2 + |q[0]|] == q[0];
    assert w[2 + |q[0]|..] == Records(q[1..]);
  }

  /** The window refines the queue: with non-empty strings every operation of every run
      answers alike, refused writes included. */
  lemma {:induction false} WindowRefinesQueue(q: seq<Content>, room: nat, ops: seq<Op>)
    requires [] !in q && Write([]) !in ops
    ensures OnWindow(Records(q), room, ops) == OnQueue(q, room, ops)
    decreases |ops|
  {
    if ops != [] {
      match ops[0] {
        case Write(c) =>
          assert c != [];
          if |c| + 2 < room {
            RecordsAppend(q, c);
            WindowRefinesQueue(q + [c], room - |Record(c)|, ops[1..]);
          } else {
            WindowRefinesQueue(q, room, ops[1..]);
          }
        case Read =>
          if q == [] {
            WindowRefinesQueue(q, room, ops[1..]);
          } else {
            ReadFront(q);
            WindowRefinesQueue(q[1..], room, ops[1..]);
          }
      }
    }
  }

  /** An empty string that reaches the front stays there: from then on every read answers
      empty, whatever was or will be written behind it. */
  lemma {:induction false} EmptyRecordBlocks(q: seq<Content>, room: nat, ops: seq<Op>)
    requires q != [] && q[0] == []
    ensures |OnWindow(Records(q), room, ops)| == |ops|
    ensures forall i :: 0 <= i < |ops| && ops[i].Read? ==> OnWindow(Records(q), room, ops)[i] == Got([])
    decreases |ops|
  {
    if ops != [] {
      match ops[0] {
        case Write(c) =>
          if |c| + 2 < room {
            RecordsAppend(q, c);
            EmptyRecordBlocks(q + [c], room - |Record(c)|, ops[1..]);
          } else {
            EmptyRecordBlocks(q, room, ops[1..]);
          }
        case Read =>
          ReadFront(q);
          EmptyRecordBlocks(q, room, ops[1..]);
      }
    }
  }
}
