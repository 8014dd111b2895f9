/** RPC packets: a command byte, then the encrypted id and content. */
module Frame {
  import opened Bytes
  import Buffer

  const REQUEST: Byte := 0
  const REPLY: Byte := 1

  /** The cipher: two length-preserving functions. It has no state between calls, as every
      call starts again from the initialisation vector. */
  datatype CipherPair = CipherPair(encrypt: seq<Byte> -> seq<Byte>, decrypt: seq<Byte> -> seq<Byte>)
  {
    ghost predicate Inverse() {
      && (forall s: seq<Byte> :: |encrypt(s)| == |s| && decrypt(encrypt(s)) == s)
      && (forall s: seq<Byte> :: |decrypt(s)| == |s|)
    }
  }

  type Cipher = c: CipherPair | c.Inverse() witness CipherPair((s: seq<Byte>) => s, (s: seq<Byte>) => s)

  datatype Message = Message(command: Byte, id: Word, content: seq<Byte>)

  function Seal(c: Cipher, m: Message): (frame: seq<Byte>)
    ensures |frame| == 3 + |m.content|
  {
    [m.command] + c.encrypt(Big16(m.id) + m.content)
  }

  function Open(c: Cipher, frame: seq<Byte>): Message
    requires |frame| >= 3
  {
    var plain := c.decrypt(frame[1..]);
    Message(frame[0], Load16(plain, 0), plain[2..])
  }

  /** On the wire: the command in the clear, then, encrypted in one piece, the id and the
      content. */
  lemma Layout(c: Cipher, m: Message)
    ensures Seal(c, m)[0] == m.command
    ensures c.decrypt(Seal(c, m)[1..]) == [m.id / 0x100, m.id % 0x100] + m.content
  {
    assert Seal(c, m)[1..] == c.encrypt(Big16(m.id) + m.content);
  }

  /** The first byte of a request is 0, that of a reply 1. */
  lemma FirstByte(c: Cipher, id: Word, content: seq<Byte>)
    ensures Seal(c, Message(REQUEST, id, content))[0] == 0 && Seal(c, Message(REPLY, id, content))[0] == 1
  {
  }

  lemma RoundTrip(c: Cipher, m: Message)
    ensures Open(c, Seal(c, m)) == m
  {
    var body := Big16(m.id) + m.content;
    assert Seal(c, m)[1..] == c.encrypt(body);
    assert body[2..] == m.content;
  }

  /** No byte of memory changes but those from `i` to `j`. */
  ghost predicate OutsideKept(before: seq<Byte>, after: seq<Byte>, i: int, j: int) {
    |after| == |before| && forall k :: 0 <= k < |before| && !(i <= k < j) ==> after[k] == before[k]
  }

  /** The frame built in place: the window grows by three bytes to the front. */
  method SealInPlace(b: Buffer.Buffer, c: Cipher, command: Byte, id: Word)
    requires b.Valid() && b.PrefixSpace() >= 3
    modifies b, b.mem
    ensures b.Valid() && b.start == old(b.start) - 3
    ensures b.Window() == Seal(c, Message(command, id, old(b.Window())))
    ensures OutsideKept(old(b.mem[..]), b.mem[..], b.start, b.start + b.len)
  {
    ghost var content := b.Window();
    b.MoveFrontBoundary(-3);
    PutHeader(b, command, id, content);
    ghost var secret := c.encrypt(Big16(id) + content);
    Overwrite(b.mem, b.start + 1, c.encrypt(b.mem[b.start + 1..b.start + b.len]));
    FirstAndRest(b.Window(), command, secret);
  }

  lemma FirstAndRest(w: seq<Byte>, first: Byte, rest: seq<Byte>)
    requires |w| > 0 && w[0] == first && w[1..] == rest
    ensures w == [first] + rest
  {
  }

  /** The command and the id stored before the content. */
  method PutHeader(b: Buffer.Buffer, command: Byte, id: Word, ghost content: seq<Byte>)
    requires b.Valid() && b.len == 3 + |content| && b.mem[b.start + 3..b.start + b.len] == content
    modifies b.mem
    ensures b.mem[b.start] == command
    ensures OutsideKept(old(b.mem[..]), b.mem[..], b.start, b.start + 3)
    ensures b.mem[b.start + 1..b.start + b.len] == Big16(id) + content
  {
    b.mem[b.start] := command;
    b.mem[b.start + 1] := id / 0x100;
    b.mem[b.start + 2] := id % 0x100;
    assert b.mem[b.start + 3..b.start + b.len] == content;
    assert b.mem[b.start + 1..b.start + b.len] == b.mem[b.start + 1..b.start + 3] + b.mem[b.start + 3..b.start + b.len];
  }

  /** The frame taken apart in place: the window is left on the content. */
  method OpenInPlace(b: Buffer.Buffer, c: Cipher) returns (command: Byte, id: Word)
    requires b.Valid() && b.len >= 3
    modifies b, b.mem
    ensures b.Valid() && b.start == old(b.start) + 3
    ensures Message(command, id, b.Window()) == Open(c, old(b.Window()))
    ensures OutsideKept(old(b.mem[..]), b.mem[..], b.start - 3, b.start + b.len)
  {
    ghost var frame := b.Window();
    assert b.mem[b.start + 1..b.start + b.len] == frame[1..];
    Overwrite(b.mem, b.start + 1, c.decrypt(b.mem[b.start + 1..b.start + b.len]));
    ghost var plain := b.mem[b.start + 1..b.start + b.len];
    command := b.mem[b.start];
    id := Pair(b.mem[b.start + 1], b.mem[b.start + 2]);
    assert plain[0] == b.mem[b.start + 1] && plain[1] == b.mem[b.start + 2];
    b.MoveFrontBoundary(3);
    assert b.Window() == plain[2..];
  }

  method Overwrite(mem: array<Byte>, at: nat, d: seq<Byte>)
    requires at + |d| <= mem.Length
    modifies mem
    ensures forall i :: 0 <= i < mem.Length && !(at <= i < at + |d|) ==> mem[i] == old(mem[i])
    ensures mem[at..at + |d|] == d
  {
    forall i | 0 <= i < |d| {
      mem[at + i] := d[i];
    }
  }
}
