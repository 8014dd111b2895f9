/** The edits the tunnel server makes to a client's packet before it is sent on, and what
    they preserve (section 4.1 of RFC 3022). */
module Rewrite {
  import opened Bytes
  import opened OnesComplement
  import Ip4
  import Tcp

  /** The announced segment lies in memory. */
  predicate TcpInMemory(p: seq<Byte>) {
    |p| >= 20 && Ip4.HeaderBytes(p) <= Ip4.TotalLen(p) && Tcp.InMemory(p, Tcp.Announced(p))
  }

  predicate UdpInMemory(p: seq<Byte>) {
    |p| >= 20 && Ip4.HeaderBytes(p) + 8 <= |p|
  }

  /** A full header, so that its fields and the segment's do not overlap, and a segment
      that holds its checksum. */
  predicate TcpPacket(p: seq<Byte>) {
    TcpInMemory(p) && Ip4.HeaderBytes(p) >= 20 && Tcp.Announced(p).size >= 18
  }

  predicate UdpPacket(p: seq<Byte>) {
    UdpInMemory(p) && Ip4.HeaderBytes(p) >= 20
  }

  /** Without a header, the port is stored over the header length; the header that is then
      announced lies in memory, too. */
  predicate HeaderFits(p: seq<Byte>, t: nat, port: Word)
    requires |p| >= 20
  {
    (if t == 0 then port / 0x100 % 0x10 * 4 else Ip4.HeaderBytes(p)) <= |p|
  }

  /** The new source port and address stored; `t` is where the segment starts. */
  function Readdressed(p: seq<Byte>, t: nat, source: Address, port: Word): (q: seq<Byte>)
    requires |p| >= 20 && t + 2 <= |p|
    ensures |q| == |p| && (HeaderFits(p, t, port) ==> Ip4.HeaderBytes(q) <= |q|)
  {
    StoreAddress(Store16(p, t, port), 12, source)
  }

  /** The header checksum stored. */
  function Sealed(p: seq<Byte>): (q: seq<Byte>)
    requires |p| >= 20 && Ip4.HeaderBytes(p) <= |p|
    ensures SameLayout(p, q)
  {
    Store16(p, 10, Ip4.HeaderChecksum(p))
  }

  /** The segment checksum stored, computed over what is there now. */
  function WithTcpChecksum(p: seq<Byte>, g: Tcp.Place): (q: seq<Byte>)
    requires Tcp.InMemory(p, g)
    ensures |q| == |p| && q[0] == p[0]
  {
    Store16(p, g.at + 16, Tcp.ComputedChecksum(p, g))
  }

  /** The zero that says a datagram has no checksum. */
  function WithoutUdpChecksum(p: seq<Byte>, t: nat): (q: seq<Byte>)
    requires |p| >= 20 && t + 8 <= |p|
    ensures |q| == |p| && q[0] == p[0]
  {
    Store16(p, t + 6, 0)
  }

  /** The packet after the four edits, in the order of the code. */
  function TcpOutbound(p: seq<Byte>, source: Address, port: Word): (q: seq<Byte>)
    requires TcpInMemory(p) && HeaderFits(p, Ip4.HeaderBytes(p), port)
    ensures |q| == |p|
  {
    var g := Tcp.Announced(p);
    Sealed(WithTcpChecksum(Readdressed(p, g.at, source, port), g))
  }

  function UdpOutbound(p: seq<Byte>, source: Address, port: Word): (q: seq<Byte>)
    requires UdpInMemory(p) && HeaderFits(p, Ip4.HeaderBytes(p), port)
    ensures |q| == |p|
  {
    var t := Ip4.HeaderBytes(p);
    Sealed(WithoutUdpChecksum(Readdressed(p, t, source, port), t))
  }

  method RewriteTcp(mem: array<Byte>, at: nat, source: Address, port: Word)
    requires at <= mem.Length && TcpInMemory(mem[at..]) && HeaderFits(mem[at..], Ip4.HeaderBytes(mem[at..]), port)
    modifies mem
    ensures mem[..at] == old(mem[..at])
    ensures mem[at..] == TcpOutbound(old(mem[at..]), source, port)
  {
    var ip := Ip4.Header(mem, at);
    assert ip.View() == mem[at..];
    var tcp := Tcp.SegmentOf(ip);
    Readdress(ip, tcp.place.at, source, port);
    tcp.CalculateChecksumInplace();
    ip.CalculateChecksumInplace();
  }

  method Readdress(ip: Ip4.Header, t: nat, source: Address, port: Word)
    requires ip.Valid() && ip.at + t + 2 <= ip.mem.Length
    modifies ip.mem
    ensures ip.mem[..ip.at] == old(ip.mem[..ip.at])
    ensures ip.View() == Readdressed(old(ip.View()), t, source, port)
  {
    ip.SetWord(t, port);
    ip.SetSourceIP(source);
  }

  method RewriteUdp(mem: array<Byte>, at: nat, source: Address, port: Word)
    requires at <= mem.Length && UdpInMemory(mem[at..]) && HeaderFits(mem[at..], Ip4.HeaderBytes(mem[at..]), port)
    modifies mem
    ensures mem[..at] == old(mem[..at])
    ensures mem[at..] == UdpOutbound(old(mem[at..]), source, port)
  {
    var ip := Ip4.Header(mem, at);
    assert ip.View() == mem[at..];
    var udp := ip.HeaderBytes();
    Readdress(ip, udp, source, port);
    ip.SetWord(udp + 6, 0);
    ip.CalculateChecksumInplace();
  }

  // Packets with a full header

  predicate SameLayout(p: seq<Byte>, q: seq<Byte>) {
    && |q| == |p| >= 20 && q[9] == p[9]
    && Ip4.HeaderBytes(q) == Ip4.HeaderBytes(p) && Ip4.TotalLen(q) == Ip4.TotalLen(p)
  }

  /** The bytes an outbound rewrite may touch; `t` is where the segment starts and `c`
      the offset of its checksum. */
  predicate Edited(t: nat, c: nat, i: int) {
    10 <= i < 16 || t <= i < t + 2 || t + c <= i < t + c + 2
  }

  /** The packet sent on carries the new source, differs nowhere else but in its two
      checksums, and has a valid header checksum. Its segment checksum is valid exactly
      when the segment is even or followed in memory by a zero byte. */
  lemma TcpOutboundCorrect(p: seq<Byte>, source: Address, port: Word)
    requires TcpPacket(p) && Ip4.Protocol(p) == Ip4.TCP
    ensures var q, g := TcpOutbound(p, source, port), Tcp.Announced(p);
            && SameLayout(p, q) && TcpPacket(q) && Tcp.Announced(q) == g
            && Ip4.SourceIP(q) == source && q[g.at..g.at + 2] == Big16(port)
            && (forall i :: 0 <= i < |p| && !Edited(g.at, 16, i) ==> q[i] == p[i])
            && Ip4.ChecksumValid(q)
            && Tcp.ChecksumValid(q, g) == Tcp.PaddingInMemory(p, g)
  {
    var g := Tcp.Announced(p);
    TcpBytes(p, g, source, port);
    OutboundChecksum(p, g, source, port);
    StillTcp(p, TcpOutbound(p, source, port));
  }

  lemma TcpBytes(p: seq<Byte>, g: Tcp.Place, source: Address, port: Word)
    requires TcpPacket(p) && g == Tcp.Announced(p)
    ensures var q := TcpOutbound(p, source, port);
            && SameLayout(p, q)
            && Ip4.SourceIP(q) == source && q[g.at..g.at + 2] == Big16(port)
            && (forall i :: 0 <= i < |p| && !Edited(g.at, 16, i) ==> q[i] == p[i])
            && Ip4.ChecksumValid(q)
  {
    var r := Readdressed(p, g.at, source, port);
    TcpChecksumOnly(r, g);
    EditedBytes(p, g.at, source, port, 16, WithTcpChecksum(r, g));
  }

  lemma StillTcp(p: seq<Byte>, q: seq<Byte>)
    requires TcpPacket(p) && SameLayout(p, q)
    ensures TcpPacket(q) && Tcp.Announced(q) == Tcp.Announced(p)
  {
  }

  lemma OutboundChecksum(p: seq<Byte>, g: Tcp.Place, source: Address, port: Word)
    requires TcpPacket(p) && Ip4.Protocol(p) == Ip4.TCP && g == Tcp.Announced(p)
    ensures Tcp.ChecksumValid(TcpOutbound(p, source, port), g) == Tcp.PaddingInMemory(p, g)
  {
    var r := Readdressed(p, g.at, source, port);
    SamePadding(p, g, source, port);
    SegmentSealed(r, g);
    SealKeepsSegment(WithTcpChecksum(r, g), g);
  }

  lemma SamePadding(p: seq<Byte>, g: Tcp.Place, source: Address, port: Word)
    requires Tcp.InMemory(p, g) && g.at >= 20 && g.size >= 2
    ensures var r := Readdressed(p, g.at, source, port);
            Ip4.Protocol(r) == Ip4.Protocol(p) && Tcp.PaddingInMemory(r, g) == Tcp.PaddingInMemory(p, g)
  {
  }

  lemma UdpOutboundCorrect(p: seq<Byte>, source: Address, port: Word)
    requires UdpPacket(p)
    ensures var q, t := UdpOutbound(p, source, port), Ip4.HeaderBytes(p);
            && SameLayout(p, q) && UdpPacket(q)
            && Ip4.SourceIP(q) == source && q[t..t + 2] == Big16(port) && q[t + 6] == q[t + 7] == 0
            && (forall i :: 0 <= i < |p| && !Edited(t, 6, i) ==> q[i] == p[i])
            && Ip4.ChecksumValid(q)
  {
    var t := Ip4.HeaderBytes(p);
    var r := Readdressed(p, t, source, port);
    UdpChecksumOnly(r, t);
    EditedBytes(p, t, source, port, 6, WithoutUdpChecksum(r, t));
  }

  /** `m` is `r` but for the word at `i`. */
  predicate Except16(r: seq<Byte>, m: seq<Byte>, i: nat) {
    SameLayout(r, m) && forall j :: 0 <= j < |r| && j != i && j != i + 1 ==> m[j] == r[j]
  }

  lemma TcpChecksumOnly(r: seq<Byte>, g: Tcp.Place)
    requires Tcp.InMemory(r, g)
    ensures Except16(r, WithTcpChecksum(r, g), g.at + 16)
  {
  }

  lemma UdpChecksumOnly(r: seq<Byte>, t: nat)
    requires |r| >= 20 && 20 <= t && t + 8 <= |r| && Ip4.HeaderBytes(r) <= |r|
    ensures var m := WithoutUdpChecksum(r, t);
            && Except16(r, m, t + 6) && m[t + 6] == m[t + 7] == 0
            && Sealed(m)[t + 6] == Sealed(m)[t + 7] == 0
  {
  }

  /** What both rewrites change and keep, if `m` has the new source and some checksum. */
  lemma EditedBytes(p: seq<Byte>, t: nat, source: Address, port: Word, c: nat, m: seq<Byte>)
    requires |p| >= 20 && 20 <= t == Ip4.HeaderBytes(p) && t + c + 2 <= |p| && c >= 2
    requires Except16(Readdressed(p, t, source, port), m, t + c)
    ensures var q := Sealed(m);
            && SameLayout(p, q)
            && Ip4.SourceIP(q) == source && q[t..t + 2] == Big16(port)
            && (forall i :: 0 <= i < |p| && !Edited(t, c, i) ==> q[i] == p[i])
            && Ip4.ChecksumValid(q)
  {
    HeaderSealed(m);
  }

  lemma HeaderSealed(p: seq<Byte>)
    requires |p| >= 20 && 20 <= Ip4.HeaderBytes(p) <= |p|
    ensures Ip4.ChecksumValid(Sealed(p))
  {
    var q, n := Sealed(p), Ip4.HeaderBytes(p);
    Ip4.StoreWord(p, n, 5, Ip4.HeaderChecksum(p));
    var ws := Ip4.HeaderWords(q);
    assert ws[5 := 0] == Ip4.HeaderWords(p)[5 := 0];
    StoredChecksumVerifies(ws, 5);
  }

  /** Storing the segment checksum makes pseudo-header and segment sum to 0xffff, exactly
      when an odd segment is followed by a zero byte. */
  lemma SegmentSealed(p: seq<Byte>, g: Tcp.Place)
    requires Tcp.InMemory(p, g) && g.at >= 20 && g.size >= 18 && Ip4.Protocol(p) != 0
    ensures Tcp.ChecksumValid(WithTcpChecksum(p, g), g) == Tcp.PaddingInMemory(p, g)
  {
    var c := Tcp.ComputedChecksum(p, g);
    var pseudo, ws := Tcp.PseudoHeader(p, g.size), Tcp.SegmentWords(p, g);
    StoredSegmentWord(p, g, c);
    NonzeroPseudo(p, g);
    var all: seq<Word> := pseudo + ws;
    SealedExactly(all, 14, c);
    assert all[14 := 0] == pseudo + ws[8 := 0];
    assert all[14 := c] == pseudo + ws[8 := c];
    Tcp.OddSegments(p, g);
  }

  lemma StoredSegmentWord(p: seq<Byte>, g: Tcp.Place, c: Word)
    requires Tcp.InMemory(p, g) && g.at >= 20 && g.size >= 18
    ensures var q := Store16(p, g.at + 16, c);
            && Tcp.PseudoHeader(q, g.size) == Tcp.PseudoHeader(p, g.size)
            && Tcp.SegmentWords(q, g) == Tcp.SegmentWords(p, g)[8 := c]
  {
    var q := Store16(p, g.at + 16, c);
    StoredWordAt(p[g.at..g.at + g.size], q[g.at..g.at + g.size], c);
  }

  lemma StoredWordAt(d: seq<Byte>, e: seq<Byte>, c: Word)
    requires |e| == |d| >= 18 && e[16] == c / 0x100 && e[17] == c % 0x100
    requires forall i :: 0 <= i < |d| && i != 16 && i != 17 ==> e[i] == d[i]
    ensures Words(e) == Words(d)[8 := c]
  {
    forall k | 0 <= k < |Words(d)| ensures Words(e)[k] == Words(d)[8 := c][k] {
      assert Words(e)[k] == WordAt(e, k) && Words(d)[k] == WordAt(d, k);
      assert k != 8 ==> 2 * k != 16 && 2 * k != 17 && 2 * k + 1 != 16 && 2 * k + 1 != 17;
    }
  }

  /** A word makes the whole sum to 0xffff exactly when it is the checksum of the rest,
      given that the rest is not all zero and the word is not the alternative zero. */
  lemma SealedExactly(ws: seq<Word>, i: nat, c: Word)
    requires i < |ws| && c != 0xffff
    ensures Sum(ws[i := c]) == 0xffff <==> c == Checksum(ws[i := 0])
  {
    AcceptanceTest(ws[i := c], i);
    assert ws[i := c][i := 0] == ws[i := 0];
  }

  /** The protocol number keeps a computed TCP checksum from being 0xffff. */
  lemma NonzeroPseudo(p: seq<Byte>, g: Tcp.Place)
    requires Tcp.InMemory(p, g) && Ip4.Protocol(p) != 0
    ensures Tcp.ComputedChecksum(p, g) != 0xffff
  {
    var ws := Tcp.PseudoHeader(p, g.size) + Ip4.ZeroWord(Tcp.WordsRead(p, g), Tcp.CHECKSUM_WORD);
    assert ws[4] != 0;
    SumIsCanon(ws, |ws|);
    TotalZero(ws, |ws|);
  }

  /** Storing the header checksum leaves the segment's validity as it was. */
  lemma SealKeepsSegment(p: seq<Byte>, g: Tcp.Place)
    requires Tcp.InMemory(p, g) && g.at >= 20 && Ip4.HeaderBytes(p) <= |p|
    ensures Tcp.ChecksumValid(Sealed(p), g) == Tcp.ChecksumValid(p, g)
  {
    var q := Sealed(p);
    assert q[g.at..g.at + g.size] == p[g.at..g.at + g.size];
    assert Tcp.PseudoHeader(q, g.size) == Tcp.PseudoHeader(p, g.size);
  }
}
