/** TCP segments inside an IPv4 packet (section 3.1 of RFC 9293). */
module Tcp {
  import opened Bytes
  import opened OnesComplement
  import Ip4

  const CHECKSUM_WORD := 8

  /** Where a segment lies: an offset from the start of the IP header, and a size. */
  datatype Place = Place(at: nat, size: nat)

  /** Where the header says that the segment lies. */
  function Announced(p: seq<Byte>): Place
    requires |p| >= 20 && Ip4.HeaderBytes(p) <= Ip4.TotalLen(p)
  {
    Place(Ip4.HeaderBytes(p), Ip4.TotalLen(p) - Ip4.HeaderBytes(p))
  }

  /** The segment lies in memory, with the byte after an odd one, and so does the checksum
      field, which a segment may be too short to hold. */
  predicate InMemory(p: seq<Byte>, g: Place) {
    && |p| >= 20 && g.size < 0x1_0000
    && g.at + g.size + g.size % 2 <= |p| && g.at + 18 <= |p|
  }

  /** The source and destination addresses, the protocol and the segment length. */
  function PseudoHeader(p: seq<Byte>, size: Word): seq<Word>
    requires |p| >= 20
  {
    [Load16(p, 12), Load16(p, 14), Load16(p, 16), Load16(p, 18), Ip4.Protocol(p) as int, size]
  }

  /** The twelve bytes of section 3.1 of RFC 9293: the addresses, a zero byte, the protocol
      and the length of the segment. */
  function PseudoHeaderBytes(p: seq<Byte>, size: Word): seq<Byte>
    requires |p| >= 20
  {
    p[12..16] + p[16..20] + [0, p[9]] + Big16(size)
  }

  lemma PseudoHeaderLayout(p: seq<Byte>, size: Word)
    requires |p| >= 20
    ensures |PseudoHeaderBytes(p, size)| == 12
    ensures PseudoHeader(p, size) == Words(PseudoHeaderBytes(p, size))
  {
    var d := PseudoHeaderBytes(p, size);
    forall k | 0 <= k < 6 ensures Words(d)[k] == PseudoHeader(p, size)[k] {
      assert Words(d)[k] == WordAt(d, k);
    }
  }

  /** The words of an even string followed by another are the words of both. */
  lemma WordsConcat(a: seq<Byte>, b: seq<Byte>, n: nat)
    requires |a| == 2 * n
    ensures Words(a + b) == Words(a) + Words(b)
  {
    var all, first, second := Words(a + b), Words(a), Words(b);
    assert |first| == n && |all| == n + |second|;
    forall k: nat | k < n ensures all[k] == first[k] {
      assert all[k] == WordAt(a + b, k) && first[k] == WordAt(a, k);
    }
    forall k: nat | k < |second| ensures all[n + k] == second[k] {
      LaterWord(a, b, n, k);
    }
  }

  lemma LaterWord(a: seq<Byte>, b: seq<Byte>, n: nat, k: nat)
    requires |a| == 2 * n && 2 * k < |b|
    ensures WordAt(a + b, n + k) == WordAt(b, k)
  {
    assert (a + b)[2 * n + 2 * k] == b[2 * k];
  }

  /** A valid checksum is that of RFC 9293: pseudo-header and segment, zero-padded, sum to
      0xffff. */
  lemma ValidOverBytes(p: seq<Byte>, g: Place)
    requires InMemory(p, g)
    ensures ChecksumValid(p, g) <==>
              Sum(Words(p[12..16] + p[16..20] + [0, p[9]] + Big16(g.size) + p[g.at..g.at + g.size])) == 0xffff
  {
    PseudoHeaderLayout(p, g.size);
    WordsConcat(PseudoHeaderBytes(p, g.size), p[g.at..g.at + g.size], 6);
  }

  /** The segment's words, an odd last byte padded with zero. */
  function SegmentWords(p: seq<Byte>, g: Place): seq<Word>
    requires InMemory(p, g)
  {
    Words(p[g.at..g.at + g.size])
  }

  /** The words the code adds: after an odd last byte it takes the next byte of memory. */
  function WordsRead(p: seq<Byte>, g: Place): seq<Word>
    requires InMemory(p, g)
  {
    Words(p[g.at..g.at + g.size + g.size % 2])
  }

  /** No padding is needed, or the byte of memory after the segment is the padding's zero. */
  predicate PaddingInMemory(p: seq<Byte>, g: Place)
    requires InMemory(p, g)
  {
    g.size % 2 == 0 || p[g.at + g.size] == 0
  }

  predicate ChecksumValid(p: seq<Byte>, g: Place)
    requires InMemory(p, g)
  {
    Sum(PseudoHeader(p, g.size) + SegmentWords(p, g)) == 0xffff
  }

  /** The checksum field, if the segment holds one, counts as zero. */
  function ComputedChecksum(p: seq<Byte>, g: Place): Word
    requires InMemory(p, g)
  {
    Checksum(PseudoHeader(p, g.size) + Ip4.ZeroWord(WordsRead(p, g), CHECKSUM_WORD))
  }

  /** A view of the segment. Its place is that at the time the view was made. */
  datatype Segment = Segment(ip: Ip4.Header, place: Place)
  {
    ghost predicate Valid()
      reads ip.mem
    {
      ip.Valid() && InMemory(ip.View(), place)
    }

    function At(): nat {
      ip.at + place.at
    }

    lemma WordsInMemory()
      requires Valid()
      ensures var ws := Ip4.ZeroWord(WordsRead(ip.View(), place), CHECKSUM_WORD);
              && |ws| == (place.size + 1) / 2 && At() + 2 * |ws| <= ip.mem.Length
              && forall k :: 0 <= k < |ws| ==>
                   ws[k] == if 2 * k == 16 then 0 else Pair(ip.mem[At() + 2 * k], ip.mem[At() + 2 * k + 1])
    {
      var d := ip.View()[place.at..place.at + place.size + place.size % 2];
      assert d == ip.mem[At()..At() + |d|];
      PairsOf(d);
    }

    method PseudoHeaderSum() returns (sum: U32)
      requires Valid()
      ensures sum == TotalTo(PseudoHeader(ip.View(), place.size), 6)
    {
      var source, dest := ip.SourceIP(), ip.DestIP();
      sum := 0;
      sum := sum + (Pair(source[0], source[1]) + Pair(source[2], source[3]));
      sum := sum + (Pair(dest[0], dest[1]) + Pair(dest[2], dest[3]));
      sum := sum + ip.Protocol();
      sum := sum + place.size;
      PseudoTotal(PseudoHeader(ip.View(), place.size));
    }

    method CalculateChecksum() returns (c: Word)
      requires Valid()
      ensures c == ComputedChecksum(ip.View(), place)
    {
      ghost var pseudo := PseudoHeader(ip.View(), place.size);
      ghost var ws := Ip4.ZeroWord(WordsRead(ip.View(), place), CHECKSUM_WORD);
      var sum := PseudoHeaderSum();
      TotalBound(pseudo, 6);
      WordsInMemory();
      sum := Ip4.AddWords(ip.mem, At(), place.size, 16, sum, ws);
      TotalConcat(pseudo, ws, |ws|);
      DeferredCarries(pseudo + ws);
      c := Ip4.FoldedComplement(sum);
    }

    method CalculateChecksumInplace()
      requires Valid()
      modifies ip.mem
      ensures ip.mem[..ip.at] == old(ip.mem[..ip.at])
      ensures ip.View() == Store16(old(ip.View()), place.at + 16, ComputedChecksum(old(ip.View()), place))
    {
      var c := CalculateChecksum();
      ip.SetWord(place.at + 16, c);
    }
  }

  /** The view that is made of a packet's segment. */
  function SegmentOf(ip: Ip4.Header): (s: Segment)
    requires ip.Valid() && ip.HeaderBytes() <= ip.TotalLen()
    reads ip.mem
    ensures s == Segment(ip, Announced(ip.View()))
  {
    Segment(ip, Place(ip.HeaderBytes(), ip.TotalLen() - ip.HeaderBytes()))
  }

  lemma PairsOf(d: seq<Byte>)
    requires |d| % 2 == 0
    ensures |Words(d)| == |d| / 2
    ensures forall k :: 0 <= k < |Words(d)| ==> Words(d)[k] == Pair(d[2 * k], d[2 * k + 1])
  {
    forall k | 0 <= k < |Words(d)| ensures Words(d)[k] == Pair(d[2 * k], d[2 * k + 1]) {
      assert Words(d)[k] == WordAt(d, k);
    }
  }

  lemma PseudoTotal(ws: seq<Word>)
    requires |ws| == 6
    ensures TotalTo(ws, 6) == ws[0] as int + ws[1] as int + ws[2] as int + ws[3] as int + ws[4] as int + ws[5] as int
  {
    assert TotalTo(ws, 1) == ws[0];
    assert TotalTo(ws, 3) == TotalTo(ws, 1) + ws[1] + ws[2];
    assert TotalTo(ws, 5) == TotalTo(ws, 3) + ws[3] + ws[4];
  }

  lemma LastWordRead(p: seq<Byte>, g: Place)
    requires InMemory(p, g) && g.size % 2 == 1
    ensures var read, padded, last := WordsRead(p, g), SegmentWords(p, g), g.size / 2;
            |read| == |padded| == last + 1 &&
            padded[last] + p[g.at + g.size] < 0x1_0000 &&
            read == padded[last := padded[last] + p[g.at + g.size]]
  {
    var d, e := p[g.at..g.at + g.size], p[g.at..g.at + g.size + 1];
    assert e == d + [p[g.at + g.size]];
  }

  /** Exactly when the code's checksum is the one RFC 9293 asks for: the segment is even,
      or the byte of memory after it happens to be the zero of the padding, or it is the
      byte that the loop leaves out with the checksum field. */
  lemma OddSegments(p: seq<Byte>, g: Place)
    requires InMemory(p, g) && Ip4.Protocol(p) != 0
    ensures ComputedChecksum(p, g) ==
              Checksum(PseudoHeader(p, g.size) + Ip4.ZeroWord(SegmentWords(p, g), CHECKSUM_WORD)) <==>
              PaddingInMemory(p, g) || g.size == 17
  {
    if g.size % 2 == 0 {
      assert WordsRead(p, g) == SegmentWords(p, g);
    } else {
      LastWordRead(p, g);
      if g.size == 17 {
        assert Ip4.ZeroWord(WordsRead(p, g), CHECKSUM_WORD) == Ip4.ZeroWord(SegmentWords(p, g), CHECKSUM_WORD);
      } else {
        OddSegment(PseudoHeader(p, g.size), WordsRead(p, g), SegmentWords(p, g), p[g.at + g.size]);
      }
    }
  }

  lemma OddSegment(pseudo: seq<Word>, read: seq<Word>, padded: seq<Word>, tail: Byte)
    requires |pseudo| == 6 && pseudo[4] != 0
    requires 0 < |read| == |padded| && |padded| - 1 != CHECKSUM_WORD
    requires padded[|padded| - 1] + tail < 0x1_0000 && read == padded[|padded| - 1 := padded[|padded| - 1] + tail]
    ensures Checksum(pseudo + Ip4.ZeroWord(read, CHECKSUM_WORD)) == Checksum(pseudo + Ip4.ZeroWord(padded, CHECKSUM_WORD)) <==>
              tail == 0
  {
    var all, last := pseudo + Ip4.ZeroWord(padded, CHECKSUM_WORD), |padded| - 1;
    assert pseudo + Ip4.ZeroWord(read, CHECKSUM_WORD) == all[6 + last := padded[last] + tail];
    LastWordMatters(all, 6 + last, tail);
  }

  /** Adding less than a full word to one word shows in the checksum of a list that is
      not all zero. */
  lemma LastWordMatters(ws: seq<Word>, i: nat, tail: Byte)
    requires 4 < i < |ws| && ws[4] != 0 && ws[i] + tail < 0x1_0000
    ensures Checksum(ws[i := ws[i] + tail]) == Checksum(ws) <==> tail == 0
  {
    var us := ws[i := ws[i] + tail];
    TotalUpdate(ws, |ws|, i, ws[i] + tail);
    TotalBound(ws, |ws|);
    SumIsCanon(us, |ws|);
    SumIsCanon(ws, |ws|);
    if tail != 0 {
      CanonEqual(TotalTo(ws, |ws|), 0, tail);
    }
  }
}
