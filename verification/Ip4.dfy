/** IPv4 headers (section 3.1 of RFC 791): a view of memory, read and edited in place. */
module Ip4 {
  import opened Bytes
  import opened OnesComplement

  const TCP: Byte := 6
  const UDP: Byte := 17

  /** The index of the checksum among the header's 16-bit words. */
  const CHECKSUM_WORD := 5

  // Readings of `p`, the memory from the first byte of the header on.

  /** The header length in units of 32 bits. */
  function HeaderLen(p: seq<Byte>): nat
    requires |p| >= 20
  {
    p[0] % 0x10
  }

  function HeaderBytes(p: seq<Byte>): nat
    requires |p| >= 20
  {
    HeaderLen(p) * 4
  }

  function TotalLen(p: seq<Byte>): Word
    requires |p| >= 20
  {
    Load16(p, 2)
  }

  function Protocol(p: seq<Byte>): Byte
    requires |p| >= 20
  {
    p[9]
  }

  function StoredChecksum(p: seq<Byte>): Word
    requires |p| >= 20
  {
    Load16(p, 10)
  }

  function SourceIP(p: seq<Byte>): Address
    requires |p| >= 20
  {
    p[12..16]
  }

  function DestIP(p: seq<Byte>): Address
    requires |p| >= 20
  {
    p[16..20]
  }

  type Nibble = x: int | 0 <= x < 0x10

  /** The fields of a header without options. */
  datatype Fields = Fields(
    version: Nibble, headerLen: Nibble, serviceType: Byte, totalLen: Word, id: Word, flagsOffset: Word,
    ttl: Byte, protocol: Byte, checksum: Word, source: Address, dest: Address)

  /** The layout of section 3.1 of RFC 791. */
  function Encoded(f: Fields): seq<Byte> {
    [0x10 * (f.version as int) + f.headerLen as int, f.serviceType] + Big16(f.totalLen) + Big16(f.id) + Big16(f.flagsOffset)
    + [f.ttl, f.protocol] + Big16(f.checksum) + f.source + f.dest
  }

  /** The readings above give back the fields, whatever follows the header. */
  lemma HeaderLayout(f: Fields, rest: seq<Byte>)
    ensures |Encoded(f)| == 20
    ensures var p := Encoded(f) + rest;
            && HeaderLen(p) == f.headerLen && HeaderBytes(p) == 4 * f.headerLen as int && TotalLen(p) == f.totalLen
            && Protocol(p) == f.protocol && StoredChecksum(p) == f.checksum
            && SourceIP(p) == f.source && DestIP(p) == f.dest
  {
  }

  function HeaderWords(p: seq<Byte>): seq<Word>
    requires |p| >= 20 && HeaderBytes(p) <= |p|
  {
    Words(p[..HeaderBytes(p)])
  }

  /** `ws` with word `i`, if it has one, read as zero. */
  function ZeroWord(ws: seq<Word>, i: nat): seq<Word> {
    if i < |ws| then ws[i := 0] else ws
  }

  /** The words that the checksum of a header of `n` bytes adds up: its own field counts
      as zero. */
  function SummedWords(p: seq<Byte>, n: nat): seq<Word>
    requires n <= |p|
  {
    ZeroWord(Words(p[..n]), CHECKSUM_WORD)
  }

  /** The header checksum as RFC 791 defines it. */
  function HeaderChecksum(p: seq<Byte>): Word
    requires |p| >= 20 && HeaderBytes(p) <= |p|
  {
    Checksum(SummedWords(p, HeaderBytes(p)))
  }

  /** What RFC 1071 asks of a receiver: the whole header sums to 0xffff. */
  predicate ChecksumValid(p: seq<Byte>)
    requires |p| >= 20 && HeaderBytes(p) <= |p|
  {
    Sum(HeaderWords(p)) == 0xffff
  }

  datatype Header = Header(mem: array<Byte>, at: nat)
  {
    ghost predicate Valid() {
      at + 20 <= mem.Length
    }

    ghost function View(): (p: seq<Byte>)
      requires Valid()
      reads mem
    {
      mem[at..]
    }

    function Protocol(): Byte
      requires Valid()
      reads mem
    {
      mem[at + 9]
    }

    function TotalLen(): Word
      requires Valid()
      reads mem
    {
      Pair(mem[at + 2], mem[at + 3])
    }

    function HeaderBytes(): nat
      requires Valid()
      reads mem
    {
      mem[at] % 0x10 * 4
    }

    function SourceIP(): Address
      requires Valid()
      reads mem
    {
      mem[at + 12..at + 16]
    }

    function DestIP(): Address
      requires Valid()
      reads mem
    {
      mem[at + 16..at + 20]
    }

    function Checksum(): Word
      requires Valid()
      reads mem
    {
      Pair(mem[at + 10], mem[at + 11])
    }

    /** The 16-bit field at an offset of the payload. */
    function Payload16(offset: nat): Word
      requires Valid() && at + HeaderBytes() + offset + 2 <= mem.Length
      reads mem
    {
      Pair(mem[at + HeaderBytes() + offset], mem[at + HeaderBytes() + offset + 1])
    }

    /** Stores a big-endian word at an offset from the start of the header. */
    method SetWord(offset: nat, v: Word)
      requires Valid() && at + offset + 2 <= mem.Length
      modifies mem
      ensures mem[..at] == old(mem[..at])
      ensures View() == Store16(old(View()), offset, v)
    {
      mem[at + offset] := v / 0x100;
      mem[at + offset + 1] := v % 0x100;
    }

    method SetSourceIP(a: Address)
      requires Valid()
      modifies mem
      ensures mem[..at] == old(mem[..at])
      ensures View() == StoreAddress(old(View()), 12, a)
    {
      mem[at + 12], mem[at + 13], mem[at + 14], mem[at + 15] := a[0], a[1], a[2], a[3];
    }

    /** Sums in 32 bits with no overflow, then folds; the result is the checksum that
        adding word by word with end-around carry defines. */
    method CalculateChecksum() returns (c: Word)
      requires Valid() && at + HeaderBytes() <= mem.Length
      ensures c == HeaderChecksum(View())
    {
      ghost var ws := ZeroWord(HeaderWords(View()), CHECKSUM_WORD);
      var sum := AddWords(mem, at, HeaderBytes(), 10, 0, ws);
      c := FoldedComplement(sum);
      DeferredCarries(ws);
    }

    method CalculateChecksumInplace()
      requires Valid() && at + HeaderBytes() <= mem.Length
      modifies mem
      ensures mem[..at] == old(mem[..at])
      ensures View() == Store16(old(View()), 10, HeaderChecksum(old(View())))
    {
      var c := CalculateChecksum();
      SetWord(10, c);
    }
  }

  /** The summing loop shared by both checksum routines: in 32 bits, every second byte
      offset of `mem[at..at + size]` but `skip`. An odd last byte is paired with the byte
      of memory after it. */
  method AddWords(mem: array<Byte>, at: nat, size: nat, skip: nat, start: U32, ghost ws: seq<Word>) returns (sum: U32)
    requires size <= 2 * |ws| <= size + 1 && at + 2 * |ws| <= mem.Length
    requires start + 0xffff * |ws| < 0x1_0000_0000
    requires forall k :: 0 <= k < |ws| ==>
               ws[k] == if 2 * k == skip then 0 else Pair(mem[at + 2 * k], mem[at + 2 * k + 1])
    ensures sum == start + TotalTo(ws, |ws|)
  {
    sum := start;
    var i := 0;
    ghost var k := 0;
    while i < size
      invariant i == 2 * k && 0 <= k <= |ws|
      invariant sum == start + TotalTo(ws, k)
    {
      TotalBound(ws, k);
      assert k < |ws| && TotalTo(ws, k + 1) == TotalTo(ws, k) + ws[k];
      if i != skip {
        sum := sum + Pair(mem[at + i], mem[at + i + 1]);
      }
      i := i + 2;
      k := k + 1;
    }
  }

  /** The folding loop shared by both checksum routines, and the final complement. */
  method FoldedComplement(total: U32) returns (c: Word)
    ensures c == 0xffff - Fold(total)
  {
    var sum := total;
    while sum / 0x1_0000 != 0
      invariant Fold(sum) == Fold(total)
      decreases sum
    {
      sum := sum % 0x1_0000 + sum / 0x1_0000;
    }
    c := 0xffff - sum;
  }

  /** The words under the checksum of a header of `n` bytes, its own field included. A
      header of less than 12 bytes, which nothing refuses, ends before that field, which
      then counts with it. */
  function CheckedWords(p: seq<Byte>, n: nat): seq<Word>
    requires n <= |p| && |p| >= 20
  {
    if n < 12 then Words(p[..n]) + [StoredChecksum(p)] else Words(p[..n])
  }

  /** Where the checksum field is among them. */
  function FieldIndex(n: nat): nat {
    if n < 12 then n / 2 else CHECKSUM_WORD
  }

  lemma HeaderWordAt(p: seq<Byte>, n: nat, j: nat)
    requires 2 * j + 2 <= n <= |p|
    ensures j < |Words(p[..n])| && Words(p[..n])[j] == Load16(p, 2 * j)
  {
    assert Words(p[..n])[j] == WordAt(p[..n], j);
  }

  lemma CheckedChecksum(p: seq<Byte>, n: nat)
    requires n % 2 == 0 && n <= |p| && |p| >= 20
    ensures FieldIndex(n) < |CheckedWords(p, n)| && CheckedWords(p, n)[FieldIndex(n)] == StoredChecksum(p)
    ensures Checksum(SummedWords(p, n)) == Checksum(CheckedWords(p, n)[FieldIndex(n) := 0])
  {
    if n < 12 {
      AppendedWord(Words(p[..n]), StoredChecksum(p));
    } else {
      HeaderWordAt(p, n, CHECKSUM_WORD);
    }
  }

  lemma AppendedWord(ws: seq<Word>, field: Word)
    ensures Checksum((ws + [field])[|ws| := 0]) == Checksum(ws)
  {
    assert (ws + [field])[|ws| := 0] == ws + [0];
    TotalConcat(ws, [0], 1);
    assert TotalTo([0], 1) == 0;
    SumIsCanon(ws + [0], |ws| + 1);
    SumIsCanon(ws, |ws|);
  }

  /** The acceptance test of received packets, exactly, for every header length. */
  lemma AcceptedHeaders(p: seq<Byte>)
    requires |p| >= 20 && HeaderBytes(p) <= |p|
    ensures var ws, i := CheckedWords(p, HeaderBytes(p)), FieldIndex(HeaderBytes(p));
            HeaderChecksum(p) == StoredChecksum(p) <==>
              && Sum(ws) == 0xffff
              && (StoredChecksum(p) == 0xffff ==> forall j :: 0 <= j < |ws| && j != i ==> ws[j] == 0)
  {
    var n := HeaderBytes(p);
    CheckedChecksum(p, n);
    AcceptanceTest(CheckedWords(p, n), FieldIndex(n));
  }

  /** Overwriting one 16-bit word, other than the checksum, of an accepted header is
      detected unless it swaps the two zeros (and some third word is not zero). For the
      first word, which holds the header length, see FirstWordChange. */
  lemma CorruptionDetected(p: seq<Byte>, j: nat, w: Word)
    requires |p| >= 20 && HeaderBytes(p) <= |p|
    requires 0 < j && 2 * j + 2 <= HeaderBytes(p) && j != CHECKSUM_WORD && w != Load16(p, 2 * j)
    requires HeaderChecksum(p) == StoredChecksum(p)
    ensures var q := Store16(p, 2 * j, w);
            && HeaderBytes(q) == HeaderBytes(p) && StoredChecksum(q) == StoredChecksum(p)
            && (HeaderChecksum(q) == StoredChecksum(q) <==> SwapsZeros(p, HeaderBytes(p), j, w))
  {
    WordChange(p, HeaderBytes(p), j, w);
    CheckedWordStored(p, HeaderBytes(p), j, w);
  }

  predicate SwapsZeros(p: seq<Byte>, n: nat, j: nat, w: Word)
    requires |p| >= 20 && 2 * j + 2 <= n <= |p|
  {
    var ws := CheckedWords(p, n);
    OppositeZeros(w, Load16(p, 2 * j)) && exists k :: 0 <= k < |ws| && k != FieldIndex(n) && k != j && ws[k] != 0
  }

  lemma WordChange(p: seq<Byte>, n: nat, j: nat, w: Word)
    requires |p| >= 20 && n % 2 == 0 && 0 < j && 2 * j + 2 <= n <= |p| && j != CHECKSUM_WORD && w != Load16(p, 2 * j)
    requires Checksum(SummedWords(p, n)) == StoredChecksum(p)
    ensures Checksum(SummedWords(Store16(p, 2 * j, w), n)) == StoredChecksum(p) <==> SwapsZeros(p, n, j, w)
  {
    CheckedWordStored(p, n, j, w);
    CheckedChecksum(p, n);
    CheckedChecksum(Store16(p, 2 * j, w), n);
    SingleWordChange(CheckedWords(p, n), FieldIndex(n), j, w);
  }

  /** Storing an aligned word changes that word of the word list and no other. */
  lemma StoreWord(p: seq<Byte>, n: nat, j: nat, w: Word)
    requires 2 * j + 2 <= n <= |p|
    ensures Words(Store16(p, 2 * j, w)[..n]) == Words(p[..n])[j := w]
  {
    var ws, us := Words(Store16(p, 2 * j, w)[..n]), Words(p[..n]);
    forall k | 0 <= k < |ws| ensures ws[k] == us[j := w][k] {
      assert 2 * k != 2 * j + 1;
    }
  }

  lemma CheckedWordStored(p: seq<Byte>, n: nat, j: nat, w: Word)
    requires |p| >= 20 && n % 2 == 0 && 0 < j && 2 * j + 2 <= n <= |p| && j != CHECKSUM_WORD
    ensures var q := Store16(p, 2 * j, w);
            && HeaderBytes(q) == HeaderBytes(p) && StoredChecksum(q) == StoredChecksum(p)
            && j < |CheckedWords(p, n)| && j != FieldIndex(n) && CheckedWords(p, n)[j] == Load16(p, 2 * j)
            && CheckedWords(q, n) == CheckedWords(p, n)[j := w]
  {
    StoreWord(p, n, j, w);
    HeaderWordAt(p, n, j);
  }

  /** The total of the words that a header of `n` instead of `m` words gains; less than
      zero if it loses them. */
  function Gained(p: seq<Byte>, m: nat, n: nat): int
    requires 2 * m <= |p| && 2 * n <= |p|
  {
    if m <= n then Total(SummedWords(p, 2 * n)[m..]) as int else -(Total(SummedWords(p, 2 * m)[n..]) as int)
  }

  /** A change of the first word by `d` and the words gained or lost cancel out modulo
      0xffff; no header at all is like no other. */
  predicate CancelsOut(p: seq<Byte>, m: nat, n: nat, d: int)
    requires 2 * m <= |p| && 2 * n <= |p|
  {
    if m == 0 || n == 0 then m == n else (d + Gained(p, m, n)) % 0xffff == 0
  }

  /** Overwriting the first word, which holds the header length, of an accepted header goes
      unnoticed exactly when the change of the word and the words that the header so gains
      or loses cancel out. */
  lemma FirstWordChange(p: seq<Byte>, w: Word)
    requires |p| >= 20 && HeaderBytes(p) <= |p| && HeaderBytes(Store16(p, 0, w)) <= |p|
    requires HeaderChecksum(p) == StoredChecksum(p)
    ensures var q := Store16(p, 0, w);
            && StoredChecksum(q) == StoredChecksum(p)
            && (HeaderChecksum(q) == StoredChecksum(q) <==>
                  CancelsOut(p, 2 * HeaderLen(p), 2 * HeaderLen(q), w - Load16(p, 0)))
  {
    var q := Store16(p, 0, w);
    FirstWordBytes(p, w);
    ChangedChecksum(p, 2 * HeaderLen(p), 2 * HeaderLen(q), w);
  }

  lemma FirstWordBytes(p: seq<Byte>, w: Word)
    requires |p| >= 20
    ensures var q := Store16(p, 0, w);
            && StoredChecksum(q) == StoredChecksum(p)
            && (HeaderBytes(p) > 0 ==> Load16(p, 0) > 0) && (HeaderBytes(q) > 0 ==> w > 0)
  {
  }

  lemma ChangedChecksum(p: seq<Byte>, m: nat, n: nat, w: Word)
    requires 20 <= |p| && 2 * m <= |p| && 2 * n <= |p|
    requires (m > 0 ==> Load16(p, 0) > 0) && (n > 0 ==> w > 0)
    ensures Checksum(SummedWords(p, 2 * m)) == Checksum(SummedWords(Store16(p, 0, w), 2 * n)) <==>
              CancelsOut(p, m, n, w - Load16(p, 0))
  {
    var before, after := SummedWords(p, 2 * m), SummedWords(Store16(p, 0, w), 2 * n);
    PositiveTotal(p, m);
    PositiveTotal(Store16(p, 0, w), n);
    if m > 0 && n > 0 {
      FirstWordTotal(p, 2 * n, w);
      GainedTotal(p, m, n);
      SameChecksum(before, after, w - Load16(p, 0) + Gained(p, m, n));
    } else {
      ZeroChecksum(before);
      ZeroChecksum(after);
    }
  }

  lemma PositiveTotal(p: seq<Byte>, n: nat)
    requires 20 <= |p| && 2 * n <= |p| && (n > 0 ==> Load16(p, 0) > 0)
    ensures Total(SummedWords(p, 2 * n)) > 0 <==> n > 0
  {
    if n > 0 {
      HeaderWordAt(p, 2 * n, 0);
      NonzeroTotal(SummedWords(p, 2 * n));
    }
  }

  lemma NonzeroTotal(ws: seq<Word>)
    requires |ws| > 0 && ws[0] > 0
    ensures Total(ws) > 0
  {
    TotalBound(ws, |ws|);
  }

  lemma FirstWordTotal(p: seq<Byte>, n: nat, w: Word)
    requires 2 <= n <= |p|
    ensures Total(SummedWords(Store16(p, 0, w), n)) == Total(SummedWords(p, n)) + w - Load16(p, 0)
  {
    StoreWord(p, n, 0, w);
    HeaderWordAt(p, n, 0);
    NewFirstWord(Words(p[..n]), w);
  }

  lemma NewFirstWord(ws: seq<Word>, w: Word)
    requires |ws| > 0
    ensures Total(ZeroWord(ws[0 := w], CHECKSUM_WORD)) == Total(ZeroWord(ws, CHECKSUM_WORD)) + w - ws[0]
  {
    assert ZeroWord(ws[0 := w], CHECKSUM_WORD) == ZeroWord(ws, CHECKSUM_WORD)[0 := w];
    TotalUpdate(ZeroWord(ws, CHECKSUM_WORD), |ws|, 0, w);
  }

  lemma GainedTotal(p: seq<Byte>, m: nat, n: nat)
    requires 2 * m <= |p| && 2 * n <= |p|
    ensures Total(SummedWords(p, 2 * n)) == Total(SummedWords(p, 2 * m)) + Gained(p, m, n)
  {
    if m <= n {
      LongerTotal(p, m, n);
    } else {
      LongerTotal(p, n, m);
    }
  }

  lemma LongerTotal(p: seq<Byte>, m: nat, n: nat)
    requires m <= n && 2 * n <= |p|
    ensures Total(SummedWords(p, 2 * n)) == Total(SummedWords(p, 2 * m)) + Total(SummedWords(p, 2 * n)[m..])
  {
    FirstWordsSame(p, m, n);
    SplitTotal(SummedWords(p, 2 * n), m);
  }

  lemma SplitTotal(ws: seq<Word>, m: nat)
    requires m <= |ws|
    ensures Total(ws) == Total(ws[..m]) + Total(ws[m..])
  {
    assert ws == ws[..m] + ws[m..];
    TotalConcat(ws[..m], ws[m..], |ws| - m);
  }

  lemma FirstWordsSame(p: seq<Byte>, m: nat, n: nat)
    requires m <= n && 2 * n <= |p|
    ensures |SummedWords(p, 2 * m)| == m && |SummedWords(p, 2 * n)| == n
    ensures SummedWords(p, 2 * m) == SummedWords(p, 2 * n)[..m]
  {
    forall j: nat | j < m ensures SummedWords(p, 2 * m)[j] == SummedWords(p, 2 * n)[j] {
      HeaderWordAt(p, 2 * m, j);
      HeaderWordAt(p, 2 * n, j);
    }
  }

  lemma SealedAccepted(p: seq<Byte>)
    requires |p| >= 20 && 12 <= HeaderBytes(p) <= |p|
    ensures var a := Store16(p, 10, HeaderChecksum(p));
            HeaderBytes(a) == HeaderBytes(p) && HeaderChecksum(a) == StoredChecksum(a) == HeaderChecksum(p)
  {
    var a, n := Store16(p, 10, HeaderChecksum(p)), HeaderBytes(p);
    StoreWord(p, n, CHECKSUM_WORD, HeaderChecksum(p));
    assert SummedWords(a, n) == SummedWords(p, n);
  }

  /** An error that also shortens the header can pass: a first byte that becomes, say, 0x44
      instead of 0x45 drops the destination address, which here makes up for it. */
  lemma ShorterHeaderAccepted(p: seq<Byte>, w: Word)
    requires |p| >= 20 && HeaderLen(p) == 5 && w == Load16(p, 0) - 0x100 && Load16(p, 16) + Load16(p, 18) == 0xfeff
    ensures var a := Store16(p, 10, HeaderChecksum(p));
            && HeaderLen(a) == 5 && HeaderChecksum(a) == StoredChecksum(a)
            && HeaderLen(Store16(a, 0, w)) == 4 && HeaderChecksum(Store16(a, 0, w)) == StoredChecksum(a)
  {
    SealedAccepted(p);
    Shortened(Store16(p, 10, HeaderChecksum(p)), w);
  }

  lemma Shortened(p: seq<Byte>, w: Word)
    requires |p| >= 20 && HeaderLen(p) == 5 && HeaderChecksum(p) == StoredChecksum(p)
    requires w == Load16(p, 0) - 0x100 && Load16(p, 16) + Load16(p, 18) == 0xfeff
    ensures HeaderLen(Store16(p, 0, w)) == 4 && HeaderChecksum(Store16(p, 0, w)) == StoredChecksum(p)
  {
    OneWordShorter(p, w);
    FirstWordChange(p, w);
    LastWords(p, 8);
    assert CancelsOut(p, 10, 8, -0x100);
  }

  lemma OneWordShorter(p: seq<Byte>, w: Word)
    requires |p| >= 20 && HeaderLen(p) == 5 && w == Load16(p, 0) - 0x100
    ensures HeaderLen(Store16(p, 0, w)) == 4
  {
    assert w / 0x100 == p[0] - 1;
  }

  lemma LastWords(p: seq<Byte>, j: nat)
    requires CHECKSUM_WORD < j && 2 * j + 4 <= |p|
    ensures Gained(p, j + 2, j) == -(Load16(p, 2 * j) + Load16(p, 2 * j + 2))
  {
    var tail := SummedWords(p, 2 * (j + 2))[j..];
    HeaderWordAt(p, 2 * (j + 2), j);
    HeaderWordAt(p, 2 * (j + 2), j + 1);
    assert TotalTo(tail, 1) == tail[0];
  }
}
