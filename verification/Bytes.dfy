/** Fixed-width integers and the big-endian layout of 16-bit words in byte strings. */
module Bytes {

  type Byte = x: int | 0 <= x < 0x100
  type Word = x: int | 0 <= x < 0x1_0000
  type U32 = x: int | 0 <= x < 0x1_0000_0000

  /** An IPv4 address, in network byte order. */
  type Address = a: seq<Byte> | |a| == 4 witness [0, 0, 0, 0]

  function Pair(high: Byte, low: Byte): Word {
    0x100 * (high as int) + low as int
  }

  function Load16(p: seq<Byte>, i: nat): Word
    requires i + 2 <= |p|
  {
    Pair(p[i], p[i + 1])
  }

  function Big16(v: Word): seq<Byte> {
    [v / 0x100, v % 0x100]
  }

  /** `p` with the big-endian word `v` written at offset `i`. */
  function Store16(p: seq<Byte>, i: nat, v: Word): (q: seq<Byte>)
    requires i + 2 <= |p|
    ensures |q| == |p| && q[i] == v / 0x100 && q[i + 1] == v % 0x100
    ensures forall j {:trigger q[j]} :: 0 <= j < |p| && j != i && j != i + 1 ==> q[j] == p[j]
  {
    p[i := v / 0x100][i + 1 := v % 0x100]
  }

  function StoreAddress(p: seq<Byte>, i: nat, a: Address): (q: seq<Byte>)
    requires i + 4 <= |p|
    ensures |q| == |p| && q[i..i + 4] == a
    ensures forall j {:trigger q[j]} :: 0 <= j < |p| && !(i <= j < i + 4) ==> q[j] == p[j]
  {
    p[i := a[0]][i + 1 := a[1]][i + 2 := a[2]][i + 3 := a[3]]
  }

  /** The 16-bit words of a byte string; an odd last byte is padded on the right with zero. */
  function Words(d: seq<Byte>): (ws: seq<Word>)
    ensures |ws| == (|d| + 1) / 2
    ensures forall k :: 0 <= k < |ws| ==> ws[k] == WordAt(d, k)
  {
    FirstWords(d, (|d| + 1) / 2)
  }

  function WordAt(d: seq<Byte>, k: nat): Word
    requires 2 * k < |d|
  {
    Pair(d[2 * k], if 2 * k + 1 < |d| then d[2 * k + 1] else 0)
  }

  function FirstWords(d: seq<Byte>, n: nat): (ws: seq<Word>)
    requires 2 * n <= |d| + 1
    ensures |ws| == n
    ensures forall k :: 0 <= k < n ==> ws[k] == WordAt(d, k)
  {
    if n == 0 then [] else FirstWords(d, n - 1) + [WordAt(d, n - 1)]
  }
}
