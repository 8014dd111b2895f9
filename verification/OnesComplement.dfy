/** The Internet checksum's arithmetic: section 2 of RFC 1071. */
module OnesComplement {
  import opened Bytes

  /** Ones'-complement addition of two words: a carry out of the top is added back in. */
  function Add(a: Word, b: Word): Word {
    if a + b > 0xffff then a + b - 0xffff else a + b
  }

  /** The first `k` words added one by one, each carry taken at once. */
  function SumTo(ws: seq<Word>, k: nat): Word
    requires k <= |ws|
  {
    if k == 0 then 0 else Add(SumTo(ws, k - 1), ws[k - 1])
  }

  function Sum(ws: seq<Word>): Word {
    SumTo(ws, |ws|)
  }

  /** The checksum to be stored: the complement of the sum. */
  function Checksum(ws: seq<Word>): Word {
    0xffff - Sum(ws)
  }

  /** The first `k` words added as plain numbers, every carry deferred. */
  function TotalTo(ws: seq<Word>, k: nat): nat
    requires k <= |ws|
  {
    if k == 0 then 0 else TotalTo(ws, k - 1) + ws[k - 1]
  }

  function Total(ws: seq<Word>): nat {
    TotalTo(ws, |ws|)
  }

  /** One folding round adds the upper half of the sum to the lower half. */
  function FoldOnce(sum: nat): nat {
    sum % 0x1_0000 + sum / 0x1_0000
  }

  function Fold(sum: nat): Word {
    if sum < 0x1_0000 then sum else Fold(FoldOnce(sum))
  }

  function FoldRounds(sum: nat): nat {
    if sum < 0x1_0000 then 0 else 1 + FoldRounds(FoldOnce(sum))
  }

  /** The representative of `x` modulo 0xffff that is zero only for zero. */
  function Canon(x: nat): Word {
    if x == 0 then 0 else (x - 1) % 0xffff + 1
  }

  lemma {:induction false} FoldIsCanon(sum: nat)
    ensures Fold(sum) == Canon(sum)
    decreases sum
  {
    if sum >= 0x1_0000 {
      FoldIsCanon(FoldOnce(sum));
      var h, l := sum / 0x1_0000, sum % 0x1_0000;
      assert sum - 1 == (h + l - 1) + h * 0xffff;
      ModShift(h + l - 1, h);
    }
  }

  lemma ModShift(a: int, h: int)
    ensures (a + h * 0xffff) % 0xffff == a % 0xffff
  {
  }

  lemma {:induction false} SumIsCanon(ws: seq<Word>, k: nat)
    requires k <= |ws|
    ensures SumTo(ws, k) == Canon(TotalTo(ws, k))
  {
    if k > 0 {
      SumIsCanon(ws, k - 1);
      CanonAdd(TotalTo(ws, k - 1), ws[k - 1]);
    }
  }

  lemma CanonAdd(x: nat, w: Word)
    ensures Add(Canon(x), w) == Canon(x + w)
  {
    if x > 0 {
      var q, r := (x - 1) / 0xffff, (x - 1) % 0xffff;
      assert x + w - 1 == (r + w) + q * 0xffff;
      ModShift(r + w, q);
    }
  }

  /** Folding once at the end gives what adding the words with end-around carry gives. */
  lemma DeferredCarries(ws: seq<Word>)
    ensures Fold(TotalTo(ws, |ws|)) == Sum(ws)
  {
    FoldIsCanon(TotalTo(ws, |ws|));
    SumIsCanon(ws, |ws|);
  }

  lemma TwoFoldsSuffice(sum: U32)
    ensures FoldRounds(sum) <= 2
  {
    if sum >= 0x1_0000 {
      var once := FoldOnce(sum);
      assert once <= 0x1_fffe;
      if once >= 0x1_0000 {
        assert FoldOnce(once) < 0x1_0000;
        assert FoldRounds(FoldOnce(once)) == 0;
      }
    }
  }

  lemma {:induction false} TotalBound(ws: seq<Word>, k: nat)
    requires k <= |ws|
    ensures TotalTo(ws, k) <= 0xffff * k
    ensures forall i :: 0 <= i < k ==> ws[i] <= TotalTo(ws, k)
  {
    if k > 0 {
      TotalBound(ws, k - 1);
    }
  }

  lemma {:induction false} TotalUpdate(ws: seq<Word>, k: nat, i: nat, w: Word)
    requires k <= |ws| && i < |ws|
    ensures TotalTo(ws[i := w], k) == TotalTo(ws, k) + (if i < k then w - ws[i] else 0)
  {
    if k > 0 {
      TotalUpdate(ws, k - 1, i, w);
    }
  }

  lemma {:induction false} TotalConcat(a: seq<Word>, b: seq<Word>, k: nat)
    requires k <= |b|
    ensures TotalTo(a + b, |a| + k) == TotalTo(a, |a|) + TotalTo(b, k)
  {
    if k > 0 {
      TotalConcat(a, b, k - 1);
    } else {
      TotalPrefix(a, b, |a|);
    }
  }

  lemma {:induction false} TotalPrefix(a: seq<Word>, b: seq<Word>, k: nat)
    requires k <= |a|
    ensures TotalTo(a + b, k) == TotalTo(a, k)
  {
    if k > 0 {
      TotalPrefix(a, b, k - 1);
    }
  }

  lemma {:induction false} TotalZero(ws: seq<Word>, k: nat)
    requires k <= |ws|
    ensures TotalTo(ws, k) == 0 <==> forall i :: 0 <= i < k ==> ws[i] == 0
  {
    if k > 0 {
      TotalZero(ws, k - 1);
    }
  }

  /** A receiver's test, exactly: comparing the stored word `ws[i]` with a recomputed
      checksum accepts just when the whole sums to 0xffff and the stored word is not
      the alternative zero 0xffff, save that 0xffff is right when all else is zero. */
  lemma AcceptanceTest(ws: seq<Word>, i: nat)
    requires i < |ws|
    ensures Checksum(ws[i := 0]) == ws[i] <==>
              && Sum(ws) == 0xffff
              && (ws[i] == 0xffff ==> forall j :: 0 <= j < |ws| && j != i ==> ws[j] == 0)
  {
    var rest := ws[i := 0];
    SumIsCanon(ws, |ws|);
    SumIsCanon(rest, |ws|);
    TotalUpdate(ws, |ws|, i, 0);
    TotalZero(rest, |ws|);
    CanonComplement(TotalTo(rest, |ws|), ws[i]);
    assert forall j :: 0 <= j < |ws| && j != i ==> rest[j] == ws[j];
  }

  lemma CanonComplement(others: nat, field: Word)
    ensures 0xffff - Canon(others) == field <==>
            Canon(others + field) == 0xffff && (field == 0xffff ==> others == 0)
  {
    if others > 0 {
      var q, r := (others - 1) / 0xffff, (others - 1) % 0xffff;
      assert others + field - 1 == (r + field) + q * 0xffff;
      ModShift(r + field, q);
    }
  }

  /** Ones' complement has two zeros. */
  predicate OppositeZeros(a: Word, b: Word) {
    (a == 0 && b == 0xffff) || (a == 0xffff && b == 0)
  }

  /** Changing one word other than the stored one goes unnoticed exactly when it swaps
      the two zeros and some third word is not zero. */
  lemma SingleWordChange(ws: seq<Word>, i: nat, j: nat, w: Word)
    requires i < |ws| && j < |ws| && i != j && w != ws[j]
    requires Checksum(ws[i := 0]) == ws[i]
    ensures Checksum(ws[j := w][i := 0]) == ws[i] <==>
              && OppositeZeros(w, ws[j])
              && exists k :: 0 <= k < |ws| && k != i && k != j && ws[k] != 0
  {
    var rest := ws[i := 0];
    assert ws[j := w][i := 0] == rest[j := w];
    SumChange(rest, j, w);
    if k :| 0 <= k < |ws| && k != i && k != j && ws[k] != 0 {
      assert rest[k] != 0;
    }
  }

  lemma SumChange(ws: seq<Word>, j: nat, w: Word)
    requires j < |ws| && w != ws[j]
    ensures Sum(ws[j := w]) == Sum(ws) <==>
              OppositeZeros(w, ws[j]) && exists k :: 0 <= k < |ws| && k != j && ws[k] != 0
  {
    SumIsCanon(ws, |ws|);
    SumIsCanon(ws[j := w], |ws|);
    TotalUpdate(ws, |ws|, j, w);
    TotalUpdate(ws, |ws|, j, 0);
    TotalZero(ws[j := 0], |ws|);
    assert forall k :: 0 <= k < |ws| && k != j ==> ws[j := 0][k] == ws[k];
    CanonEqual(TotalTo(ws[j := 0], |ws|), ws[j], w);
  }

  lemma CanonEqual(base: nat, a: Word, b: Word)
    requires a != b
    ensures Canon(base + a) == Canon(base + b) <==> OppositeZeros(a, b) && base > 0
  {
    if OppositeZeros(a, b) {
      if base > 0 {
        ModShift(base - 1, 1);
      }
    } else {
      if base + a > 0 && base + b > 0 && Canon(base + a) == Canon(base + b) {
        var lo, hi := if a < b then a else b, if a < b then b else a;
        assert (base + lo - 1) % 0xffff == (base + hi - 1) % 0xffff;
        assert hi - lo < 0xffff;
        ModApart(base + lo - 1, hi - lo);
      }
    }
  }

  lemma ModApart(x: nat, d: nat)
    requires 0 < d < 0xffff
    ensures x % 0xffff != (x + d) % 0xffff
  {
  }

  lemma CanonCongruent(x: nat, y: nat)
    requires x > 0 && y > 0
    ensures Canon(x) == Canon(y) <==> (y - x) % 0xffff == 0
  {
    var q, r := (x - 1) / 0xffff, (x - 1) % 0xffff;
    var u, v := (y - 1) / 0xffff, (y - 1) % 0xffff;
    assert y - x == (v - r) + (u - q) * 0xffff;
    ModShift(v - r, u - q);
  }

  /** Two word lists, not all zero, have one checksum exactly when their totals are
      congruent modulo 0xffff; the checksum 0xffff is that of zeros only. */
  lemma SameChecksum(ws: seq<Word>, us: seq<Word>, d: int)
    requires Total(ws) > 0 && Total(us) == Total(ws) + d > 0
    ensures Checksum(ws) == Checksum(us) <==> d % 0xffff == 0
  {
    SumIsCanon(ws, |ws|);
    SumIsCanon(us, |us|);
    CanonCongruent(Total(ws), Total(us));
  }

  lemma ZeroChecksum(ws: seq<Word>)
    ensures Checksum(ws) == 0xffff <==> Total(ws) == 0
  {
    SumIsCanon(ws, |ws|);
  }

  /** Storing the checksum makes the whole sum to 0xffff. */
  lemma StoredChecksumVerifies(ws: seq<Word>, i: nat)
    requires i < |ws| && ws[i] == Checksum(ws[i := 0])
    ensures Sum(ws) == 0xffff
  {
    AcceptanceTest(ws, i);
  }
}
