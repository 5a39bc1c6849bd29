/**
 The second half of jpeg_gen_optimal_table (jchuff.c): code lengths above 16 are removed by the method of section K.2
 of ITU-T T.81, one slot of the longest length is reserved, and the table is filled in.
 */
module LimitedTable {
  import opened Bits
  import opened Wrappers
  import opened HuffmanTables
  import opened CodeLengths
  import opened HuffmanProcedure

  const MAX_CLEN := 32

  // ----- Counts of lengths

  type LengthCounts = b: seq<nat> | |b| == MAX_CLEN + 1 witness seq(33, _ => 0)

  /** The Kraft sum of the lengths up to i, in units of 2^-i. */
  function Filled(bits: seq<nat>, i: nat): nat
    requires i < |bits|
  {
    if i == 0 then bits[0] else 2 * Filled(bits, i - 1) + bits[i]
  }

  function Total(bits: seq<nat>, n: nat): nat
    requires n <= |bits|
  {
    if n == 0 then 0 else Total(bits, n - 1) + bits[n - 1]
  }

  lemma {:induction false} FilledUpdate(bits: seq<nat>, k: nat, x: nat, i: nat)
    requires i < |bits| && k < |bits|
    ensures Filled(bits[k := x], i) == Filled(bits, i) + if k <= i then Shl(x - bits[k], i - k) else 0
  {
    if i > 0 {
      FilledUpdate(bits, k, x, i - 1);
    }
  }

  lemma {:induction false} TotalUpdate(bits: seq<nat>, k: nat, x: nat, n: nat)
    requires n <= |bits| && k < |bits|
    ensures Total(bits[k := x], n) == Total(bits, n) + if k < n then x - bits[k] else 0
  {
    if n > 0 {
      TotalUpdate(bits, k, x, n - 1);
    }
  }

  lemma {:induction false} AtMostTotal(bits: seq<nat>, k: nat, n: nat)
    requires k < n <= |bits|
    ensures bits[k] <= Total(bits, n)
    ensures forall j :: 0 <= j < n && j != k ==> bits[k] + bits[j] <= Total(bits, n)
  {
    if k < n - 1 {
      AtMostTotal(bits, k, n - 1);
    } else {
      forall j | 0 <= j < n - 1 ensures bits[k] + bits[j] <= Total(bits, n) { AtMostTotal(bits, j, n - 1); }
    }
  }

  /** Nothing is longer than i, and the lengths up to i make a complete code of n symbols. */
  ghost predicate Complete(bits: LengthCounts, i: nat, n: nat) {
    && i <= MAX_CLEN && bits[0] == 0 && n <= SYMBOLS
    && (forall k :: i < k <= MAX_CLEN ==> bits[k] == 0)
    && Filled(bits, i) == Pow2(i) && Total(bits, MAX_CLEN + 1) == n
  }

  lemma Shorter(bits: LengthCounts, i: nat, n: nat)
    requires Complete(bits, i, n) && i > 0 && bits[i] == 0
    ensures Complete(bits, i - 1, n)
  {
    assert Pow2(i) == 2 * Pow2(i - 1);
  }

  lemma {:induction false} FilledZero(bits: seq<nat>, i: nat)
    requires i < |bits| && forall k :: 0 <= k <= i ==> bits[k] == 0
    ensures Filled(bits, i) == 0
  {
    if i > 0 {
      FilledZero(bits, i - 1);
    }
  }

  /** Codes of the greatest length come in pairs, and some code is shorter by two at least. */
  lemma PairsAtTop(bits: LengthCounts, i: nat, n: nat)
    requires Complete(bits, i, n) && 16 < i && bits[i] > 0
    ensures bits[i] >= 2
    ensures exists j :: 1 <= j <= i - 2 && bits[j] > 0
  {
    hide Pow2;
    PowersUp(i);
    AtMostTotal(bits, i, MAX_CLEN + 1);
    assert bits[i] + bits[i - 1] <= SYMBOLS;
    if forall j :: 1 <= j <= i - 2 ==> bits[j] == 0 {
      FilledTopTwo(bits, i);
    }
  }

  lemma FilledTopTwo(bits: LengthCounts, i: nat)
    requires 2 <= i <= MAX_CLEN && bits[0] == 0 && forall j :: 1 <= j <= i - 2 ==> bits[j] == 0
    ensures Filled(bits, i) == 2 * bits[i - 1] + bits[i]
  {
    FilledZero(bits, i - 2);
    assert Filled(bits, i) == 2 * (2 * Filled(bits, i - 2) + bits[i - 1]) + bits[i];
  }

  lemma PowersUp(i: nat)
    requires 16 < i
    ensures Pow2(i) == 2 * Pow2(i - 1) && Pow2(i) >= 65536
  {
    PowerBelow(16, i);
    assert Pow2(8) == 256;
    assert Pow2(12) == 16 * Pow2(8);
    assert Pow2(16) == 16 * Pow2(12);
  }

  /** The adjustment of section K.2: of the pair that is removed, one goes one bit up, and the other splits a code. */
  function Adjusted(bits: LengthCounts, i: nat, j: nat): LengthCounts
    requires 16 < i <= MAX_CLEN && 1 <= j <= i - 2 && bits[i] >= 2 && bits[j] > 0
  {
    var b0 := bits[i := bits[i] - 2];
    var b1 := b0[i - 1 := b0[i - 1] + 1];
    var b2 := b1[j + 1 := b1[j + 1] + 2];
    b2[j := b2[j] - 1]
  }

  lemma ShiftsCancel(n: nat)
    ensures Shl(2, n) + Shl(-1, n + 1) == 0
    ensures Shl(-2, 0) + Shl(1, 1) == 0
  {
    ShlPow2(2, n);
    ShlPow2(-1, n + 1);
  }

  lemma AdjustedComplete(bits: LengthCounts, i: nat, j: nat, n: nat)
    requires Complete(bits, i, n) && 16 < i && 1 <= j <= i - 2 && bits[i] >= 2 && bits[j] > 0
    ensures Complete(Adjusted(bits, i, j), i, n) && Adjusted(bits, i, j)[i] == bits[i] - 2
  {
    hide Filled, Total, Pow2, Shl;
    var b0 := bits[i := bits[i] - 2];
    var b1 := b0[i - 1 := b0[i - 1] + 1];
    var b2 := b1[j + 1 := b1[j + 1] + 2];
    FilledUpdate(bits, i, bits[i] - 2, i);
    FilledUpdate(b0, i - 1, b0[i - 1] + 1, i);
    FilledUpdate(b1, j + 1, b1[j + 1] + 2, i);
    FilledUpdate(b2, j, b2[j] - 1, i);
    TotalUpdate(bits, i, bits[i] - 2, MAX_CLEN + 1);
    TotalUpdate(b0, i - 1, b0[i - 1] + 1, MAX_CLEN + 1);
    TotalUpdate(b1, j + 1, b1[j + 1] + 2, MAX_CLEN + 1);
    TotalUpdate(b2, j, b2[j] - 1, MAX_CLEN + 1);
    ShiftsCancel(i - (j + 1));
  }

  // ----- How many codes of one length there can be

  /** Nodes of the code tree at depth l that are not leaves. */
  function Open(bits: LengthCounts, l: nat): int
    requires l <= MAX_CLEN
  {
    Pow2(l) - Filled(bits, l)
  }

  function OpenSum(bits: LengthCounts, l: nat): int
    requires l <= MAX_CLEN + 1
  {
    if l == 0 then 0 else OpenSum(bits, l - 1) + Open(bits, l - 1)
  }

  /** Leaves and open nodes down to depth l are one more than the inner nodes above. */
  lemma {:induction false} LeavesAndNodes(bits: LengthCounts, l: nat)
    requires l <= MAX_CLEN && bits[0] == 0
    ensures Total(bits, l + 1) + Open(bits, l) == 1 + OpenSum(bits, l)
  {
    if l == 0 {
      assert Total(bits, 1) == Total(bits, 0) + bits[0];
    } else {
      LeavesAndNodes(bits, l - 1);
      OpenStep(bits, l);
    }
  }

  lemma OpenStep(bits: LengthCounts, l: nat)
    requires 1 <= l <= MAX_CLEN
    ensures Open(bits, l) == 2 * Open(bits, l - 1) - bits[l]
  {
  }

  /** Above an open node there is one at every depth. */
  lemma {:induction false} OpenAbove(bits: LengthCounts, l: nat)
    requires l <= MAX_CLEN && Open(bits, l) >= 1
    ensures OpenSum(bits, l + 1) >= l + 1
    decreases l
  {
    hide Open;
    if l > 0 {
      OpenStep(bits, l);
      OpenAbove(bits, l - 1);
    }
  }

  /** Many open nodes at depth l have their ancestors above. */
  lemma OpenPath(bits: LengthCounts, l: nat, x: nat)
    requires 7 <= l <= MAX_CLEN && Open(bits, l) >= x && 126 <= x <= 128
    ensures OpenSum(bits, l + 1) >= l - 6 + x + 125 + (if x == 128 then 1 else 0)
  {
    hide Open;
    var s1, s2 := OpenSum(bits, l + 1), OpenSum(bits, l - 2);
    OpenStep(bits, l);
    OpenStep(bits, l - 1);
    OpenStep(bits, l - 2);
    assert s1 == s2 + Open(bits, l - 2) + Open(bits, l - 1) + Open(bits, l);
    OpenStep(bits, l - 3);
    OpenStep(bits, l - 4);
    assert s2 == OpenSum(bits, l - 4) + Open(bits, l - 4) + Open(bits, l - 3);
    OpenStep(bits, l - 5);
    OpenStep(bits, l - 6);
    assert OpenSum(bits, l - 4) == OpenSum(bits, l - 6) + Open(bits, l - 6) + Open(bits, l - 5);
    OpenAbove(bits, l - 7);
  }

  lemma {:induction false} OpenBetween(bits: LengthCounts, l: nat, i: nat)
    requires l <= i <= MAX_CLEN && (i == l || Open(bits, i - 1) >= 1)
    ensures OpenSum(bits, i) >= OpenSum(bits, l) + (i - l)
    decreases i
  {
    hide Open;
    if l < i - 1 {
      OpenStep(bits, i - 1);
      OpenBetween(bits, l, i - 1);
    }
  }

  lemma {:induction false} OpenAtMost(bits: LengthCounts, l: nat)
    requires l <= MAX_CLEN
    ensures Open(bits, l) <= Pow2(l)
  {
  }

  /** With at least 2 * x - 1 codes of length k, the code has at least so many symbols. */
  lemma ManyOfOneLength(bits: LengthCounts, i: nat, n: nat, k: nat, x: nat)
    requires Complete(bits, i, n) && 1 <= k <= i && bits[i] > 0 && bits[k] >= 2 * x - 1 && 126 <= x <= 128
    ensures k >= 8 && n >= 1 + (k - 7 + x + 125 + (if x == 128 then 1 else 0)) + (i - k)
  {
    hide Filled, Total, Pow2;
    CompleteOpen(bits, i, n);
    OpenStep(bits, i);
    if k < i {
      OpenDown(bits, k, i - 1);
    }
    OpenStep(bits, k);
    OpenAtMost(bits, k - 1);
    if k <= 7 {
      PowersSmall(k - 1);
    }
    OpenPath(bits, k - 1, x);
    OpenBetween(bits, k, i);
    LeavesAndNodes(bits, i);
  }

  lemma CompleteOpen(bits: LengthCounts, i: nat, n: nat)
    requires Complete(bits, i, n)
    ensures Open(bits, i) == 0 && Total(bits, i + 1) == n && bits[0] == 0
  {
    hide Filled, Pow2;
    TotalBeyond(bits, i, MAX_CLEN + 1);
  }

  lemma {:induction false} TotalBeyond(bits: LengthCounts, i: nat, m: nat)
    requires i < m <= MAX_CLEN + 1 && forall k :: i < k <= MAX_CLEN ==> bits[k] == 0
    ensures Total(bits, m) == Total(bits, i + 1)
    decreases m
  {
    if m > i + 1 {
      TotalBeyond(bits, i, m - 1);
    }
  }

  lemma {:induction false} OpenDown(bits: LengthCounts, k: nat, l: nat)
    requires k <= l <= MAX_CLEN && Open(bits, l) >= 1
    ensures Open(bits, k) >= 1
    decreases l
  {
    hide Open;
    if k < l {
      OpenStep(bits, l);
      OpenDown(bits, k, l - 1);
    }
  }

  lemma PowersSmall(k: nat)
    requires k <= 6
    ensures Pow2(k) <= 64
  {
    PowerBelow(k, 6);
    assert Pow2(6) == 64;
  }

  /** While a code is longer than 16, the 8-bit counters do not overflow. */
  lemma FewOfEach(bits: LengthCounts, i: nat, n: nat)
    requires Complete(bits, i, n) && 16 < i && bits[i] > 0
    ensures forall k :: 1 <= k <= i ==> bits[k] <= 250
  {
    forall k | 1 <= k <= i
      ensures bits[k] <= 250
    {
      if bits[k] > 250 {
        ManyOfOneLength(bits, i, n, k, 126);
      }
    }
  }

  /** Of two codes of length i one is left, a bit shorter; the other becomes, with a code of length j, two of length j + 1. */
  predicate IsPairMove(was: LengthCounts, now: LengthCounts, i: nat, j: nat) {
    && i <= MAX_CLEN && 1 <= j <= i - 2 && was[j] > 0 && (forall k :: j < k <= i - 2 ==> was[k] == 0)
    && forall k :: 0 <= k <= MAX_CLEN ==>
      now[k] + (if k == i then 2 else 0) + (if k == j then 1 else 0)
      == was[k] + (if k == i - 1 then 1 else 0) + (if k == j + 1 then 2 else 0)
  }

  /** The adjustment takes the greatest length in use that is less than i by two at least. */
  ghost predicate PairMoved(was: LengthCounts, now: LengthCounts, i: nat) {
    exists j: nat :: IsPairMove(was, now, i, j)
  }

  /** One pair of symbols of length i gets shorter, at the cost of a shorter symbol. */
  method AdjustPair(bits: array<byte>, i: nat, ghost n: nat)
    requires bits.Length == MAX_CLEN + 1 && 16 < i <= MAX_CLEN && Complete(bits[..], i, n) && bits[i] > 0
    modifies bits
    ensures Complete(bits[..], i, n) && bits[i] == old(bits[i]) - 2
    ensures PairMoved(old(bits[..]), bits[..], i)
  {
    hide Complete, Filled, Total;
    ghost var was := bits[..];
    PairsAtTop(was, i, n);
    FewOfEach(was, i, n);
    var j: nat := i - 2;
    while bits[j] == 0
      modifies {}
      invariant 0 <= j <= i - 2 && exists k :: 1 <= k <= j && was[k] > 0
      invariant forall k :: j < k <= i - 2 ==> was[k] == 0
      decreases j
    {
      j := j - 1;
    }
    AdjustedComplete(was, i, j, n);
    bits[i] := bits[i] - 2;
    bits[i - 1] := bits[i - 1] + 1;
    bits[j + 1] := bits[j + 1] + 2;
    bits[j] := bits[j] - 1;
    assert bits[..] == Adjusted(was, i, j);
    assert IsPairMove(was, bits[..], i, j);
  }

  predicate NoneAbove16(bits: LengthCounts) {
    forall k :: 16 < k <= MAX_CLEN ==> bits[k] == 0
  }

  predicate IsTop(bits: LengthCounts, i: nat) {
    i <= MAX_CLEN && bits[i] > 0 && forall k :: i < k <= MAX_CLEN ==> bits[k] == 0
  }

  /** Step by step, the greatest length in use loses a pair, as long as it is above 16. */
  ghost predicate AreLimitSteps(tr: seq<LengthCounts>) {
    tr != [] && forall m :: 0 <= m < |tr| - 1 ==> LimitStep(tr[m], tr[m + 1])
  }

  ghost predicate LimitStep(was: LengthCounts, now: LengthCounts) {
    exists i: nat :: 16 < i && IsTop(was, i) && PairMoved(was, now, i)
  }

  lemma TopOfComplete(bits: LengthCounts, i: nat, n: nat)
    requires Complete(bits, i, n) && bits[i] > 0
    ensures IsTop(bits, i)
  {
  }

  /** The loop that removes all lengths above 16; it always finds a shorter code, and never underflows. */
  method LimitLengths(bits: array<byte>, ghost n: nat) returns (ghost tr: seq<LengthCounts>)
    requires bits.Length == MAX_CLEN + 1 && (Complete(bits[..], MAX_CLEN, n) || NoneAbove16(bits[..]))
    modifies bits
    ensures Complete(old(bits[..]), MAX_CLEN, n) ==> Complete(bits[..], 16, n)
    ensures NoneAbove16(old(bits[..])) ==> bits[..] == old(bits[..])
    ensures AreLimitSteps(tr) && tr[0] == old(bits[..]) && tr[|tr| - 1] == bits[..]
  {
    hide Complete, PairMoved, IsTop;
    ghost var was := bits[..];
    tr := [was];
    var i := MAX_CLEN;
    while i > 16
      invariant 16 <= i <= MAX_CLEN && (Complete(was, MAX_CLEN, n) ==> Complete(bits[..], i, n))
      invariant NoneAbove16(was) ==> bits[..] == was
      invariant AreLimitSteps(tr) && tr[0] == was && tr[|tr| - 1] == bits[..]
    {
      while bits[i] > 0
        invariant Complete(was, MAX_CLEN, n) ==> Complete(bits[..], i, n)
        invariant NoneAbove16(was) ==> bits[..] == was
        invariant AreLimitSteps(tr) && tr[0] == was && tr[|tr| - 1] == bits[..]
        decreases bits[i]
      {
        assert was[i] == 0 || Complete(was, MAX_CLEN, n);
        TopOfComplete(bits[..], i, n);
        AdjustPair(bits, i, n);
        assert LimitStep(tr[|tr| - 1], bits[..]);
        tr := tr + [bits[..]];
      }
      if Complete(was, MAX_CLEN, n) {
        Shorter(bits[..], i, n);
      }
      i := i - 1;
    }
  }

  // ----- The pseudo-symbol's slot

  lemma {:induction false} FilledIsNext(bits: LengthCounts, c: Counts, l: nat)
    requires 1 <= l <= 16 && bits[0] == 0 && c == bits[..17]
    ensures Filled(bits, l) == Next(c, l)
    decreases l
  {
    if l > 1 {
      FilledIsNext(bits, c, l - 1);
    } else {
      assert Filled(bits, 0) == 0;
    }
  }

  lemma {:induction false} FilledGrows(bits: LengthCounts, l: nat, m: nat)
    requires l <= m <= 16 && Filled(bits, m) < Pow2(m)
    ensures Filled(bits, l) < Pow2(l)
    decreases m
  {
    if l < m {
      assert Pow2(m) == 2 * Pow2(m - 1);
      FilledGrows(bits, l, m - 1);
    }
  }

  lemma {:induction false} TotalIsOff(bits: LengthCounts, c: Counts, l: nat)
    requires 1 <= l <= 17 && bits[0] == 0 && c == bits[..17]
    ensures Total(bits, l) == Off(c, l)
    decreases l
  {
    if l > 1 {
      TotalIsOff(bits, c, l - 1);
    } else {
      assert Total(bits, 1) == Total(bits, 0) + bits[0];
    }
  }

  lemma {:induction false} TotalTail(bits: LengthCounts, m: nat)
    requires 17 <= m <= MAX_CLEN + 1 && forall k :: 16 < k <= MAX_CLEN ==> bits[k] == 0
    ensures Total(bits, m) == Total(bits, 17)
    decreases m
  {
    if m > 17 {
      TotalTail(bits, m - 1);
    }
  }

  /** With one code less, the counts are those of a table without the code of all ones. */
  lemma ReservedIsValid(bits: LengthCounts, i: nat, n: nat)
    requires Complete(bits, 16, n) && 1 <= i <= 16 && bits[i] > 0
    ensures var c: Counts := bits[i := bits[i] - 1][..17];
      ValidCounts(c) && Size(c) == n - 1
  {
    hide Shl, Total, Off;
    var b := bits[i := bits[i] - 1];
    var c: Counts := b[..17];
    TotalUpdate(bits, i, bits[i] - 1, MAX_CLEN + 1);
    TotalTail(b, MAX_CLEN + 1);
    TotalIsOff(b, c, 17);
    ReservedIsLegal(bits, i, n);
  }

  lemma ReservedIsLegal(bits: LengthCounts, i: nat, n: nat)
    requires Complete(bits, 16, n) && 1 <= i <= 16 && bits[i] > 0
    ensures LegalTree(bits[i := bits[i] - 1][..17])
  {
    hide Shl, Filled, Total, Pow2, Next;
    var b := bits[i := bits[i] - 1];
    FilledUpdate(bits, i, bits[i] - 1, 16);
    ShlPow2(-1, 16 - i);
    forall l | 1 <= l <= 16
      ensures Next(b[..17], l) < Pow2(l)
    {
      FilledGrows(b, l, 16);
      FilledIsNext(b, b[..17], l);
    }
  }

  /** One code less of the greatest length in use. */
  ghost predicate TopReserved(was: LengthCounts, now: LengthCounts) {
    exists i: nat :: IsTop(was, i) && now == was[i := was[i] - 1]
  }

  /**
   The longest length still in use loses one code.  If there is none, the search of the code goes on in front of bits[];
   here it ends with false.
   */
  method ReserveSlot(bits: array<byte>, ghost n: nat) returns (found: bool)
    requires bits.Length == MAX_CLEN + 1 && NoneAbove16(bits[..])
    modifies bits
    ensures found <==> Total(old(bits[..]), MAX_CLEN + 1) > 0
    ensures Complete(old(bits[..]), 16, n) ==> found && ValidCounts(bits[..17]) && Size(bits[..17]) == n - 1
    ensures Total(old(bits[..]), MAX_CLEN + 1) == 1 ==> forall k :: 0 <= k <= MAX_CLEN ==> bits[k] == 0
    ensures found ==> TopReserved(old(bits[..]), bits[..])
  {
    hide Filled, Total, Complete, ValidCounts, Size;
    ghost var was := bits[..];
    var i: nat := 16;
    while bits[i] == 0
      modifies {}
      invariant 0 <= i <= 16 && forall k :: i < k <= 16 ==> was[k] == 0
      decreases i
    {
      if i == 0 {
        TotalZero(was, MAX_CLEN + 1);
        SomeLength(was, n);
        return false;
      }
      i := i - 1;
    }
    AtMostTotal(was, i, MAX_CLEN + 1);
    if Complete(was, 16, n) {
      NoZeroLength(was, n);
      ReservedIsValid(was, i, n);
    }
    bits[i] := bits[i] - 1;
    assert bits[..17] == was[i := was[i] - 1][..17];
    TotalUpdate(was, i, was[i] - 1, MAX_CLEN + 1);
    assert bits[..] == was[i := was[i] - 1];
    ZeroTotal(bits[..]);
    assert IsTop(was, i);
    found := true;
  }

  lemma NoZeroLength(bits: LengthCounts, n: nat)
    requires Complete(bits, 16, n)
    ensures bits[0] == 0
  {
  }

  lemma ZeroTotal(bits: LengthCounts)
    ensures Total(bits, MAX_CLEN + 1) == 0 ==> forall k :: 0 <= k <= MAX_CLEN ==> bits[k] == 0
  {
    forall k | 0 <= k <= MAX_CLEN
      ensures bits[k] <= Total(bits, MAX_CLEN + 1)
    {
      AtMostTotal(bits, k, MAX_CLEN + 1);
    }
  }

  lemma SomeLength(bits: LengthCounts, n: nat)
    ensures Complete(bits, 16, n) ==> exists k :: 1 <= k <= 16 && bits[k] > 0
  {
    if Complete(bits, 16, n) && forall k :: 1 <= k <= 16 ==> bits[k] == 0 {
      FilledZero(bits, 16);
    }
  }

  // ----- From the lengths to their counts

  /** Only whether a length is positive matters for a symbol to be used. */
  lemma {:induction false} UnitsByLength(f: seq<nat>, len: seq<nat>, m: nat, n: nat)
    requires n <= |f| == |len| && Within(f, len, m) && forall i :: 0 <= i < |f| ==> (f[i] > 0 <==> len[i] > 0)
    ensures Within(len, len, m) && Units(len, len, m, n) == Units(f, len, m, n) && Used(len, n) == Used(f, n)
  {
    hide Pow2;
    if n > 0 {
      UnitsByLength(f, len, m, n - 1);
    }
  }

  lemma {:induction false} CompleteInLess(w: seq<nat>, len: seq<nat>, m: nat, k: nat)
    requires k <= m && Within(w, len, k) && Within(w, len, m) && Units(w, len, m, |w|) == Pow2(m)
    ensures Units(w, len, k, |w|) == Pow2(k)
    decreases m
  {
    if k < m {
      UnitsHalve(w, len, m, |w|);
      assert Pow2(m) == 2 * Pow2(m - 1);
      CompleteInLess(w, len, m - 1, k);
    }
  }

  /** In a complete code of two symbols or more, every symbol has a length. */
  lemma UsedHaveLength(f: seq<nat>, len: seq<nat>, i: nat, j: nat)
    requires OptimalLengths(f, len) && i < SYMBOLS && j < SYMBOLS && i != j && f[i] > 0 && f[j] > 0
    ensures len[i] > 0
  {
    hide Units, LowerBound, Cost;
    UnitsOfTwo(f, len, SYMBOLS, SYMBOLS, i, j);
  }

  /** The first n symbols have been counted by length. */
  ghost predicate Counted(len: seq<nat>, n: nat, bits: LengthCounts) {
    && n <= |len| && Within(len, len, MAX_CLEN) && bits[0] == 0
    && Filled(bits, MAX_CLEN) == Units(len, len, MAX_CLEN, n) && Total(bits, MAX_CLEN + 1) == Used(len, n)
  }

  lemma CountOne(len: seq<nat>, n: nat, bits: LengthCounts)
    requires n < |len| && Counted(len, n, bits)
    ensures len[n] == 0 ==> Counted(len, n + 1, bits)
    ensures len[n] > 0 ==> len[n] <= MAX_CLEN && Counted(len, n + 1, bits[len[n] := bits[len[n]] + 1])
  {
    hide Filled, Total, Pow2;
    if len[n] > 0 {
      var k := len[n];
      FilledUpdate(bits, k, bits[k] + 1, MAX_CLEN);
      TotalUpdate(bits, k, bits[k] + 1, MAX_CLEN + 1);
      ShlPow2(1, MAX_CLEN - k);
    }
  }

  /** The number of codes of each length among the first n symbols. */
  function LengthsBelow(len: seq<nat>, n: nat): LengthCounts
    requires n <= |len|
  {
    seq(MAX_CLEN + 1, k requires 0 <= k <= MAX_CLEN => if k == 0 then 0 else OfLength(len, k, n))
  }

  lemma OneMoreLength(len: seq<nat>, n: nat)
    requires n < |len| && len[n] <= MAX_CLEN
    ensures var b := LengthsBelow(len, n);
      LengthsBelow(len, n + 1) == if len[n] == 0 then b else b[len[n] := b[len[n]] + 1]
  {
  }

  lemma {:induction false} LengthsAreCounted(len: seq<nat>, n: nat)
    requires n <= |len| && forall i :: 0 <= i < |len| ==> len[i] <= MAX_CLEN
    ensures Counted(len, n, LengthsBelow(len, n))
  {
    hide Filled, Total, Units, Used, OfLength;
    if n == 0 {
      NothingCounted(len);
    } else {
      LengthsAreCounted(len, n - 1);
      CountOne(len, n - 1, LengthsBelow(len, n - 1));
      OneMoreLength(len, n - 1);
    }
  }

  /** The counters have eight bits. */
  method CountLengths(codesize: array<nat>) returns (r: Result<array<byte>>)
    requires codesize.Length == SYMBOLS
    ensures r.Ok? <==> forall i :: 0 <= i < SYMBOLS ==> codesize[i] <= MAX_CLEN
    ensures r.Err? ==> r.error == CodeLengthOverflow
    ensures r.Ok? ==> fresh(r.value) && r.value.Length == MAX_CLEN + 1
    ensures r.Ok? ==> forall k :: 0 <= k <= MAX_CLEN ==> r.value[k] == LengthsBelow(codesize[..], SYMBOLS)[k] % 256
  {
    hide OfLength, LengthsBelow;
    var bits := new byte[MAX_CLEN + 1](_ => 0);
    ghost var len := codesize[..];
    NoLengths(len);
    for i := 0 to SYMBOLS
      invariant codesize[..] == len && forall k :: 0 <= k < i ==> len[k] <= MAX_CLEN
      invariant forall k :: 0 <= k <= MAX_CLEN ==> bits[k] == LengthsBelow(len, i)[k] % 256
    {
      if codesize[i] != 0 {
        if codesize[i] > MAX_CLEN {
          return Err(CodeLengthOverflow);
        }
        bits[codesize[i]] := (bits[codesize[i]] as int + 1) % 256;
      }
      OneMoreLength(len, i);
    }
    r := Ok(bits);
  }

  lemma NoLengths(len: seq<nat>)
    ensures forall k :: 0 <= k <= MAX_CLEN ==> LengthsBelow(len, 0)[k] == 0
  {
  }

  lemma UsedStep(w: seq<nat>, i: nat)
    requires i < |w|
    ensures Used(w, i + 1) == Used(w, i) + if w[i] > 0 then 1 else 0
  {
  }

  lemma NothingCounted(len: seq<nat>)
    requires forall i :: 0 <= i < |len| ==> len[i] <= MAX_CLEN
    ensures Counted(len, 0, LengthsBelow(len, 0))
  {
    NoLengths(len);
    FilledZero(LengthsBelow(len, 0), MAX_CLEN);
    TotalZero(LengthsBelow(len, 0), MAX_CLEN + 1);
  }

  lemma {:induction false} TotalZero(bits: seq<nat>, n: nat)
    requires n <= |bits| && forall k :: 0 <= k < n ==> bits[k] == 0
    ensures Total(bits, n) == 0
  {
    if n > 0 {
      TotalZero(bits, n - 1);
    }
  }

  // ----- The list of symbols

  /** The number of symbols below n of length i. */
  function OfLength(len: seq<nat>, i: nat, n: nat): nat
    requires n <= |len|
  {
    if n == 0 then 0 else OfLength(len, i, n - 1) + (if len[n - 1] == i then 1 else 0)
  }

  /** The number of used symbols below n that are shorter than i. */
  function ShorterThan(len: seq<nat>, i: nat, n: nat): nat
    requires n <= |len|
  {
    if n == 0 then 0 else ShorterThan(len, i, n - 1) + (if 0 < len[n - 1] < i then 1 else 0)
  }

  lemma {:induction false} NextLength(len: seq<nat>, i: nat, n: nat)
    requires n <= |len| && i > 0
    ensures ShorterThan(len, i + 1, n) == ShorterThan(len, i, n) + OfLength(len, i, n)
  {
    if n > 0 {
      NextLength(len, i, n - 1);
    }
  }

  lemma {:induction false} AllShorter(len: seq<nat>, i: nat, n: nat)
    requires n <= |len| && forall k :: 0 <= k < n ==> len[k] < i
    ensures ShorterThan(len, i, n) == Used(len, n)
  {
    if n > 0 {
      AllShorter(len, i, n - 1);
    }
  }

  lemma {:induction false} NoneShorter(len: seq<nat>, n: nat)
    requires n <= |len|
    ensures ShorterThan(len, 1, n) == 0
  {
    if n > 0 {
      NoneShorter(len, n - 1);
    }
  }

  /** The list holds, once each, the real symbols shorter than i and those below j of length i. */
  ghost predicate Listed(len: seq<nat>, i: nat, j: nat, list: seq<byte>)
    requires |len| == SYMBOLS
  {
    && j <= 256 && |list| == ShorterThan(len, i, 256) + OfLength(len, i, j)
    && InOrder(len, list) && InPlace(len, list)
    && (forall s: byte :: s in list <==> 0 < len[s] < i || (len[s] == i && s < j))
  }

  /** By length, and symbols of the same length by their number. */
  predicate InOrder(len: seq<nat>, list: seq<byte>)
    requires |len| == SYMBOLS
  {
    forall p, q :: 0 <= p < q < |list| ==>
      len[list[p]] < len[list[q]] || (len[list[p]] == len[list[q]] && list[p] < list[q])
  }

  /** No symbol comes later than there are symbols that are not longer. */
  predicate InPlace(len: seq<nat>, list: seq<byte>)
    requires |len| == SYMBOLS
  {
    forall p :: 0 <= p < |list| ==> p < ShorterThan(len, len[list[p]] + 1, 256)
  }

  lemma {:induction false} OfLengthGrows(len: seq<nat>, i: nat, j: nat, n: nat)
    requires j < n <= |len| && len[j] == i
    ensures OfLength(len, i, j) < OfLength(len, i, n)
    decreases n
  {
    if j < n - 1 {
      OfLengthGrows(len, i, j, n - 1);
    }
  }

  lemma ListOne(len: seq<nat>, i: nat, j: nat, list: seq<byte>)
    requires |len| == SYMBOLS && i > 0 && j < 256 && Listed(len, i, j, list)
    ensures Listed(len, i, j + 1, if len[j] == i then list + [j] else list)
  {
    hide ShorterThan, OfLength;
    OneMoreOfLength(len, i, j);
    if len[j] == i {
      OfLengthGrows(len, i, j, 256);
      NextLength(len, i, 256);
      forall p | 0 <= p < |list| ensures 0 < len[list[p]] < i || (len[list[p]] == i && list[p] < j) { assert list[p] in list; }
    }
  }

  lemma OneMoreOfLength(len: seq<nat>, i: nat, j: nat)
    requires j < |len|
    ensures OfLength(len, i, j + 1) == OfLength(len, i, j) + if len[j] == i then 1 else 0
  {
  }

  lemma ListNext(len: seq<nat>, i: nat, list: seq<byte>)
    requires |len| == SYMBOLS && i > 0 && Listed(len, i, 256, list)
    ensures Listed(len, i + 1, 0, list)
  {
    NextLength(len, i, 256);
  }

  /** The symbols in order of code length. */
  method ListSymbols(codesize: array<nat>) returns (list: seq<byte>)
    requires codesize.Length == SYMBOLS && forall i :: 0 <= i < SYMBOLS ==> codesize[i] <= MAX_CLEN
    ensures |list| == Used(codesize[..], 256) && InOrder(codesize[..], list) && InPlace(codesize[..], list)
    ensures forall p, q :: 0 <= p < q < |list| ==> list[p] != list[q]
    ensures forall s: byte :: s in list <==> codesize[s] > 0
  {
    hide ShorterThan, OfLength, Used, Listed;
    list := [];
    ghost var len := codesize[..];
    ListStart(len);
    for i := 1 to MAX_CLEN + 1
      invariant Listed(len, i, 0, list)
    {
      for j := 0 to 256
        invariant Listed(len, i, j, list)
      {
        ListOne(len, i, j, list);
        if codesize[j] == i {
          list := list + [j];
        }
      }
      ListNext(len, i, list);
    }
    ListDone(len, list);
  }

  lemma ListStart(len: seq<nat>)
    requires |len| == SYMBOLS
    ensures Listed(len, 1, 0, [])
  {
    NoneShorter(len, 256);
  }

  lemma ListDone(len: seq<nat>, list: seq<byte>)
    requires |len| == SYMBOLS && Listed(len, MAX_CLEN + 1, 0, list) && forall i :: 0 <= i < SYMBOLS ==> len[i] <= MAX_CLEN
    ensures |list| == Used(len, 256) && InOrder(len, list) && InPlace(len, list)
    ensures forall s: byte :: s in list <==> len[s] > 0
  {
    AllShorter(len, MAX_CLEN + 1, 256);
  }

  // ----- The whole routine

  /** The table gives a code to exactly the symbols that were counted, each listed once. */
  ghost predicate IsTableFor(f: seq<nat>, h: HuffTbl) {
    && |f| == SYMBOLS && ValidCounts(h.bits) && Size(h.bits) == Used(f, 256)
    && (forall p, q :: 0 <= p < q < Size(h.bits) ==> h.huffval[p] != h.huffval[q])
    && (forall s: byte :: s in h.huffval[..Size(h.bits)] <==> f[s] > 0)
  }

  lemma {:induction false} PseudoSymbol(f: seq<nat>, n: nat)
    requires n <= 256 && |f| == SYMBOLS
    ensures Used(f[256 := 1], n) == Used(f, n)
    decreases n
  {
    if n > 0 {
      PseudoSymbol(f, n - 1);
    }
  }

  lemma {:induction false} AnyUsed(f: seq<nat>, n: nat) returns (i: nat)
    requires n <= |f| && Used(f, n) >= 1
    ensures i < n && f[i] > 0
  {
    if f[n - 1] > 0 {
      i := n - 1;
    } else {
      i := AnyUsed(f, n - 1);
    }
  }

  /** With a real symbol besides the pseudo-symbol, exactly the used symbols have lengths. */
  lemma LengthIffUsed(f: seq<nat>, len: seq<nat>)
    requires OptimalLengths(f, len) && f[256] > 0 && Used(f, 256) >= 1
    ensures forall i :: 0 <= i < SYMBOLS ==> (f[i] > 0 <==> len[i] > 0)
  {
    hide Units, LowerBound, Cost;
    var r := AnyUsed(f, 256);
    forall i | 0 <= i < SYMBOLS && f[i] > 0
      ensures len[i] > 0
    {
      UsedHaveLength(f, len, i, if i == 256 then r else 256);
    }
  }

  lemma CountedComplete(f: seq<nat>, len: seq<nat>)
    requires OptimalLengths(f, len) && f[256] > 0 && 1 <= Used(f, 256) <= 256
    requires forall i :: 0 <= i < SYMBOLS ==> len[i] <= MAX_CLEN
    ensures Complete(LengthsBelow(len, SYMBOLS), MAX_CLEN, Used(f, 256) + 1)
    ensures Used(len, 256) == Used(f, 256)
  {
    hide Units, LowerBound, Cost, Filled, Total, Pow2, LengthsBelow;
    LengthsAreCounted(len, SYMBOLS);
    LengthIffUsed(f, len);
    UnitsByLength(f, len, SYMBOLS, SYMBOLS);
    UnitsByLength(f, len, SYMBOLS, 256);
    CompleteInLess(len, len, SYMBOLS, MAX_CLEN);
    UsedStep(f, 256);
  }

  // ----- Counters that wrap around

  /** 256 symbols have codes of one length, which the 8-bit counter of that length cannot tell from none. */
  predicate Wraps(len: seq<nat>)
    requires |len| == SYMBOLS
  {
    exists k :: 1 <= k <= MAX_CLEN && LengthsBelow(len, SYMBOLS)[k] >= 256
  }

  lemma {:induction false} TopLength(bits: LengthCounts, i: nat, n: nat) returns (t: nat)
    requires Complete(bits, i, n)
    ensures Complete(bits, t, n) && bits[t] > 0
    decreases i
  {
    if bits[i] > 0 {
      t := i;
    } else {
      NotEmpty(bits, i, n);
      Shorter(bits, i, n);
      t := TopLength(bits, i - 1, n);
    }
  }

  lemma NotEmpty(bits: LengthCounts, i: nat, n: nat)
    requires Complete(bits, i, n)
    ensures i > 0
  {
  }

  /** A counter that has wrapped to zero leaves at most one code, and none above 9 bits. */
  lemma WrappedCounts(bits: LengthCounts, n: nat, k: nat, b: LengthCounts)
    requires Complete(bits, MAX_CLEN, n) && 1 <= k <= MAX_CLEN && bits[k] >= 256
    requires forall j :: 0 <= j <= MAX_CLEN ==> b[j] == bits[j] % 256
    ensures n >= 256 && NoneAbove16(b) && Total(b, MAX_CLEN + 1) == n - 256
  {
    hide Filled, Total, Pow2;
    var t := TopLength(bits, MAX_CLEN, n);
    ManyOfOneLength(bits, t, n, k, 128);
    AtMostTotal(bits, k, MAX_CLEN + 1);
    EvenAtTop(bits, t, n);
    var rest := bits[k := bits[k] - 256];
    TotalUpdate(bits, k, bits[k] - 256, MAX_CLEN + 1);
    assert b == rest by {
      forall j | 0 <= j <= MAX_CLEN ensures b[j] == rest[j] { assert j != k ==> bits[k] + bits[j] <= n; }
    }
  }

  lemma EvenAtTop(bits: LengthCounts, t: nat, n: nat)
    requires Complete(bits, t, n) && t > 0
    ensures bits[t] % 2 == 0
  {
    assert Pow2(t) == 2 * Pow2(t - 1);
  }

  lemma WrappedAt(len: seq<nat>) returns (k: nat)
    requires |len| == SYMBOLS && Wraps(len)
    ensures 1 <= k <= MAX_CLEN && LengthsBelow(len, SYMBOLS)[k] >= 256
  {
    k :| 1 <= k <= MAX_CLEN && LengthsBelow(len, SYMBOLS)[k] >= 256;
  }

  lemma NotWrapped(len: seq<nat>, b: LengthCounts)
    requires |len| == SYMBOLS && !Wraps(len)
    requires forall k :: 0 <= k <= MAX_CLEN ==> b[k] == LengthsBelow(len, SYMBOLS)[k] % 256
    ensures b == LengthsBelow(len, SYMBOLS)
  {
    ZeroLength(len);
  }

  lemma {:induction false} AtMostUsed(len: seq<nat>, k: nat, n: nat)
    requires n <= |len| && k > 0
    ensures OfLength(len, k, n) <= Used(len, n)
  {
    if n > 0 {
      AtMostUsed(len, k, n - 1);
    }
  }

  /** With at most 254 symbols no counter can wrap. */
  lemma FewDoNotWrap(f: seq<nat>, len: seq<nat>)
    requires OptimalLengths(f, len) && f[256] > 0 && 1 <= Used(f, 256) <= 254
    ensures !Wraps(len)
  {
    hide Units, LowerBound, Cost;
    LengthIffUsed(f, len);
    UnitsByLength(f, len, SYMBOLS, SYMBOLS);
    UsedStep(f, 256);
    forall k | 1 <= k <= MAX_CLEN ensures LengthsBelow(len, SYMBOLS)[k] <= 255 { AtMostUsed(len, k, SYMBOLS); }
  }

  // ----- An input for which a counter does wrap

  /** 255 symbols, each of them counted once, and the pseudo-symbol. */
  predicate EqualCounts(f: seq<nat>) {
    |f| == SYMBOLS && forall i :: 0 <= i < SYMBOLS ==> f[i] == if i == 255 then 0 else 1
  }

  /** 2^-l lies above its tangent through l = 7 and l = 8, in units of 2^-257. */
  lemma AboveLine(l: nat)
    requires l < SYMBOLS
    ensures Pow2(SYMBOLS - l) + Pow2(249) * l >= 9 * Pow2(249)
    ensures Pow2(SYMBOLS - l) + Pow2(249) * l == 9 * Pow2(249) ==> l == 7 || l == 8
  {
    hide Pow2;
    if l >= 9 {
      assert Pow2(249) * l >= Pow2(249) * 9;
    } else {
      DoubledPower(249, 8 - l);
      SmallPowers();
    }
  }

  lemma {:induction false} DoubledPower(m: nat, k: nat)
    ensures Pow2(m + k) == Pow2(m) * Pow2(k)
    decreases k
  {
    if k > 0 {
      DoubledPower(m, k - 1);
    }
  }

  lemma SmallPowers()
    ensures Pow2(0) == 1 && Pow2(1) == 2 && Pow2(2) == 4 && Pow2(3) == 8 && Pow2(4) == 16
    ensures Pow2(5) == 32 && Pow2(6) == 64 && Pow2(7) == 128 && Pow2(8) == 256
  {
  }

  lemma {:induction false} SumAboveLine(f: seq<nat>, len: seq<nat>, n: nat)
    requires EqualCounts(f) && n <= SYMBOLS && Within(f, len, SYMBOLS) && forall i :: 0 <= i < SYMBOLS ==> len[i] < SYMBOLS
    ensures Units(f, len, SYMBOLS, n) + Pow2(249) * Cost(f, len, n) >= 9 * Pow2(249) * Used(f, n)
    ensures Units(f, len, SYMBOLS, n) + Pow2(249) * Cost(f, len, n) == 9 * Pow2(249) * Used(f, n) ==>
      forall i :: 0 <= i < n && i != 255 ==> len[i] == 7 || len[i] == 8
  {
    hide Pow2;
    if n > 0 {
      SumAboveLine(f, len, n - 1);
      var b, c, u, l := Pow2(249), Cost(f, len, n - 1), Used(f, n - 1), len[n - 1];
      AboveLine(l);
      OneMoreTerm(b, Units(f, len, SYMBOLS, n - 1), c, u, Pow2(SYMBOLS - l), l);
    }
  }

  lemma OneMoreTerm(b: int, x: int, c: int, u: int, y: int, l: int)
    requires x + b * c >= 9 * b * u && y + b * l >= 9 * b
    ensures (x + y) + b * (c + l) >= 9 * b * (u + 1)
    ensures (x + y) + b * (c + l) == 9 * b * (u + 1) ==> x + b * c == 9 * b * u && y + b * l == 9 * b
  {
    assert b * (c + l) == b * c + b * l;
    assert 9 * b * (u + 1) == 9 * b * u + 9 * b;
  }

  lemma {:induction false} EightEach(f: seq<nat>, len: seq<nat>, n: nat)
    requires EqualCounts(f) && n <= SYMBOLS == |len| && forall i :: 0 <= i < n && i != 255 ==> len[i] <= 8
    ensures Cost(f, len, n) <= 8 * Used(f, n)
    ensures Cost(f, len, n) == 8 * Used(f, n) <==> forall i :: 0 <= i < n && i != 255 ==> len[i] == 8
    ensures (forall i :: 0 <= i < n && i != 255 ==> len[i] == 8) && Within(f, len, SYMBOLS) ==>
      Units(f, len, SYMBOLS, n) == Pow2(249) * Used(f, n)
  {
    hide Pow2;
    if n > 0 {
      EightEach(f, len, n - 1);
      assert Pow2(249) * (Used(f, n - 1) + 1) == Pow2(249) * Used(f, n - 1) + Pow2(249);
    }
  }

  lemma {:induction false} EqualUsed(f: seq<nat>, len: seq<nat>, n: nat)
    requires EqualCounts(f) && n <= SYMBOLS == |len|
    ensures Used(f, n) == if n <= 255 then n else n - 1
    ensures len[255] == 0 && (forall i :: 0 <= i < n && i != 255 ==> len[i] == 8) ==> OfLength(len, 8, n) == Used(f, n)
  {
    if n > 0 {
      EqualUsed(f, len, n - 1);
    }
  }

  /** An optimal code for equal counts of 255 symbols and the pseudo-symbol has 256 code words of 8 bits. */
  lemma EqualCountsWrap(f: seq<nat>, len: seq<nat>)
    requires EqualCounts(f) && OptimalLengths(f, len)
    ensures Used(f, 256) == 255 && (forall i :: 0 <= i < SYMBOLS ==> len[i] <= MAX_CLEN) && Wraps(len)
  {
    hide Pow2, Cost, Units, Used, OfLength;
    var flat := seq(SYMBOLS, i => if i == 255 then 0 else 8);
    EqualUsed(f, len, 256);
    EqualUsed(f, len, SYMBOLS);
    EightEach(f, flat, SYMBOLS);
    SumAboveLine(f, len, SYMBOLS);
    var b := Pow2(249);
    DoubledPower(249, 8);
    SmallPowers();
    assert Kraft(f, flat, SYMBOLS);
    assert Cost(f, len, SYMBOLS) <= 8 * 256;
    var c := Cost(f, len, SYMBOLS);
    assert b * 256 + b * c >= 9 * b * 256;
    if c < 8 * 256 {
      assert b * c <= b * (8 * 256 - 1);
    }
    assert b * 256 + b * c == 9 * b * 256;
    EightEach(f, len, SYMBOLS);
    assert LengthsBelow(len, SYMBOLS)[8] == 256;
  }

  /**
   jpeg_gen_optimal_table; len are the lengths that Huffman's procedure finds.  The table is right exactly if none of them
   exceeds 32 and no 8-bit counter wraps around.  If one does, there are 255 symbols or 256; of 255, no length is left to
   reserve a slot of, and of 256, no symbol gets a code.
   */
  method GenOptimalTable(freq: array<nat>) returns (r: Result<HuffTbl>, ghost len: seq<nat>)
    requires freq.Length == SYMBOLS && Sum(freq[..][256 := 1], SYMBOLS) <= MAX_COUNT
    requires 1 <= Used(freq[..], 256) <= 256
    modifies freq
    ensures OptimalLengths(old(freq[..])[256 := 1], len)
    ensures r == Err(CodeLengthOverflow) <==> exists i :: 0 <= i < SYMBOLS && len[i] > MAX_CLEN
    ensures r != Err(CodeLengthOverflow) && !Wraps(len) ==> r.Ok? && IsTableFor(old(freq[..]), r.value)
    ensures r.Ok? && !Wraps(len) ==> InOrder(len, r.value.huffval[..Size(r.value.bits)])
    ensures r.Ok? && !Wraps(len) && (forall i :: 0 <= i < SYMBOLS ==> len[i] <= 16) ==> NoneLonger(len, r.value)
    ensures r != Err(CodeLengthOverflow) && Wraps(len) ==> Used(old(freq[..]), 256) >= 255
    ensures r != Err(CodeLengthOverflow) && Wraps(len) ==>
      if Used(old(freq[..]), 256) == 255 then r == Err(NoLengthInUse) else r.Ok? && Size(r.value.bits) == 0
  {
    hide OptimalLengths, Sum, Used, Complete, ValidCounts, Total, LengthsBelow, InOrder, InPlace, NoneLonger, TopReserved, Wraps,
         NoneAbove16, Off;
    ghost var f0 := freq[..];
    ghost var f := f0[256 := 1];
    PseudoSymbol(f0, 256);
    var codesize := AssignLengths(freq);
    len := codesize[..];
    var counted := CountLengths(codesize);
    assert codesize[..] == len;
    if counted.Err? {
      return Err(counted.error), len;
    }
    var bits := counted.value;
    ghost var all, n := LengthsBelow(len, SYMBOLS), Used(f, 256) + 1;
    CountedComplete(f, len);
    if Wraps(len) {
      var k := WrappedAt(len);
      WrappedCounts(all, n, k, bits[..]);
    } else {
      NotWrapped(len, bits[..]);
    }
    ghost var was := bits[..];
    ghost var steps := LimitLengths(bits, n);
    AboveIsZero(bits[..], n);
    var found := ReserveSlot(bits, n);
    if !found {
      assert Complete(was, MAX_CLEN, n) ==> false;
      return Err(NoLengthInUse), len;
    }
    var list := ListSymbols(codesize);
    var huffval := list + seq(256 - |list|, _ => 0);
    assert huffval[..|list|] == list;
    LengthIffUsed(f, len);
    NoSizes(bits[..17]);
    if !Wraps(len) && forall i :: 0 <= i < SYMBOLS ==> len[i] <= 16 {
      NothingAbove16(len);
      TableNoneLonger(len, bits[..], list, HuffTbl(bits[..17], huffval));
    }
    r := Ok(HuffTbl(bits[..17], huffval));
  }

  // ----- The table is as short as the optimal lengths

  /** No symbol of the table has a code longer than the length found for it. */
  predicate NoneLonger(len: seq<nat>, h: HuffTbl)
    requires |len| == SYMBOLS
  {
    Size(h.bits) <= 256 && forall p :: 0 <= p < Size(h.bits) ==> LenAt(h.bits, p) <= len[h.huffval[p]]
  }

  lemma {:induction false} TotalIsShorter(len: seq<nat>, n: nat, l: nat)
    requires n <= |len| && l <= MAX_CLEN
    ensures Total(LengthsBelow(len, n), l + 1) == ShorterThan(len, l + 1, n)
    decreases l
  {
    hide ShorterThan, OfLength;
    if l == 0 {
      NoneShorter(len, n);
      assert Total(LengthsBelow(len, n), 1) == Total(LengthsBelow(len, n), 0) + LengthsBelow(len, n)[0];
    } else {
      TotalIsShorter(len, n, l - 1);
      NextLength(len, l, n);
    }
  }

  lemma {:induction false} ShorterGrows(len: seq<nat>, i: nat, m: nat, n: nat)
    requires m <= n <= |len|
    ensures ShorterThan(len, i, m) <= ShorterThan(len, i, n)
    decreases n
  {
    if m < n {
      ShorterGrows(len, i, m, n - 1);
    }
  }

  lemma NothingAbove16(len: seq<nat>)
    requires |len| == SYMBOLS && forall i :: 0 <= i < SYMBOLS ==> len[i] <= 16
    ensures NoneAbove16(LengthsBelow(len, SYMBOLS))
  {
    forall k | 16 < k <= MAX_CLEN ensures OfLength(len, k, SYMBOLS) == 0 { NoneOfLength(len, k, SYMBOLS); }
  }

  lemma {:induction false} NoneOfLength(len: seq<nat>, k: nat, n: nat)
    requires n <= |len| && forall i :: 0 <= i < |len| ==> len[i] != k
    ensures OfLength(len, k, n) == 0
  {
    if n > 0 {
      NoneOfLength(len, k, n - 1);
    }
  }

  /** Position p of the list lies among the codes that are not longer than its symbol's length. */
  lemma TableNoneLonger(len: seq<nat>, now: LengthCounts, list: seq<byte>, h: HuffTbl)
    requires |len| == SYMBOLS && InPlace(len, list) && TopReserved(LengthsBelow(len, SYMBOLS), now)
    requires NoneAbove16(LengthsBelow(len, SYMBOLS)) && forall i :: 0 <= i < SYMBOLS ==> len[i] <= 16
    requires h.bits == now[..17] && Size(h.bits) == |list| <= 256 && h.huffval[..|list|] == list
    ensures NoneLonger(len, h)
  {
    hide ShorterThan, LengthsBelow, Total, Off, LenAt;
    var was := LengthsBelow(len, SYMBOLS);
    var t: nat :| IsTop(was, t) && now == was[t := was[t] - 1];
    ZeroLength(len);
    forall p | 0 <= p < Size(h.bits)
      ensures LenAt(h.bits, p) <= len[h.huffval[p]]
    {
      assert list[p] == h.huffval[p];
      var l := len[list[p]];
      if t <= l {
        OffBeyond(now, h.bits, t, l);
      } else {
        TotalUpdate(was, t, was[t] - 1, l + 1);
        TotalIsOff(now, h.bits, l + 1);
        TotalIsShorter(len, SYMBOLS, l);
        ShorterGrows(len, l + 1, 256, SYMBOLS);
      }
      AtMostLength(h.bits, p, l);
    }
  }

  lemma ZeroLength(len: seq<nat>)
    requires |len| == SYMBOLS
    ensures LengthsBelow(len, SYMBOLS)[0] == 0
  {
  }

  lemma {:induction false} OffBeyond(now: LengthCounts, c: Counts, t: nat, l: nat)
    requires t <= l <= 16 && now[..17] == c && forall k :: t < k <= MAX_CLEN ==> now[k] == 0
    ensures Off(c, l + 1) == Size(c)
    decreases 16 - l
  {
    if l < 16 {
      OffBeyond(now, c, t, l + 1);
      assert c[l + 1] == now[l + 1];
    }
  }

  lemma AtMostLength(c: Counts, p: nat, l: nat)
    requires p < Size(c) && l <= 16 && p < Off(c, l + 1)
    ensures LenAt(c, p) <= l
  {
    hide LenAt, CodeAt, First, Next;
    LenAtBounds(c, p);
    if LenAt(c, p) > l {
      OffGrows(c, l + 1, LenAt(c, p));
    }
  }

  lemma {:induction false} OffGrows(c: Counts, l: nat, m: nat)
    requires l <= m <= 17
    ensures Off(c, l) <= Off(c, m)
    decreases m
  {
    if l < m {
      OffGrows(c, l, m - 1);
    }
  }

  /**
   With no optimal length above 16, coding the counted symbols with the table takes no more bits than with any prefix code
   for them and the pseudo-symbol, not even when the pseudo-symbol is only counted for its length in the optimal one.
   */
  lemma TableIsCheapest(f: seq<nat>, len: seq<nat>, h: HuffTbl, c: CDerivedTbl, code: seq<seq<bool>>)
    requires |f| == SYMBOLS && OptimalLengths(f[256 := 1], len) && IsTableFor(f, h) && NoneLonger(len, h) && IsCDerived(h, c)
    requires PrefixFree(f[256 := 1], code)
    ensures Cost(f[..256], c.ehufsi, 256) + len[256] <= Cost(f[256 := 1], Lengths(code), SYMBOLS)
  {
    hide OptimalLengths, PrefixFree, Cost, LenAt, CodeAt, Used;
    var g := f[256 := 1];
    HuffmanIsOptimal(g, len, code);
    OptimalShape(g, len);
    forall s | 0 <= s < 256 && f[s] > 0
      ensures c.ehufsi[s] <= len[s]
    {
      var b: byte := s;
      assert b in h.huffval[..Size(h.bits)];
      var p :| 0 <= p < Size(h.bits) && h.huffval[p] == b;
      assert c.ehufsi[h.huffval[p]] == LenAt(h.bits, p);
    }
    CheaperEach(f[..256], c.ehufsi, g, len, 256);
    LastCost(g, len);
  }

  /** The table follows optimal lengths, and is as short as these if none of them exceeds 16. */
  ghost predicate IsBestTable(f: seq<nat>, h: HuffTbl) {
    |f| == SYMBOLS && exists len :: FollowsLengths(f, len, h)
  }

  ghost predicate FollowsLengths(f: seq<nat>, len: seq<nat>, h: HuffTbl) {
    && |f| == |len| == SYMBOLS && Size(h.bits) <= 256
    && OptimalLengths(f[256 := 1], len) && InOrder(len, h.huffval[..Size(h.bits)])
    && ((forall i :: 0 <= i < SYMBOLS ==> len[i] <= 16) ==> NoneLonger(len, h))
  }

  lemma OptimalShape(f: seq<nat>, len: seq<nat>)
    requires OptimalLengths(f, len)
    ensures |f| == |len| == SYMBOLS
  {
  }

  lemma LastCost(f: seq<nat>, len: seq<nat>)
    requires |f| == |len| == SYMBOLS && f[256] == 1
    ensures Cost(f, len, SYMBOLS) == Cost(f, len, 256) + len[256]
  {
  }

  lemma {:induction false} CheaperEach(f: seq<nat>, sizes: seq<nat>, g: seq<nat>, len: seq<nat>, n: nat)
    requires n <= |f| == |sizes| && n <= |g| == |len| && forall s :: 0 <= s < n ==> f[s] == g[s]
    requires forall s :: 0 <= s < n && f[s] > 0 ==> sizes[s] <= len[s]
    ensures Cost(f, sizes, n) <= Cost(g, len, n)
  {
    if n > 0 {
      CheaperEach(f, sizes, g, len, n - 1);
      if f[n - 1] > 0 {
        assert f[n - 1] * sizes[n - 1] <= f[n - 1] * len[n - 1];
      }
    }
  }

  lemma AboveIsZero(bits: LengthCounts, n: nat)
    ensures Complete(bits, 16, n) ==> NoneAbove16(bits)
  {
  }

  lemma NoSizes(bits: Counts)
    ensures (forall k :: 1 <= k <= 16 ==> bits[k] == 0) ==> Size(bits) == 0
  {
    if forall k :: 1 <= k <= 16 ==> bits[k] == 0 {
      NoneOff(bits, 17);
    }
  }

  lemma {:induction false} NoneOff(bits: Counts, l: nat)
    requires l <= 17 && forall k :: 1 <= k <= 16 ==> bits[k] == 0
    ensures Off(bits, l) == 0
  {
    if l > 1 {
      NoneOff(bits, l - 1);
    }
  }

  /** jpeg_make_c_derived_tbl accepts the table, as a DC table if the symbols are categories. */
  lemma TableIsAccepted(f: seq<nat>, h: HuffTbl, isDC: bool)
    requires IsTableFor(f, h) && Used(f, 256) <= 256
    requires forall s :: 0 <= s < 256 && f[s] > 0 ==> s <= MaxSymbol(isDC)
    ensures AcceptedByEncoder(h, isDC) && AcceptedByDecoder(h, isDC)
  {
    hide Used;
    forall p | 0 <= p < Size(h.bits)
      ensures h.huffval[p] <= MaxSymbol(isDC)
    {
      assert h.huffval[..Size(h.bits)][p] in h.huffval[..Size(h.bits)];
    }
  }

  /**
   Without a real symbol, the procedure would assign no length at all, and the search for the longest length in use
   would run off the front of bits[]; with one, it ends.
   */
  lemma LengthsIffSymbols(f: seq<nat>, len: seq<nat>)
    requires OptimalLengths(f, len) && f[256] > 0
    ensures (exists i :: 0 <= i < SYMBOLS && len[i] > 0) <==> Used(f, 256) >= 1
  {
    hide LowerBound, Cost, Units, Pow2, Used;
    if Used(f, 256) >= 1 {
      LengthIffUsed(f, len);
      assert len[256] > 0;
    } else {
      forall i | 0 <= i < 256 ensures f[i] == 0 { UsedAt(f, i, 256); }
      UnitsOfPseudo(f, len);
      PowerIsOne(SYMBOLS, len[256]);
    }
  }

  lemma UsedAt(f: seq<nat>, i: nat, n: nat)
    requires i < n <= |f| && Used(f, n) == 0
    ensures f[i] == 0
  {
    if f[i] > 0 {
      AtMostSum(f, i, n);
    }
  }

  lemma UnitsOfPseudo(f: seq<nat>, len: seq<nat>)
    requires |f| == |len| == SYMBOLS && Within(f, len, SYMBOLS) && f[256] > 0 && forall i :: 0 <= i < 256 ==> f[i] == 0
    ensures Units(f, len, SYMBOLS, SYMBOLS) == Pow2(SYMBOLS - len[256])
  {
    hide Pow2;
    UnitsOfNone(f, len, SYMBOLS, 256);
  }

  lemma {:induction false} PowerIsOne(m: nat, k: nat)
    requires k <= m && Pow2(m - k) == Pow2(m)
    ensures k == 0
  {
    if k > 0 {
      PowerBelow(m - k, m - 1);
    }
  }
}
