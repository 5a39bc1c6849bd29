/**
 The round trip of an AC band over the blocks of a restart interval.  The encoder runs ahead of the decoder: while n
 blocks have a pending end of band, nothing has been emitted for them yet, and the decoder still stands in the first
 of them, behind its last symbol.  The invariant is stated from the decoder's position.
 */
module AcSegment {
  import opened Bits
  import opened Wrappers
  import opened HuffmanTables
  import opened BitSource
  import opened Symbols
  import opened Feeding
  import opened Coefficients
  import opened AcBand

  /** Decoding of successive blocks: the source, the run left, and the decoded blocks. */
  function DecodeBlocks(c: Band, h: HuffTbl, s: Source, eobrun: nat, hist: seq<Block>): Option<(Source, nat, seq<Block>)>
    requires BandOk(c)
    decreases |hist|
  {
    hide *;
    if hist == [] then Some((s, eobrun, []))
    else
      match DecodeBand(c, h, s, eobrun, hist[0])
      case BandSuspended(_) => None
      case BandDone(t, e, b) =>
        match DecodeBlocks(c, h, t, e, hist[1..])
        case None => None
        case Some((u, e', bs)) => Some((u, e', [b] + bs))
  }

  /** What the block held before the scan: nothing in a first scan, all bits above al in a refinement scan. */
  ghost predicate IsHistory(c: Band, b: Block, h: Block)
    requires BandOk(c)
  {
    forall k :: c.ss <= k <= c.se ==> h[k] == if c.refine then TruncAc(b[k], c.al + 1) else 0
  }

  /** The block when the coefficients below k are decoded. */
  function Goal(c: Band, b: Block, h: Block, k: nat): Block {
    seq(DCTSIZE2, i requires 0 <= i < DCTSIZE2 => if c.ss <= i < k && i <= c.se then TruncAc(b[i], c.al) else h[i])
  }

  /** The correction bits of coefficients k0 <= k < k1. */
  function Corrections(c: Band, b: Block, k0: nat, k1: nat): seq<bool>
    requires k0 <= k1 <= DCTSIZE2
  {
    if k0 == k1 then []
    else Corrections(c, b, k0, k1 - 1) + (if IsCorrection(c, b, k1 - 1) then [Mag(c, b, k1 - 1) % 2 == 1] else [])
  }

  function Zeros(c: Band, b: Block, k0: nat, k1: nat): (z: nat)
    requires k0 <= k1 <= DCTSIZE2
    ensures z <= k1 - k0
  {
    if k0 == k1 then 0 else Zeros(c, b, k0, k1 - 1) + (if Mag(c, b, k1 - 1) == 0 then 1 else 0)
  }

  /** No coefficient becomes nonzero in k0 <= k < k1. */
  ghost predicate NoNew(c: Band, b: Block, k0: nat, k1: nat)
    requires k1 <= DCTSIZE2
  {
    forall k :: k0 <= k < k1 ==> !IsNew(c, b, k)
  }

  lemma CorrectionsLast(c: Band, b: Block, k0: nat, k1: nat)
    requires k0 <= k1 <= DCTSIZE2
    ensures Corrections(c, b, k0, k1) ==
      if k0 == k1 then []
      else Corrections(c, b, k0, k1 - 1) + (if IsCorrection(c, b, k1 - 1) then [Mag(c, b, k1 - 1) % 2 == 1] else [])
  {
  }

  lemma {:induction false} CorrectionsFirst(c: Band, b: Block, k0: nat, k1: nat)
    requires k0 < k1 <= DCTSIZE2
    ensures Corrections(c, b, k0, k1)
         == (if IsCorrection(c, b, k0) then [Mag(c, b, k0) % 2 == 1] else []) + Corrections(c, b, k0 + 1, k1)
    decreases k1
  {
    hide Mag, IsCorrection, Corrections;
    CorrectionsLast(c, b, k0, k1);
    CorrectionsLast(c, b, k0 + 1, k1);
    CorrectionsLast(c, b, k0, k0);
    if k0 + 1 < k1 {
      CorrectionsFirst(c, b, k0, k1 - 1);
    } else {
      assert Corrections(c, b, k0, k0) == [];
      assert Corrections(c, b, k0 + 1, k1) == [];
    }
  }

  lemma {:induction false} ZerosFirst(c: Band, b: Block, k0: nat, k1: nat)
    requires k0 < k1 <= DCTSIZE2
    ensures Zeros(c, b, k0, k1) == (if Mag(c, b, k0) == 0 then 1 else 0) + Zeros(c, b, k0 + 1, k1)
    decreases k1
  {
    hide Mag;
    if k0 + 1 < k1 {
      ZerosFirst(c, b, k0, k1 - 1);
    }
  }

  // ----- One coefficient: the history and the goal

  lemma {:induction false} ShlOfDouble(q: int, k: nat)
    ensures Shl(2 * q, k) == Shl(q, k + 1) && Shl(2 * q + 1, k) == Shl(q, k + 1) + Pow2(k)
    decreases k
  {
    if k > 0 {
      ShlOfDouble(q, k - 1);
    }
  }

  lemma TruncSplit(v: int, al: nat)
    ensures var m := Shr(v, al);
      Shr(v, al + 1) == m / 2 && Shl(m, al) == Shl(Shr(v, al + 1), al + 1) + (if m % 2 == 1 then Pow2(al) else 0)
  {
    hide Shl, Pow2;
    ShrShr(v, al, 1);
    var m := Shr(v, al);
    assert Shr(m, 1) == m / 2;
    ShlOfDouble(m / 2, al);
    assert m == 2 * (m / 2) || m == 2 * (m / 2) + 1;
  }

  lemma HistoryOfZero(c: Band, b: Block, h: Block, k: nat)
    requires BandOk(c) && IsHistory(c, b, h) && c.ss <= k <= c.se
    requires !IsCorrection(c, b, k)
    ensures h[k] == 0
    ensures Mag(c, b, k) == 0 ==> TruncAc(b[k], c.al) == 0
    ensures c.refine && IsNew(c, b, k) ==> TruncAc(b[k], c.al) == if b[k] >= 0 then Pow2(c.al) else -Pow2(c.al)
  {
    TruncSplit(Abs(b[k]), c.al);
    ShlPow2(0, c.al + 1);
    ShlPow2(0, c.al);
  }

  lemma EvenAbove(v: int, al: nat)
    ensures Shr(Shl(v, al + 1), al) == 2 * v
  {
    ShlDouble(v, al);
    ShrShlAdd(2 * v, 0, al);
  }

  lemma {:induction false} ShlNegate(v: int, k: nat)
    ensures Shl(-v, k) == -Shl(v, k)
    decreases k
  {
    if k > 0 {
      ShlNegate(v, k - 1);
    }
  }

  /** A coefficient whose bits below al + 1 are zero takes the correction bit at al, away from zero. */
  lemma CorrectedMultiple(neg: bool, m: nat, al: nat, bit: int)
    requires m >= 1 && 0 <= bit <= 1
    requires -32768 <= Signed(neg, Shl(m, al + 1) + (if bit == 1 then Pow2(al) else 0)) < 32768
    ensures Corrected(Signed(neg, Shl(m, al + 1)), al, bit) == Signed(neg, Shl(m, al + 1) + (if bit == 1 then Pow2(al) else 0))
  {
    hide Shl, Shr, Pow2;
    EvenAbove(m, al);
    EvenAbove(0 - m, al);
    ShlNegate(m, al + 1);
    assert !BitSet(Signed(neg, Shl(m, al + 1)), al);
  }

  lemma HistoryOfCorrection(c: Band, b: Block, h: Block, k: nat)
    requires BandOk(c) && IsHistory(c, b, h) && c.ss <= k <= c.se
    requires IsCorrection(c, b, k)
    ensures h[k] != 0
    ensures Corrected(h[k], c.al, if Mag(c, b, k) % 2 == 1 then 1 else 0) == TruncAc(b[k], c.al)
  {
    hide Shl, Shr, Pow2, Corrected;
    var v, al := Abs(b[k]), c.al;
    TruncSplit(v, al);
    var m := Shr(v, al + 1);
    ShrBounds(v, al);
    assert m >= 1 && Shl(m, al + 1) >= m;
    CorrectedMultiple(b[k] < 0, m, al, Mag(c, b, k) % 2);
  }

  // ----- Steps of the decoder

  lemma ReadBit(t: CTables, s: Source, x: bool, rest: seq<Item>, end: Ahead)
    requires Feeds(s, t, [BitItem(x)] + rest, end)
    ensures GetBits(s, 1).Some? && GetBits(s, 1).value.0 == if x then 1 else 0
    ensures Feeds(GetBits(s, 1).value.1, t, rest, end) && Quiet(s, GetBits(s, 1).value.1)
  {
    hide GetBits, Feeds;
    ReadRaw(t, s, BitItem(x), rest, end);
  }

  lemma {:induction false} BitItemsConcat(a: seq<bool>, b: seq<bool>)
    ensures BitItems(a + b) == BitItems(a) + BitItems(b)
  {
    if a == [] {
      assert a + b == b;
    } else {
      assert (a + b)[1..] == a[1..] + b;
      BitItemsConcat(a[1..], b);
    }
  }

  lemma GoalStep(c: Band, b: Block, h: Block, k: nat, g: Block)
    requires c.ss <= k <= c.se < DCTSIZE2
    ensures Goal(c, b, h, k)[k] == h[k]
    ensures g == Goal(c, b, h, k) ==> g[k := TruncAc(b[k], c.al)] == Goal(c, b, h, k + 1)
    ensures TruncAc(b[k], c.al) == h[k] ==> Goal(c, b, h, k + 1) == Goal(c, b, h, k)
  {
    hide TruncAc;
  }

  /** Behind the last symbol of a block: one correction bit for every coefficient that is nonzero already. */
  lemma {:induction false} RestRoundTrip(c: Band, t: CTables, s: Source, b: Block, h: Block, k: nat, run: nat,
                                         newnz: seq<nat>, rest: seq<Item>, end: Ahead) returns (u: Source)
    requires BandOk(c) && c.refine && IsHistory(c, b, h) && run > 0
    requires c.ss <= k <= c.se + 1 && NoNew(c, b, k, c.se + 1)
    requires Feeds(s, t, BitItems(Corrections(c, b, k, c.se + 1)) + rest, end)
    ensures RefineRest(c, s, k, run, Goal(c, b, h, k), newnz) == BandDone(u, run - 1, Goal(c, b, h, c.se + 1))
    ensures Feeds(u, t, rest, end) && Quiet(s, u)
    decreases c.se + 1 - k
  {
    hide GetBits, Feeds, Corrected, TruncAc, Mag, IsCorrection;
    if k > c.se {
      assert BitItems(Corrections(c, b, k, c.se + 1)) + rest == rest;
      u := s;
    } else {
      CorrectionsFirst(c, b, k, c.se + 1);
      var more := Corrections(c, b, k + 1, c.se + 1);
      GoalStep(c, b, h, k, Goal(c, b, h, k));
      if IsCorrection(c, b, k) {
        var x := Mag(c, b, k) % 2 == 1;
        assert BitItems([x] + more) + rest == [BitItem(x)] + (BitItems(more) + rest);
        ReadBit(t, s, x, BitItems(more) + rest, end);
        HistoryOfCorrection(c, b, h, k);
        u := RestRoundTrip(c, t, GetBits(s, 1).value.1, b, h, k + 1, run, newnz, rest, end);
      } else {
        HistoryOfZero(c, b, h, k);
        assert [] + more == more;
        u := RestRoundTrip(c, t, s, b, h, k + 1, run, newnz, rest, end);
      }
    }
  }

  /** Over already-nonzero coefficients and r zero ones to the zero one at k. */
  lemma {:induction false} AdvanceRoundTrip(c: Band, t: CTables, s: Source, b: Block, h: Block, k0: nat, k: nat, r: nat,
                                            rest: seq<Item>, end: Ahead) returns (u: Source)
    requires BandOk(c) && c.refine && IsHistory(c, b, h)
    requires c.ss <= k0 <= k <= c.se && NoNew(c, b, k0, k) && Zeros(c, b, k0, k) == r && !IsCorrection(c, b, k)
    requires Feeds(s, t, BitItems(Corrections(c, b, k0, k)) + rest, end)
    ensures AdvanceOver(c, s, k0, r, Goal(c, b, h, k0)) == Stop(u, k, Goal(c, b, h, k))
    ensures Feeds(u, t, rest, end) && Quiet(s, u)
    decreases k - k0
  {
    hide GetBits, Feeds, Corrected, TruncAc, Mag, IsCorrection;
    GoalStep(c, b, h, k0, Goal(c, b, h, k0));
    if k0 == k {
      HistoryOfZero(c, b, h, k);
      assert BitItems(Corrections(c, b, k0, k)) + rest == rest;
      u := s;
    } else {
      CorrectionsFirst(c, b, k0, k);
      ZerosFirst(c, b, k0, k);
      var more := Corrections(c, b, k0 + 1, k);
      if IsCorrection(c, b, k0) {
        var x := Mag(c, b, k0) % 2 == 1;
        assert BitItems([x] + more) + rest == [BitItem(x)] + (BitItems(more) + rest);
        ReadBit(t, s, x, BitItems(more) + rest, end);
        HistoryOfCorrection(c, b, h, k0);
        NonzeroIfCorrection(c, b, k0);
        u := AdvanceRoundTrip(c, t, GetBits(s, 1).value.1, b, h, k0 + 1, k, r, rest, end);
      } else {
        HistoryOfZero(c, b, h, k0);
        assert [] + more == more;
        u := AdvanceRoundTrip(c, t, s, b, h, k0 + 1, k, r - 1, rest, end);
      }
    }
  }

  lemma NonzeroIfCorrection(c: Band, b: Block, k: nat)
    requires k < DCTSIZE2 && IsCorrection(c, b, k)
    ensures Mag(c, b, k) != 0
  {
  }

  // ----- From any position of a block

  function BandFrom(c: Band, h: HuffTbl, s: Source, k: nat, b: Block, newnz: seq<nat>): BandResult
    requires BandOk(c)
  {
    if c.refine then RefineBand(c, h, s, k, b, newnz) else FirstBand(c, h, s, k, b)
  }

  function EobTail(c: Band, s: Source, k: nat, run: nat, b: Block, newnz: seq<nat>): BandResult
    requires BandOk(c) && run > 0
  {
    if c.refine then RefineRest(c, s, k, run, b, newnz) else BandDone(s, run - 1, b)
  }

  lemma {:induction false} FirstScanHasNoCorrections(c: Band, b: Block, k0: nat, k1: nat)
    requires !c.refine && k0 <= k1 <= DCTSIZE2
    ensures Corrections(c, b, k0, k1) == []
    ensures NoNew(c, b, k0, k1) ==> Zeros(c, b, k0, k1) == k1 - k0
    decreases k1
  {
    hide Mag;
    if k0 < k1 {
      FirstScanHasNoCorrections(c, b, k0, k1 - 1);
      assert NoNew(c, b, k0, k1) ==> NoNew(c, b, k0, k1 - 1) && !IsNew(c, b, k1 - 1);
    }
  }

  /** Where nothing is new, a first scan has nothing to do. */
  lemma FirstScanSkips(c: Band, b: Block, h: Block, k0: nat, k1: nat)
    requires BandOk(c) && !c.refine && IsHistory(c, b, h)
    requires c.ss <= k0 <= k1 <= c.se + 1 && NoNew(c, b, k0, k1)
    ensures Goal(c, b, h, k0) == Goal(c, b, h, k1)
  {
    hide TruncAc, Mag, IsCorrection;
    forall i | k0 <= i < k1
      ensures TruncAc(b[i], c.al) == h[i]
    {
      assert !IsNew(c, b, i);
      FirstScanHasNoCorrections(c, b, i, i + 1);
      NotNewIsZero(c, b, i);
      HistoryOfZero(c, b, h, i);
    }
  }

  lemma NotNewIsZero(c: Band, b: Block, k: nat)
    requires k < DCTSIZE2 && !IsNew(c, b, k) && !c.refine
    ensures Mag(c, b, k) == 0 && !IsCorrection(c, b, k)
  {
  }

  lemma EobTailRoundTrip(c: Band, t: CTables, s: Source, b: Block, h: Block, k: nat, run: nat, newnz: seq<nat>,
                         rest: seq<Item>, end: Ahead) returns (u: Source)
    requires BandOk(c) && IsHistory(c, b, h) && run > 0
    requires c.ss <= k <= c.se + 1 && NoNew(c, b, k, c.se + 1)
    requires Feeds(s, t, BitItems(Corrections(c, b, k, c.se + 1)) + rest, end)
    ensures EobTail(c, s, k, run, Goal(c, b, h, k), newnz) == BandDone(u, run - 1, Goal(c, b, h, c.se + 1))
    ensures Feeds(u, t, rest, end) && Quiet(s, u)
  {
    hide Feeds, TruncAc, Mag, IsCorrection, Goal, RefineRest, IsHistory, NoNew;
    if c.refine {
      u := RestRoundTrip(c, t, s, b, h, k, run, newnz, rest, end);
    } else {
      FirstScanHasNoCorrections(c, b, k, c.se + 1);
      FirstScanSkips(c, b, h, k, c.se + 1);
      assert BitItems([]) + rest == rest;
      u := s;
    }
  }

  lemma FifteenBits()
    ensures NBits(MAX_EOBRUN) == 15
  {
    assert NBits(0x7F) == 7;
    assert NBits(0x7FF) == 4 + NBits(0x7F);
    assert NBits(0x7FFF) == 4 + NBits(0x7FF);
  }

  lemma EobRunValue(n: nat)
    requires 0 < n <= MAX_EOBRUN
    ensures var nb := NBits(n) - 1; 0 <= nb <= 14 && Pow2(nb) + Mask(n, nb) == n
  {
    NBitsBounds(n);
    hide NBits, Pow2, Mask;
    FifteenBits();
    NBitsMonotone(n, MAX_EOBRUN);
    TopBitOf(n, NBits(n) - 1);
  }

  lemma TopBitOf(n: nat, nb: nat)
    requires Pow2(nb) <= n < Pow2(nb + 1)
    ensures Pow2(nb) + Mask(n, nb) == n
  {
    MaskDropTop(n, nb);
  }

  lemma {:induction false} MaskDropTop(n: nat, k: nat)
    requires Pow2(k) <= n < 2 * Pow2(k)
    ensures Mask(n, k) == n - Pow2(k)
    decreases k
  {
    if k > 0 {
      MaskDropTop(n / 2, k - 1);
    }
  }

  lemma EobStep(c: Band, h: HuffTbl, s: Source, k: nat, b: Block, newnz: seq<nat>, nb: nat)
    requires BandOk(c) && k <= c.se && nb <= 14
    requires HuffDecode(h, s).Some? && HuffDecode(h, s).value.0 == 16 * nb
    requires nb > 0 ==> GetBits(HuffDecode(h, s).value.1, nb).Some?
    ensures var t := HuffDecode(h, s).value.1;
      var run := if nb == 0 then 1 else Pow2(nb) + GetBits(t, nb).value.0;
      var u := if nb == 0 then t else GetBits(t, nb).value.1;
      run > 0 ==> BandFrom(c, h, s, k, b, newnz) == EobTail(c, u, k, run, b, newnz)
  {
    hide HuffDecode, GetBits, RefineRest;
    assert (16 * nb) / 16 == nb && (16 * nb) % 16 == 0;
  }

  /** The symbol of a run of n blocks puts the decoder into the tail of the first of them. */
  lemma EobRoundTrip(c: Band, hs: DTables, t: CTables, s: Source, k: nat, b: Block, newnz: seq<nat>, n: nat,
                     rest: seq<Item>, end: Ahead) returns (u: Source)
    requires BandOk(c) && AllLinked(hs, t) && k <= c.se && 0 < n <= MAX_EOBRUN
    requires AllHaveCodes(t, EobItems(c.tbl, n)) && Feeds(s, t, EobItems(c.tbl, n) + rest, end)
    ensures Feeds(u, t, rest, end) && Quiet(s, u)
    ensures BandFrom(c, hs[4 + c.tbl], s, k, b, newnz) == EobTail(c, u, k, n, b, newnz)
  {
    hide HuffDecode, GetBits, BandFrom, EobTail, Feeds, AllLinked, NBits, Mask, Pow2;
    EobRunValue(n);
    var nb := NBits(n) - 1;
    var items := EobItems(c.tbl, n);
    assert HasCode(t, items[0]);
    assert items + rest == [items[0]] + (items[1..] + rest);
    ReadSym(hs, t, s, items[0], items[1..] + rest, end);
    var x := HuffDecode(hs[4 + c.tbl], s).value.1;
    if nb == 0 {
      assert items[1..] + rest == rest;
      u := x;
      PowZero(n);
    } else {
      assert items[1..] + rest == [items[1]] + rest;
      ReadRaw(t, x, items[1], rest, end);
      u := GetBits(x, nb).value.1;
    }
    EobStep(c, hs[4 + c.tbl], s, k, b, newnz, nb);
  }

  lemma PowZero(n: nat)
    ensures Pow2(0) + Mask(n, 0) == 1
  {
  }

  lemma RefineNewStep(c: Band, h: HuffTbl, s: Source, k0: nat, r: nat, b: Block, newnz: seq<nat>)
    requires BandOk(c) && k0 <= c.se && r <= 15
    requires HuffDecode(h, s).Some? && HuffDecode(h, s).value.0 == 16 * r + 1
    requires GetBits(HuffDecode(h, s).value.1, 1).Some?
    ensures var (x, u) := GetBits(HuffDecode(h, s).value.1, 1).value;
      var a := AdvanceOver(c, u, k0, r, b);
      a.Stop? && k0 <= a.k <= c.se ==>
        RefineBand(c, h, s, k0, b, newnz)
        == RefineBand(c, h, a.src, a.k + 1, Put(a.block, a.k, NewCoef(c, x)), newnz + [a.k])
  {
    hide HuffDecode, GetBits, AdvanceOver;
    assert (16 * r + 1) / 16 == r && (16 * r + 1) % 16 == 1;
  }

  lemma RefineZrlStep(c: Band, h: HuffTbl, s: Source, k0: nat, b: Block, newnz: seq<nat>)
    requires BandOk(c) && k0 <= c.se
    requires HuffDecode(h, s).Some? && HuffDecode(h, s).value.0 == 0xF0
    ensures var a := AdvanceOver(c, HuffDecode(h, s).value.1, k0, 15, b);
      a.Stop? && k0 <= a.k ==> RefineBand(c, h, s, k0, b, newnz) == RefineBand(c, h, a.src, a.k + 1, a.block, newnz)
  {
    hide HuffDecode, GetBits, AdvanceOver;
  }

  lemma FirstNewStep(c: Band, h: HuffTbl, s: Source, k0: nat, r: nat, n: nat, b: Block)
    requires BandOk(c) && k0 <= c.se && r <= 15 && 1 <= n <= 15
    requires HuffDecode(h, s).Some? && HuffDecode(h, s).value.0 == 16 * r + n
    requires GetBits(HuffDecode(h, s).value.1, n).Some?
    ensures var (x, u) := GetBits(HuffDecode(h, s).value.1, n).value;
      FirstBand(c, h, s, k0, b) == FirstBand(c, h, u, k0 + r + 1, Put(b, k0 + r, Shl(HuffExtend(x, n), c.al)))
  {
    hide HuffDecode, GetBits;
    assert (16 * r + n) / 16 == r && (16 * r + n) % 16 == n;
  }

  lemma FirstZrlStep(c: Band, h: HuffTbl, s: Source, k0: nat, b: Block)
    requires BandOk(c) && k0 <= c.se
    requires HuffDecode(h, s).Some? && HuffDecode(h, s).value.0 == 0xF0
    ensures FirstBand(c, h, s, k0, b) == FirstBand(c, h, HuffDecode(h, s).value.1, k0 + 16, b)
  {
    hide HuffDecode, GetBits;
  }

  lemma SignedShl(neg: bool, m: nat, al: nat)
    ensures Shl(Signed(neg, m), al) == Signed(neg, Shl(m, al))
  {
    ShlNegate(m, al);
  }

  lemma FirstNewValue(c: Band, b: Block, k: nat)
    requires BandOk(c) && k < DCTSIZE2 && IsNew(c, b, k)
    ensures var v := Signed(b[k] < 0, Mag(c, b, k));
      Shl(HuffExtend(Mask(Appended(v), NBits(Abs(v))), NBits(Abs(v))), c.al) == TruncAc(b[k], c.al)
      && Abs(v) == Mag(c, b, k)
  {
    hide HuffExtend, Mask, NBits, Shl, Shr;
    var v := Signed(b[k] < 0, Mag(c, b, k));
    ExtendInvertsAppended(v);
    SignedShl(b[k] < 0, Mag(c, b, k), c.al);
  }

  /** A newly nonzero coefficient at k behind r zeros (and, in a refinement scan, behind correction bits). */
  lemma NewRoundTrip(c: Band, hs: DTables, t: CTables, s: Source, b: Block, h: Block, k0: nat, k: nat, r: nat,
                     newnz: seq<nat>, rest: seq<Item>, end: Ahead) returns (u: Source, newnz': seq<nat>)
    requires BandOk(c) && AllLinked(hs, t) && IsHistory(c, b, h) && InRange(c, b)
    requires c.ss <= k0 <= k <= c.se && NoNew(c, b, k0, k) && IsNew(c, b, k) && Zeros(c, b, k0, k) == r <= 15
    requires AllHaveCodes(t, NewItems(c, b, k, r))
    requires Feeds(s, t, NewItems(c, b, k, r) + (BitItems(Corrections(c, b, k0, k)) + rest), end)
    ensures Feeds(u, t, rest, end) && Quiet(s, u)
    ensures BandFrom(c, hs[4 + c.tbl], s, k0, Goal(c, b, h, k0), newnz)
         == BandFrom(c, hs[4 + c.tbl], u, k + 1, Goal(c, b, h, k + 1), newnz')
  {
    hide HuffDecode, GetBits, Feeds, AllLinked, NBits, Mask, Pow2, Mag, TruncAc, Goal, RefineBand, FirstBand,
         AdvanceOver, HuffExtend, Shl, IsHistory, NoNew;
    var H := hs[4 + c.tbl];
    var items := NewItems(c, b, k, r);
    var tail := BitItems(Corrections(c, b, k0, k)) + rest;
    assert HasCode(t, items[0]) && HasCode(t, items[1]);
    assert items + tail == [items[0]] + ([items[1]] + tail);
    ReadSym(hs, t, s, items[0], [items[1]] + tail, end);
    var x := HuffDecode(H, s).value.1;
    ReadRaw(t, x, items[1], tail, end);
    GoalStep(c, b, h, k, Goal(c, b, h, k));
    if c.refine {
      u := GetBits(x, 1).value.1;
      u := AdvanceRoundTrip(c, t, u, b, h, k0, k, r, rest, end);
      RefineNewStep(c, H, s, k0, r, Goal(c, b, h, k0), newnz);
      HistoryOfZero(c, b, h, k);
      OneBit(b[k] >= 0);
      newnz' := newnz + [k];
    } else {
      var v := Signed(b[k] < 0, Mag(c, b, k));
      FirstNewValue(c, b, k);
      u := GetBits(x, NBits(Abs(v))).value.1;
      FirstScanHasNoCorrections(c, b, k0, k);
      assert BitItems([]) + rest == rest;
      FirstScanSkips(c, b, h, k0, k);
      FirstNewStep(c, H, s, k0, r, NBits(Abs(v)), Goal(c, b, h, k0));
      newnz' := newnz;
    }
  }

  lemma OneBit(x: bool)
    ensures Mask(if x then 1 else 0, 1) == if x then 1 else 0
  {
  }

  /** A ZRL symbol moves the decoder behind the sixteenth zero, which stands at z. */
  lemma ZrlRoundTrip(c: Band, hs: DTables, t: CTables, s: Source, b: Block, h: Block, k0: nat, z: nat,
                     newnz: seq<nat>, rest: seq<Item>, end: Ahead) returns (u: Source)
    requires BandOk(c) && AllLinked(hs, t) && IsHistory(c, b, h)
    requires c.ss <= k0 <= z <= c.se && NoNew(c, b, k0, z + 1) && Mag(c, b, z) == 0 && Zeros(c, b, k0, z) == 15
    requires HasCode(t, Sym(true, c.tbl, 0xF0))
    requires Feeds(s, t, [Sym(true, c.tbl, 0xF0)] + (BitItems(Corrections(c, b, k0, z)) + rest), end)
    ensures Feeds(u, t, rest, end) && Quiet(s, u)
    ensures BandFrom(c, hs[4 + c.tbl], s, k0, Goal(c, b, h, k0), newnz)
         == BandFrom(c, hs[4 + c.tbl], u, z + 1, Goal(c, b, h, z + 1), newnz)
  {
    hide HuffDecode, GetBits, Feeds, AllLinked, Mag, TruncAc, Goal, RefineBand, FirstBand, AdvanceOver, IsHistory;
    var H := hs[4 + c.tbl];
    ReadSym(hs, t, s, Sym(true, c.tbl, 0xF0), BitItems(Corrections(c, b, k0, z)) + rest, end);
    u := HuffDecode(H, s).value.1;
    if c.refine {
      NonzeroUnlessZero(c, b, z);
      GoalStep(c, b, h, z, Goal(c, b, h, z));
      HistoryOfZero(c, b, h, z);
      u := AdvanceRoundTrip(c, t, u, b, h, k0, z, 15, rest, end);
      RefineZrlStep(c, H, s, k0, Goal(c, b, h, k0), newnz);
    } else {
      FirstScanHasNoCorrections(c, b, k0, z);
      assert BitItems([]) + rest == rest;
      FirstScanSkips(c, b, h, k0, z + 1);
      FirstZrlStep(c, H, s, k0, Goal(c, b, h, k0));
    }
  }

  lemma NonzeroUnlessZero(c: Band, b: Block, k: nat)
    requires k < DCTSIZE2 && Mag(c, b, k) == 0
    ensures !IsCorrection(c, b, k)
  {
  }

  // ----- Runs of blocks

  type Decoded = Option<(Source, nat, seq<Block>)>

  function PrependBlocks(bs: seq<Block>, r: Decoded): Decoded {
    match r
    case None => None
    case Some((s, e, more)) => Some((s, e, bs + more))
  }

  lemma PrependPrepend(a: seq<Block>, b: seq<Block>, r: Decoded)
    ensures PrependBlocks(a, PrependBlocks(b, r)) == PrependBlocks(a + b, r)
    ensures PrependBlocks([], r) == r
  {
    match r
    case None =>
    case Some((s, e, more)) =>
      assert a + (b + more) == (a + b) + more;
      assert [] + more == more;
  }

  /** The rest of a block from position k, and then the following blocks. */
  function DecodeFrom(c: Band, h: HuffTbl, s: Source, k: nat, b: Block, newnz: seq<nat>, hist: seq<Block>): Decoded
    requires BandOk(c)
  {
    match BandFrom(c, h, s, k, b, newnz)
    case BandSuspended(_) => None
    case BandDone(t, e, b') => PrependBlocks([b'], DecodeBlocks(c, h, t, e, hist))
  }

  function AllCorrections(c: Band, bs: seq<Block>): seq<bool>
    requires BandOk(c)
  {
    if bs == [] then [] else Corrections(c, bs[0], c.ss, c.se + 1) + AllCorrections(c, bs[1..])
  }

  lemma {:induction false} AllCorrectionsSnoc(c: Band, bs: seq<Block>, b: Block)
    requires BandOk(c)
    ensures AllCorrections(c, bs + [b]) == AllCorrections(c, bs) + Corrections(c, b, c.ss, c.se + 1)
  {
    hide Corrections;
    if bs == [] {
      assert [b][1..] == [];
    } else {
      assert (bs + [b])[1..] == bs[1..] + [b];
      AllCorrectionsSnoc(c, bs[1..], b);
    }
  }

  function Goals(c: Band, bs: seq<Block>, hs: seq<Block>): seq<Block>
    requires |bs| == |hs|
  {
    if bs == [] then [] else [Goal(c, bs[0], hs[0], c.se + 1)] + Goals(c, bs[1..], hs[1..])
  }

  lemma {:induction false} GoalsConcat(c: Band, bs: seq<Block>, hs: seq<Block>, bs': seq<Block>, hs': seq<Block>)
    requires |bs| == |hs| && |bs'| == |hs'|
    ensures Goals(c, bs + bs', hs + hs') == Goals(c, bs, hs) + Goals(c, bs', hs')
  {
    hide Goal;
    if bs == [] {
      assert bs + bs' == bs' && hs + hs' == hs';
    } else {
      assert (bs + bs')[1..] == bs[1..] + bs' && (hs + hs')[1..] == hs[1..] + hs';
      GoalsConcat(c, bs[1..], hs[1..], bs', hs');
    }
  }

  ghost predicate AreHistories(c: Band, bs: seq<Block>, hs: seq<Block>)
    requires BandOk(c)
  {
    |bs| == |hs| && forall i :: 0 <= i < |bs| ==> IsHistory(c, bs[i], hs[i])
  }

  ghost predicate AllQuiet(c: Band, bs: seq<Block>)
    requires BandOk(c)
  {
    forall i :: 0 <= i < |bs| ==> NoNew(c, bs[i], c.ss, c.se + 1)
  }

  lemma GoalAtStart(c: Band, b: Block, h: Block)
    ensures Goal(c, b, h, c.ss) == h
  {
    hide TruncAc;
  }

  lemma StartOfBlock(c: Band, H: HuffTbl, s: Source, h: Block, hist: seq<Block>)
    requires BandOk(c)
    ensures DecodeBlocks(c, H, s, 0, [h] + hist) == DecodeFrom(c, H, s, c.ss, h, [], hist)
  {
    hide RefineBand, FirstBand, RefineRest;
    assert ([h] + hist)[1..] == hist;
  }

  /** Blocks that lie in an end-of-band run from their start. */
  lemma {:induction false} RunRoundTrip(c: Band, H: HuffTbl, t: CTables, s: Source, bs: seq<Block>, hs: seq<Block>,
                                        hist: seq<Block>, rest: seq<Item>, end: Ahead) returns (u: Source)
    requires BandOk(c) && AreHistories(c, bs, hs) && AllQuiet(c, bs)
    requires Feeds(s, t, BitItems(AllCorrections(c, bs)) + rest, end)
    ensures Feeds(u, t, rest, end) && Quiet(s, u)
    ensures DecodeBlocks(c, H, s, |bs|, hs + hist) == PrependBlocks(Goals(c, bs, hs), DecodeBlocks(c, H, u, 0, hist))
    decreases |bs|
  {
    hide Feeds, IsHistory, NoNew, Corrections, Goal, RefineRest, RefineBand, FirstBand;
    if bs == [] {
      assert BitItems([]) + rest == rest && hs + hist == hist;
      PrependPrepend([], [], DecodeBlocks(c, H, s, 0, hist));
      u := s;
    } else {
      var x, more := Corrections(c, bs[0], c.ss, c.se + 1), AllCorrections(c, bs[1..]);
      BitItemsConcat(x, more);
      assert BitItems(AllCorrections(c, bs)) + rest == BitItems(x) + (BitItems(more) + rest);
      GoalAtStart(c, bs[0], hs[0]);
      u := EobTailRoundTrip(c, t, s, bs[0], hs[0], c.ss, |bs|, [], BitItems(more) + rest, end);
      InRun(c, H, s, hs[0], |bs|);
      var v := u;
      u := RunRoundTrip(c, H, t, v, bs[1..], hs[1..], hist, rest, end);
      assert (hs + hist)[1..] == hs[1..] + hist;
      PrependPrepend([Goal(c, bs[0], hs[0], c.se + 1)], Goals(c, bs[1..], hs[1..]), DecodeBlocks(c, H, u, 0, hist));
      BlocksStep(c, H, s, |bs|, hs + hist);
    }
  }

  lemma InRun(c: Band, H: HuffTbl, s: Source, h: Block, run: nat)
    requires BandOk(c) && run > 0
    ensures DecodeBand(c, H, s, run, h) == EobTail(c, s, c.ss, run, h, [])
  {
    hide RefineRest, RefineBand, FirstBand;
  }

  lemma BlocksStep(c: Band, H: HuffTbl, s: Source, run: nat, hist: seq<Block>)
    requires BandOk(c) && hist != [] && DecodeBand(c, H, s, run, hist[0]).BandDone?
    ensures var d := DecodeBand(c, H, s, run, hist[0]);
      DecodeBlocks(c, H, s, run, hist) == PrependBlocks([d.block], DecodeBlocks(c, H, d.src, d.eobrun, hist[1..]))
  {
    hide DecodeBand;
  }

  /** The blocks with a pending end of band; the decoder stands at position k of the first. */
  datatype Pend = Pend(bs: seq<Block>, hs: seq<Block>, k: nat, newnz: seq<nat>)

  ghost predicate PendOk(c: Band, p: Pend, be: seq<bool>)
    requires BandOk(c)
  {
    && AreHistories(c, p.bs, p.hs)
    && (if p.bs == [] then be == []
        else
          && c.ss <= p.k <= c.se && NoNew(c, p.bs[0], p.k, c.se + 1) && AllQuiet(c, p.bs[1..])
          && be == Corrections(c, p.bs[0], p.k, c.se + 1) + AllCorrections(c, p.bs[1..]))
  }

  /** Decoding from where the decoder stands at a block boundary of the encoder. */
  function Point(c: Band, H: HuffTbl, s: Source, p: Pend, hist: seq<Block>): Decoded
    requires BandOk(c) && |p.bs| == |p.hs|
  {
    if p.bs == [] then DecodeBlocks(c, H, s, 0, hist)
    else DecodeFrom(c, H, s, p.k, Goal(c, p.bs[0], p.hs[0], p.k), p.newnz, p.hs[1..] + hist)
  }

  /** emit_eobrun brings the decoder to the block boundary. */
  lemma FlushRoundTrip(c: Band, hs: DTables, t: CTables, s: Source, p: Pend, be: seq<bool>, hist: seq<Block>,
                       rest: seq<Item>, end: Ahead) returns (u: Source)
    requires BandOk(c) && AllLinked(hs, t) && PendOk(c, p, be) && |p.bs| <= MAX_EOBRUN
    requires AllHaveCodes(t, Flush(c.tbl, |p.bs|, be)) && Feeds(s, t, Flush(c.tbl, |p.bs|, be) + rest, end)
    ensures Feeds(u, t, rest, end) && Quiet(s, u)
    ensures Point(c, hs[4 + c.tbl], s, p, hist)
         == PrependBlocks(Goals(c, p.bs, p.hs), DecodeBlocks(c, hs[4 + c.tbl], u, 0, hist))
  {
    hide Feeds, AllLinked, IsHistory, NoNew, Corrections, AllCorrections, Goal, DecodeBlocks, BandFrom, EobTail, EobItems;
    var H, n := hs[4 + c.tbl], |p.bs|;
    if p.bs == [] {
      assert Flush(c.tbl, n, be) + rest == rest;
      PrependPrepend([], [], DecodeBlocks(c, H, s, 0, hist));
      u := s;
    } else {
      var b0, h0 := p.bs[0], p.hs[0];
      var x, more := Corrections(c, b0, p.k, c.se + 1), AllCorrections(c, p.bs[1..]);
      CodesSplit(t, EobItems(c.tbl, n), BitItems(be));
      BitItemsConcat(x, more);
      assert Flush(c.tbl, n, be) + rest == EobItems(c.tbl, n) + (BitItems(x) + (BitItems(more) + rest));
      u := EobRoundTrip(c, hs, t, s, p.k, Goal(c, b0, h0, p.k), p.newnz, n, BitItems(x) + (BitItems(more) + rest), end);
      u := EobTailRoundTrip(c, t, u, b0, h0, p.k, n, p.newnz, BitItems(more) + rest, end);
      var v := u;
      u := RunRoundTrip(c, H, t, v, p.bs[1..], p.hs[1..], hist, rest, end);
      PrependPrepend([Goal(c, b0, h0, c.se + 1)], Goals(c, p.bs[1..], p.hs[1..]), DecodeBlocks(c, H, u, 0, hist));
    }
  }

  // ----- Within a block

  /** All the items of the blocks bs and of what is pending before them. */
  function SegItems(c: Band, bs: seq<Block>, p: Pending): seq<Item>
    requires BandOk(c)
  {
    if bs == [] then Flush(c.tbl, p.n, p.be)
    else
      var (items, p') := EncodeBlock(c, bs[0], p);
      items + SegItems(c, bs[1..], p')
  }

  /** The encoder is within block b, whose history is h; the decoder is at q of it unless blocks are pending. */
  datatype Mid = Mid(pd: Pend, b: Block, h: Block, q: nat, newnz: seq<nat>)

  ghost predicate MidOk(c: Band, m: Mid, k: nat, st: Run)
    requires BandOk(c)
  {
    && IsHistory(c, m.b, m.h) && PendOk(c, m.pd, st.be) && st.n == |m.pd.bs| < MAX_EOBRUN
    && c.ss <= m.q <= k <= c.se + 1 && (m.pd.bs != [] ==> m.q == c.ss)
    && NoNew(c, m.b, m.q, k) && st.r == Zeros(c, m.b, m.q, k) && st.br == Corrections(c, m.b, m.q, k)
  }

  /** Up to the last newly nonzero coefficient, no correction bit is buffered behind 16 zeros. */
  ghost predicate Early(c: Band, b: Block, q: nat, k: nat)
    requires k <= DCTSIZE2
  {
    forall j :: q <= j < k && IsCorrection(c, b, j) ==> Zeros(c, b, q, j) <= 15
  }

  function MidPoint(c: Band, H: HuffTbl, s: Source, m: Mid, hist: seq<Block>): Decoded
    requires BandOk(c) && |m.pd.bs| == |m.pd.hs|
  {
    if m.pd.bs == [] then DecodeFrom(c, H, s, m.q, Goal(c, m.b, m.h, m.q), m.newnz, hist)
    else Point(c, H, s, m.pd, [m.h] + hist)
  }

  /** The blocks that decoding from m completes before it gets where it is described by m', at u. */
  ghost predicate Moves(c: Band, H: HuffTbl, s: Source, m: Mid, u: Source, m': Mid, hist: seq<Block>, done: seq<Block>)
    requires BandOk(c) && |m.pd.bs| == |m.pd.hs| && |m'.pd.bs| == |m'.pd.hs|
  {
    && m'.b == m.b && m'.h == m.h && Quiet(s, u)
    && MidPoint(c, H, s, m, hist) == PrependBlocks(done, MidPoint(c, H, u, m', hist))
    && Goals(c, m.pd.bs, m.pd.hs) == done + Goals(c, m'.pd.bs, m'.pd.hs)
  }

  const NO_PEND := Pend([], [], 0, [])

  lemma FlushStep(c: Band, hs: DTables, t: CTables, s: Source, m: Mid, k: nat, st: Run, hist: seq<Block>,
                  rest: seq<Item>, end: Ahead) returns (u: Source, m': Mid)
    requires BandOk(c) && AllLinked(hs, t) && MidOk(c, m, k, st)
    requires AllHaveCodes(t, Flush(c.tbl, st.n, st.be)) && Feeds(s, t, Flush(c.tbl, st.n, st.be) + rest, end)
    ensures MidOk(c, m', k, Run(0, [], st.r, st.br)) && Feeds(u, t, rest, end) && m'.pd.bs == [] && m'.q == m.q
    ensures Moves(c, hs[4 + c.tbl], s, m, u, m', hist, Goals(c, m.pd.bs, m.pd.hs))
  {
    hide Feeds, AllLinked, IsHistory, NoNew, Corrections, AllCorrections, Goal, DecodeBlocks, BandFrom, DecodeFrom,
         Zeros, Goals;
    var H := hs[4 + c.tbl];
    assert Goals(c, [], []) == [] by { NoGoals(c); }
    if m.pd.bs == [] {
      assert Flush(c.tbl, st.n, st.be) + rest == rest;
      u, m' := s, m;
      PrependPrepend([], [], MidPoint(c, H, u, m', hist));
      assert m.pd.hs == [];
    } else {
      u := FlushRoundTrip(c, hs, t, s, m.pd, st.be, [m.h] + hist, rest, end);
      m' := Mid(NO_PEND, m.b, m.h, m.q, []);
      GoalAtStart(c, m.b, m.h);
      StartOfBlock(c, H, u, m.h, hist);
    }
    assert Goals(c, m.pd.bs, m.pd.hs) + [] == Goals(c, m.pd.bs, m.pd.hs);
  }

  lemma NoGoals(c: Band)
    ensures Goals(c, [], []) == []
  {
  }

  /** Position of the sixteenth of more than 15 zeros. */
  lemma {:induction false} SixteenthZero(c: Band, b: Block, q: nat, k: nat) returns (z: nat)
    requires q <= k <= DCTSIZE2 && Zeros(c, b, q, k) > 15
    ensures q <= z < k && Mag(c, b, z) == 0 && Zeros(c, b, q, z) == 15
    ensures Zeros(c, b, z + 1, k) == Zeros(c, b, q, k) - 16
    decreases k
  {
    hide Mag;
    if Zeros(c, b, q, k) == 16 && Mag(c, b, k - 1) == 0 {
      z := k - 1;
      assert Zeros(c, b, k, k) == 0;
    } else {
      z := SixteenthZero(c, b, q, k - 1);
    }
  }

  lemma {:induction false} NoLateCorrections(c: Band, b: Block, q: nat, z: nat, k: nat)
    requires q <= z < k <= DCTSIZE2 && Mag(c, b, z) == 0 && Zeros(c, b, q, z) == 15 && Early(c, b, q, k)
    ensures Corrections(c, b, q, z) == Corrections(c, b, q, k) && Corrections(c, b, z + 1, k) == []
    ensures forall j :: z + 1 <= j < k ==> !IsCorrection(c, b, j)
    decreases k
  {
    hide Mag, IsCorrection, Zeros;
    if z + 1 < k {
      NoLateCorrections(c, b, q, z, k - 1);
      ZerosMonotone(c, b, q, z + 1, k - 1);
      ZerosSnoc(c, b, q, z);
      assert !IsCorrection(c, b, k - 1);
    } else {
      NonzeroUnlessZero(c, b, z);
    }
  }

  lemma ZerosSnoc(c: Band, b: Block, q: nat, z: nat)
    requires q <= z < DCTSIZE2
    ensures Zeros(c, b, q, z + 1) == Zeros(c, b, q, z) + (if Mag(c, b, z) == 0 then 1 else 0)
    ensures Corrections(c, b, q, z + 1)
         == Corrections(c, b, q, z) + (if IsCorrection(c, b, z) then [Mag(c, b, z) % 2 == 1] else [])
  {
    hide Mag, IsCorrection;
  }

  lemma {:induction false} ZerosMonotone(c: Band, b: Block, q: nat, i: nat, j: nat)
    requires q <= i <= j <= DCTSIZE2
    ensures Zeros(c, b, q, i) <= Zeros(c, b, q, j)
    decreases j
  {
    hide Mag;
    if i < j {
      ZerosMonotone(c, b, q, i, j - 1);
    }
  }

  lemma NoNewParts(c: Band, b: Block, q: nat, z: nat, k: nat)
    requires q <= z <= k <= DCTSIZE2 && NoNew(c, b, q, k)
    ensures NoNew(c, b, q, z) && NoNew(c, b, z, k)
  {
    hide IsNew;
  }

  lemma MovesTwice(c: Band, H: HuffTbl, s: Source, m: Mid, u: Source, m': Mid, w: Source, m'': Mid, hist: seq<Block>,
                   g: seq<Block>, g': seq<Block>)
    requires BandOk(c) && |m.pd.bs| == |m.pd.hs| && |m'.pd.bs| == |m'.pd.hs| && |m''.pd.bs| == |m''.pd.hs|
    requires Moves(c, H, s, m, u, m', hist, g) && Moves(c, H, u, m', w, m'', hist, g')
    ensures Moves(c, H, s, m, w, m'', hist, g + g')
  {
    hide MidPoint, Goals;
    PrependPrepend(g, g', MidPoint(c, H, w, m'', hist));
    assert g + (g' + Goals(c, m''.pd.bs, m''.pd.hs)) == g + g' + Goals(c, m''.pd.bs, m''.pd.hs);
  }

  /** The first ZRL symbol of ZrlLoop, when nothing is pending. */
  lemma OneZrl(c: Band, hs: DTables, t: CTables, s: Source, m: Mid, k: nat, st: Run, hist: seq<Block>,
               rest: seq<Item>, end: Ahead) returns (u: Source, m': Mid)
    requires BandOk(c) && AllLinked(hs, t) && MidOk(c, m, k, st) && Early(c, m.b, m.q, k) && st.r > 15 && st.n == 0
    requires HasCode(t, Sym(true, c.tbl, 0xF0)) && Feeds(s, t, [Sym(true, c.tbl, 0xF0)] + (BitItems(st.br) + rest), end)
    ensures MidOk(c, m', k, Run(0, [], st.r - 16, [])) && Early(c, m'.b, m'.q, k) && Feeds(u, t, rest, end)
    ensures Moves(c, hs[4 + c.tbl], s, m, u, m', hist, [])
  {
    hide Feeds, AllLinked, IsHistory, Zeros, Corrections, AllCorrections, Goal, DecodeBlocks, BandFrom, Goals, Mag,
         IsNew, IsCorrection;
    var H := hs[4 + c.tbl];
    var z := SixteenthZero(c, m.b, m.q, k);
    NoLateCorrections(c, m.b, m.q, z, k);
    NoNewParts(c, m.b, m.q, z + 1, k);
    assert m.pd.bs == [] && m.pd.hs == [];
    u := ZrlRoundTrip(c, hs, t, s, m.b, m.h, m.q, z, m.newnz, rest, end);
    m' := m.(q := z + 1);
    PrependPrepend([], [], MidPoint(c, H, u, m', hist));
    assert [] + Goals(c, [], []) == Goals(c, [], []);
  }

  lemma {:induction false} ZrlLoopLockstep(c: Band, hs: DTables, t: CTables, s: Source, m: Mid, k: nat, st: Run,
                                           hist: seq<Block>, rest: seq<Item>, end: Ahead)
    returns (u: Source, m': Mid, done: seq<Block>)
    requires BandOk(c) && AllLinked(hs, t) && MidOk(c, m, k, st) && Early(c, m.b, m.q, k)
    requires AllHaveCodes(t, ZrlLoop(c.tbl, st).0) && Feeds(s, t, ZrlLoop(c.tbl, st).0 + rest, end)
    ensures MidOk(c, m', k, ZrlLoop(c.tbl, st).1) && ZrlLoop(c.tbl, st).1.r <= 15 && Early(c, m'.b, m'.q, k)
    ensures Feeds(u, t, rest, end) && Moves(c, hs[4 + c.tbl], s, m, u, m', hist, done)
    decreases st.r
  {
    hide Feeds, AllLinked, MidOk, MidPoint, Early, Goals, Flush;
    var H := hs[4 + c.tbl];
    if st.r <= 15 {
      assert [] + rest == rest;
      u, m', done := s, m, [];
      StayPut(c, H, s, m, hist, k, st);
    } else {
      var st1 := Run(0, [], st.r - 16, []);
      var more := ZrlLoop(c.tbl, st1).0;
      var f, zrl, br := Flush(c.tbl, st.n, st.be), Sym(true, c.tbl, 0xF0), BitItems(st.br);
      CodesSplit(t, f + [zrl] + br, more);
      CodesSplit(t, f + [zrl], br);
      CodesSplit(t, f, [zrl]);
      assert HasCode(t, [zrl][0]);
      assert f + [zrl] + br + more + rest == f + ([zrl] + (br + (more + rest)));
      MidLengths(c, m, k, st);
      u, m' := FlushStep(c, hs, t, s, m, k, st, hist, [zrl] + (br + (more + rest)), end);
      done := Goals(c, m.pd.bs, m.pd.hs);
      var m1, u1 := m', u;
      MidLengths(c, m1, k, Run(0, [], st.r, st.br));
      u, m' := OneZrl(c, hs, t, u1, m1, k, Run(0, [], st.r, st.br), hist, more + rest, end);
      MidLengths(c, m', k, st1);
      MovesTwice(c, H, s, m, u1, m1, u, m', hist, done, []);
      var m2, u2, d3 := m', u, [];
      u, m', d3 := ZrlLoopLockstep(c, hs, t, u2, m2, k, st1, hist, rest, end);
      MidLengths(c, m', k, ZrlLoop(c.tbl, st1).1);
      MovesTwice(c, H, s, m, u2, m2, u, m', hist, done + [], d3);
      done := done + [] + d3;
    }
  }

  lemma MidLengths(c: Band, m: Mid, k: nat, st: Run)
    requires BandOk(c) && MidOk(c, m, k, st)
    ensures |m.pd.bs| == |m.pd.hs| && c.ss <= m.q <= k <= c.se + 1 && st.n == |m.pd.bs| < MAX_EOBRUN
  {
  }

  lemma StayPut(c: Band, H: HuffTbl, s: Source, m: Mid, hist: seq<Block>, k: nat, st: Run)
    requires BandOk(c) && MidOk(c, m, k, st)
    ensures Moves(c, H, s, m, s, m, hist, [])
  {
    hide MidPoint, Goals;
    PrependPrepend([], [], MidPoint(c, H, s, m, hist));
  }
}
