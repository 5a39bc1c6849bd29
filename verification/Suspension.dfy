/**
 Suspension of the MCU decoders.  Every decoder is Onward (it never forgets insufficient_data, and once a marker has
 stopped the segment it neither suspends nor reads); a decoder that did complete does the same when more input is
 there; and a retry on the block that a suspended attempt left behind does what a first attempt would have done.
 */
module Suspension {
  import opened Bits
  import opened Wrappers
  import opened HuffmanTables
  import opened BitSource
  import opened Symbols
  import opened Feeding
  import opened Coefficients
  import opened SequentialCodec
  import opened AcBand
  import opened McuCodec

  /** A retry's block y: below k as in the block x, from k on as in x', which the suspended attempt left. */
  ghost predicate Agree(x: Block, x': Block, k: nat, y: Block) {
    (forall i :: 0 <= i < DCTSIZE2 && i < k ==> y[i] == x[i]) && (forall i :: k <= i < DCTSIZE2 ==> y[i] == x'[i])
  }

  lemma AgreeAll(x: Block, k: nat, y: Block)
    requires Agree(x, x, k, y)
    ensures y == x
  {
  }

  // ----- Sequential blocks

  lemma DcDiffOnward(h: HuffTbl, s: Source)
    ensures s.marker != 0 ==> DcDiff(h, s).Some?
    ensures DcDiff(h, s).Some? ==> Onward(s, DcDiff(h, s).value.1)
  {
    hide HuffDecode, GetBits, HuffExtend;
    HuffDecodeOnward(h, s);
    match HuffDecode(h, s)
    case None =>
    case Some((n, t)) => if 0 < n < 16 { GetBitsOnward(t, n); }
  }

  lemma DcDiffExtend(h: HuffTbl, s: Source, more: seq<byte>)
    requires DcDiff(h, s).Some?
    ensures DcDiff(h, Extend(s, more)) == Some(ExtendResult(DcDiff(h, s).value, more))
  {
    hide HuffDecode, GetBits, HuffExtend;
    HuffDecodeExtend(h, s, more);
    var (n, t) := HuffDecode(h, s).value;
    if 0 < n < 16 {
      GetBitsExtend(t, n, more);
    }
  }

  lemma {:induction false} DecodeAcOnward(h: HuffTbl, s: Source, k: nat, needed: bool, dc: int, b: Block)
    ensures var r := DecodeAc(h, s, k, needed, dc, b);
      (s.marker != 0 ==> r.Done?) && (r.Done? ==> Onward(s, r.src) && r.lastDc == dc)
    decreases DCTSIZE2 - k
  {
    hide HuffDecode, GetBits, HuffExtend, Put;
    if k < DCTSIZE2 {
      HuffDecodeOnward(h, s);
      match HuffDecode(h, s)
      case None =>
      case Some((sym, t)) =>
        var r, n := sym / 16, sym % 16;
        if n != 0 {
          GetBitsOnward(t, n);
          match GetBits(t, n)
          case None =>
          case Some((x, u)) =>
            DecodeAcOnward(h, u, k + r + 1, needed, dc, if needed then Put(b, k + r, HuffExtend(x, n)) else b);
        } else if r == 15 {
          DecodeAcOnward(h, t, k + 16, needed, dc, b);
        }
    }
  }

  function ExtendBlock(r: BlockResult, more: seq<byte>): BlockResult {
    match r
    case Done(s, dc, b) => Done(Extend(s, more), dc, b)
    case Suspended(b) => Suspended(b)
  }

  lemma {:induction false} DecodeAcExtend(h: HuffTbl, s: Source, k: nat, needed: bool, dc: int, b: Block, more: seq<byte>)
    requires DecodeAc(h, s, k, needed, dc, b).Done?
    ensures DecodeAc(h, Extend(s, more), k, needed, dc, b) == ExtendBlock(DecodeAc(h, s, k, needed, dc, b), more)
    decreases DCTSIZE2 - k
  {
    hide HuffDecode, GetBits, HuffExtend, Put, Extend;
    if k < DCTSIZE2 {
      HuffDecodeExtend(h, s, more);
      var (sym, t) := HuffDecode(h, s).value;
      var r, n := sym / 16, sym % 16;
      if n != 0 {
        GetBitsExtend(t, n, more);
        var (x, u) := GetBits(t, n).value;
        DecodeAcExtend(h, u, k + r + 1, needed, dc, if needed then Put(b, k + r, HuffExtend(x, n)) else b, more);
      } else if r == 15 {
        DecodeAcExtend(h, t, k + 16, needed, dc, b, more);
      }
    }
  }

  lemma {:induction false} DecodeAcKeeps(h: HuffTbl, s: Source, k: nat, needed: bool, dc: int, b: Block)
    ensures forall i :: 0 <= i < DCTSIZE2 && i < k ==> DecodeAc(h, s, k, needed, dc, b).block[i] == b[i]
    decreases DCTSIZE2 - k
  {
    hide HuffDecode, GetBits, HuffExtend;
    if k < DCTSIZE2 {
      match HuffDecode(h, s)
      case None =>
      case Some((sym, t)) =>
        var r, n := sym / 16, sym % 16;
        if n != 0 {
          match GetBits(t, n)
          case None =>
          case Some((x, u)) =>
            DecodeAcKeeps(h, u, k + r + 1, needed, dc, if needed then Put(b, k + r, HuffExtend(x, n)) else b);
        } else if r == 15 {
          DecodeAcKeeps(h, t, k + 16, needed, dc, b);
        }
    }
  }

  /** Decoding again on a block that was decoded before, completely or not. */
  lemma {:induction false} DecodeAcRetry(h: HuffTbl, s: Source, k: nat, needed: bool, dc: int, x: Block, y: Block,
                                         more: seq<byte>)
    requires Agree(x, DecodeAc(h, s, k, needed, dc, x).block, k, y)
    ensures DecodeAc(h, Extend(s, more), k, needed, dc, y) == DecodeAc(h, Extend(s, more), k, needed, dc, x)
    decreases DCTSIZE2 - k
  {
    hide HuffDecode, GetBits, HuffExtend, Extend, ToCoef;
    if k >= DCTSIZE2 {
      AgreeAll(x, k, y);
    } else {
      match HuffDecode(h, s)
      case None => AgreeAll(x, k, y);
      case Some((sym, t)) =>
        HuffDecodeExtend(h, s, more);
        var r, n := sym / 16, sym % 16;
        if n != 0 {
          match GetBits(t, n)
          case None => AgreeAll(x, k, y);
          case Some((v, u)) =>
            GetBitsExtend(t, n, more);
            var p, e := k + r, HuffExtend(v, n);
            var x1 := if needed then Put(x, p, e) else x;
            DecodeAcKeeps(h, u, p + 1, needed, dc, x1);
            DecodeAcRetry(h, u, p + 1, needed, dc, x1, if needed then Put(y, p, e) else y, more);
        } else if r == 15 {
          DecodeAcKeeps(h, t, k + 16, needed, dc, x);
          DecodeAcRetry(h, t, k + 16, needed, dc, x, y, more);
        } else {
          AgreeAll(x, k, y);
        }
    }
  }

  // ----- The first scan of an AC band

  function ExtendBand(r: BandResult, more: seq<byte>): BandResult {
    match r
    case BandDone(s, e, b) => BandDone(Extend(s, more), e, b)
    case BandSuspended(b) => BandSuspended(b)
  }

  lemma EobRunOnward(s: Source, r: nat)
    requires r <= 14
    ensures s.marker != 0 ==> EobRun(s, r).Some?
    ensures EobRun(s, r).Some? ==> Onward(s, EobRun(s, r).value.1)
  {
    hide GetBits, Pow2;
    GetBitsOnward(s, r);
  }

  lemma EobRunExtend(s: Source, r: nat, more: seq<byte>)
    requires r <= 14 && EobRun(s, r).Some?
    ensures EobRun(Extend(s, more), r) == Some(ExtendResult(EobRun(s, r).value, more))
  {
    hide GetBits, Pow2;
    if r > 0 {
      GetBitsExtend(s, r, more);
    }
  }

  lemma {:induction false} FirstBandOnward(c: Band, h: HuffTbl, s: Source, k: nat, b: Block)
    requires c.se < DCTSIZE2
    ensures var r := FirstBand(c, h, s, k, b); (s.marker != 0 ==> r.BandDone?) && (r.BandDone? ==> Onward(s, r.src))
    decreases DCTSIZE2 - k
  {
    hide HuffDecode, GetBits, HuffExtend, Put, EobRun, Shl;
    if k <= c.se {
      HuffDecodeOnward(h, s);
      match HuffDecode(h, s)
      case None =>
      case Some((sym, t)) =>
        var r, n := sym / 16, sym % 16;
        if n != 0 {
          GetBitsOnward(t, n);
          match GetBits(t, n)
          case None =>
          case Some((x, u)) => FirstBandOnward(c, h, u, k + r + 1, Put(b, k + r, Shl(HuffExtend(x, n), c.al)));
        } else if r == 15 {
          FirstBandOnward(c, h, t, k + 16, b);
        } else {
          EobRunOnward(t, r);
        }
    }
  }

  lemma {:induction false} FirstBandExtend(c: Band, h: HuffTbl, s: Source, k: nat, b: Block, more: seq<byte>)
    requires c.se < DCTSIZE2 && FirstBand(c, h, s, k, b).BandDone?
    ensures FirstBand(c, h, Extend(s, more), k, b) == ExtendBand(FirstBand(c, h, s, k, b), more)
    decreases DCTSIZE2 - k
  {
    hide HuffDecode, GetBits, HuffExtend, Put, EobRun, Shl, Extend;
    if k <= c.se {
      HuffDecodeExtend(h, s, more);
      var (sym, t) := HuffDecode(h, s).value;
      var r, n := sym / 16, sym % 16;
      if n != 0 {
        GetBitsExtend(t, n, more);
        var (x, u) := GetBits(t, n).value;
        FirstBandExtend(c, h, u, k + r + 1, Put(b, k + r, Shl(HuffExtend(x, n), c.al)), more);
      } else if r == 15 {
        FirstBandExtend(c, h, t, k + 16, b, more);
      } else {
        EobRunExtend(t, r, more);
      }
    }
  }

  lemma {:induction false} FirstBandKeeps(c: Band, h: HuffTbl, s: Source, k: nat, b: Block)
    requires c.se < DCTSIZE2 && FirstBand(c, h, s, k, b).BandSuspended?
    ensures forall i :: 0 <= i < DCTSIZE2 && i < k ==> FirstBand(c, h, s, k, b).block[i] == b[i]
    decreases DCTSIZE2 - k
  {
    hide HuffDecode, GetBits, HuffExtend, EobRun, Shl;
    match HuffDecode(h, s)
    case None =>
    case Some((sym, t)) =>
      var r, n := sym / 16, sym % 16;
      if n != 0 {
        match GetBits(t, n)
        case None =>
        case Some((x, u)) => FirstBandKeeps(c, h, u, k + r + 1, Put(b, k + r, Shl(HuffExtend(x, n), c.al)));
      } else if r == 15 {
        FirstBandKeeps(c, h, t, k + 16, b);
      }
  }

  lemma {:induction false} FirstBandRetry(c: Band, h: HuffTbl, s: Source, k: nat, x: Block, y: Block, more: seq<byte>)
    requires c.se < DCTSIZE2 && FirstBand(c, h, s, k, x).BandSuspended?
    requires Agree(x, FirstBand(c, h, s, k, x).block, k, y)
    ensures FirstBand(c, h, Extend(s, more), k, y) == FirstBand(c, h, Extend(s, more), k, x)
    decreases DCTSIZE2 - k
  {
    hide HuffDecode, GetBits, HuffExtend, Extend, ToCoef, EobRun, Shl;
    match HuffDecode(h, s)
    case None => AgreeAll(x, k, y);
    case Some((sym, t)) =>
      HuffDecodeExtend(h, s, more);
      var r, n := sym / 16, sym % 16;
      if n != 0 {
        match GetBits(t, n)
        case None => AgreeAll(x, k, y);
        case Some((v, u)) =>
          GetBitsExtend(t, n, more);
          var p, e := k + r, Shl(HuffExtend(v, n), c.al);
          FirstBandKeeps(c, h, u, p + 1, Put(x, p, e));
          FirstBandRetry(c, h, u, p + 1, Put(x, p, e), Put(y, p, e), more);
      } else if r == 15 {
        FirstBandKeeps(c, h, t, k + 16, x);
        FirstBandRetry(c, h, t, k + 16, x, y, more);
      } else {
        AgreeAll(x, k, y);
      }
  }

  // ----- The refinement scan of an AC band: correction bits

  lemma {:induction false} ShrAddPow2(v: int, al: nat, n: nat)
    requires al <= n
    ensures Shr(v + Pow2(n), al) == Shr(v, al) + Pow2(n - al)
    decreases al
  {
    if al > 0 {
      ShrAddPow2(v / 2, al - 1, n - 1);
      assert (v + Pow2(n)) / 2 == v / 2 + Pow2(n - 1);
    }
  }

  lemma BitSetAfter(v: int, al: nat, d: int)
    requires !BitSet(v, al) && (d == Pow2(al) || d == -Pow2(al))
    ensures BitSet(v + d, al)
  {
    hide Shr;
    ShrAddPow2(v, al, al);
    ShrAddPow2(v - Pow2(al), al, al);
    assert v - Pow2(al) + Pow2(al) == v;
  }

  lemma WrapKeepsBits(v: int, al: nat)
    requires al <= 13 && -65536 <= v < 65536
    ensures BitSet(ToCoef(v), al) == BitSet(v, al)
  {
    hide Shr, Pow2;
    ShrAddPow2(v, al, 16);
    ShrAddPow2(v - 65536, al, 16);
    PowEven(16 - al);
    assert Pow2(16) == 65536 by { Pow16(); }
    var w := ToCoef(v);
    assert w == v || w == v + 65536 || w == v - 65536;
    assert v - 65536 + 65536 == v;
  }

  lemma {:induction false} PowEven(n: nat)
    requires n > 0
    ensures Pow2(n) % 2 == 0
  {
    var half := Pow2(n - 1);
    hide Pow2;
    assert (2 * half) % 2 == 0;
  }

  lemma Pow16()
    ensures Pow2(16) == 65536
  {
    assert Pow2(8) == 256;
    assert Pow2(12) == 16 * Pow2(8);
    assert Pow2(16) == 16 * Pow2(12);
  }

  /** Adding a correction bit twice is adding it once: the test of the current bit makes a retry harmless. */
  lemma CorrectedTwice(v: Coef, al: nat, bit: int)
    requires al <= 13
    ensures Corrected(Corrected(v, al, bit), al, bit) == Corrected(v, al, bit)
    ensures v != 0 ==> Corrected(v, al, bit) != 0
  {
    hide ToCoef, Shr, BitSet;
    assert Pow2(al) <= 8192 by { PowBound(al); }
    if bit != 0 && !BitSet(v, al) {
      var d := if v >= 0 then Pow2(al) else -Pow2(al);
      BitSetAfter(v, al, d);
      WrapKeepsBits(v + d, al);
      assert -8192 <= d <= 8192 && (v >= 0 <==> d > 0);
      if v != 0 {
        WrapNonzero(v, d);
      }
    }
  }

  lemma PowBound(al: nat)
    requires al <= 13
    ensures Pow2(al) <= 8192
  {
    assert Pow2(13) == 8192 by { assert Pow2(8) == 256; }
    PowMonotone(al, 13);
  }

  lemma {:induction false} PowMonotone(a: nat, b: nat)
    requires a <= b
    ensures Pow2(a) <= Pow2(b)
    decreases b
  {
    if a < b {
      PowMonotone(a, b - 1);
    }
  }

  lemma WrapNonzero(v: Coef, d: int)
    requires v != 0 && -8192 <= d <= 8192 && (v > 0 <==> d > 0) && d != 0
    ensures ToCoef(v + d) != 0
  {
  }

  lemma {:induction false} UndoAt(b: Block, newnz: seq<nat>, i: nat)
    requires i < DCTSIZE2 && forall p :: p in newnz ==> p < DCTSIZE2
    ensures Undo(b, newnz)[i] == if i in newnz then 0 else b[i]
    decreases |newnz|
  {
    if newnz != [] {
      var n := |newnz| - 1;
      assert newnz == newnz[..n] + [newnz[n]];
      assert newnz[n] in newnz && forall p :: p in newnz[..n] ==> p in newnz;
      UndoAt(Put(b, newnz[n], 0), newnz[..n], i);
    }
  }

  ghost predicate Below(newnz: seq<nat>, k: nat) {
    k <= DCTSIZE2 && forall p :: p in newnz ==> p < k
  }

  /** The block that is left by a suspended attempt in which the coefficients newnz, all below k, became nonzero. */
  ghost predicate Undone(x: Block, newnz: seq<nat>, k: nat, x': Block) {
    forall i :: 0 <= i < DCTSIZE2 && i < k ==> x'[i] == if i in newnz then 0 else x[i]
  }

  lemma UndoneNow(x: Block, newnz: seq<nat>, k: nat)
    requires Below(newnz, k)
    ensures Undone(x, newnz, DCTSIZE2, Undo(x, newnz))
    ensures forall y :: Agree(x, Undo(x, newnz), k, y) ==> y == x
  {
    forall i | 0 <= i < DCTSIZE2
      ensures Undo(x, newnz)[i] == if i in newnz then 0 else x[i]
    {
      UndoAt(x, newnz, i);
    }
  }

  lemma {:induction false} RefineRestOnward(c: Band, s: Source, k: nat, run: nat, b: Block, newnz: seq<nat>)
    requires c.se < DCTSIZE2 && run > 0
    ensures var r := RefineRest(c, s, k, run, b, newnz);
      (s.marker != 0 ==> r.BandDone?) && (r.BandDone? ==> Onward(s, r.src))
    decreases DCTSIZE2 - k
  {
    hide GetBits, Corrected, Undo;
    if k <= c.se {
      GetBitsOnward(s, 1);
      if b[k] == 0 {
        RefineRestOnward(c, s, k + 1, run, b, newnz);
      } else {
        match GetBits(s, 1)
        case None =>
        case Some((x, u)) => RefineRestOnward(c, u, k + 1, run, b[k := Corrected(b[k], c.al, x)], newnz);
      }
    }
  }

  lemma {:induction false} RefineRestExtend(c: Band, s: Source, k: nat, run: nat, b: Block, newnz: seq<nat>, more: seq<byte>)
    requires c.se < DCTSIZE2 && run > 0 && RefineRest(c, s, k, run, b, newnz).BandDone?
    ensures RefineRest(c, Extend(s, more), k, run, b, newnz) == ExtendBand(RefineRest(c, s, k, run, b, newnz), more)
    decreases DCTSIZE2 - k
  {
    hide GetBits, Corrected, Undo, Extend;
    if k <= c.se {
      if b[k] == 0 {
        RefineRestExtend(c, s, k + 1, run, b, newnz, more);
      } else {
        GetBitsExtend(s, 1, more);
        var (x, u) := GetBits(s, 1).value;
        RefineRestExtend(c, u, k + 1, run, b[k := Corrected(b[k], c.al, x)], newnz, more);
      }
    }
  }

  lemma {:induction false} RefineRestKeeps(c: Band, s: Source, k: nat, run: nat, b: Block, newnz: seq<nat>)
    requires c.se < DCTSIZE2 && run > 0 && RefineRest(c, s, k, run, b, newnz).BandSuspended? && Below(newnz, k)
    ensures Undone(b, newnz, k, RefineRest(c, s, k, run, b, newnz).block)
    ensures forall i :: k <= i < DCTSIZE2 && b[i] == 0 ==> RefineRest(c, s, k, run, b, newnz).block[i] == 0
    decreases DCTSIZE2 - k
  {
    hide GetBits, Corrected, Undo;
    UndoneNow(b, newnz, k);
    if b[k] == 0 {
      RefineRestKeeps(c, s, k + 1, run, b, newnz);
    } else {
      match GetBits(s, 1)
      case None =>
      case Some((x, u)) => RefineRestKeeps(c, u, k + 1, run, b[k := Corrected(b[k], c.al, x)], newnz);
    }
  }

  lemma {:induction false} RefineRestRetry(c: Band, s: Source, k: nat, run: nat, x: Block, y: Block, newnz: seq<nat>,
                                           more: seq<byte>)
    requires c.se < DCTSIZE2 && c.al <= 13 && run > 0 && RefineRest(c, s, k, run, x, newnz).BandSuspended?
    requires Below(newnz, k) && Agree(x, RefineRest(c, s, k, run, x, newnz).block, k, y)
    ensures RefineRest(c, Extend(s, more), k, run, y, newnz) == RefineRest(c, Extend(s, more), k, run, x, newnz)
    decreases DCTSIZE2 - k
  {
    hide GetBits, Corrected, Undo, Extend;
    UndoneNow(x, newnz, k);
    if x[k] == 0 {
      RefineRestKeeps(c, s, k + 1, run, x, newnz);
      RefineRestRetry(c, s, k + 1, run, x, y, newnz, more);
    } else {
      match GetBits(s, 1)
      case None =>
      case Some((v, u)) =>
        GetBitsExtend(s, 1, more);
        var x1 := x[k := Corrected(x[k], c.al, v)];
        CorrectedTwice(x[k], c.al, v);
        RefineRestKeeps(c, u, k + 1, run, x1, newnz);
        assert y[k] == x1[k];
        RefineRestRetry(c, u, k + 1, run, x1, y[k := Corrected(y[k], c.al, v)], newnz, more);
    }
  }

  // ----- The refinement scan of an AC band: advancing

  function ExtendAdvance(a: Advance, more: seq<byte>): Advance {
    match a
    case Stop(s, k, b) => Stop(Extend(s, more), k, b)
    case Stuck(b) => Stuck(b)
  }

  lemma {:induction false} AdvanceOnward(c: Band, s: Source, k: nat, r: nat, b: Block)
    requires k <= c.se < DCTSIZE2
    ensures var a := AdvanceOver(c, s, k, r, b); (s.marker != 0 ==> a.Stop?) && (a.Stop? ==> Onward(s, a.src))
    decreases DCTSIZE2 - k
  {
    hide GetBits, Corrected;
    GetBitsOnward(s, 1);
    if b[k] != 0 {
      match GetBits(s, 1)
      case None =>
      case Some((x, u)) =>
        if k < c.se {
          AdvanceOnward(c, u, k + 1, r, b[k := Corrected(b[k], c.al, x)]);
        }
    } else if r > 0 && k < c.se {
      AdvanceOnward(c, s, k + 1, r - 1, b);
    }
  }

  lemma {:induction false} AdvanceExtend(c: Band, s: Source, k: nat, r: nat, b: Block, more: seq<byte>)
    requires k <= c.se < DCTSIZE2 && AdvanceOver(c, s, k, r, b).Stop?
    ensures AdvanceOver(c, Extend(s, more), k, r, b) == ExtendAdvance(AdvanceOver(c, s, k, r, b), more)
    decreases DCTSIZE2 - k
  {
    hide GetBits, Corrected, Extend;
    if b[k] != 0 {
      GetBitsExtend(s, 1, more);
      var (x, u) := GetBits(s, 1).value;
      if k < c.se {
        AdvanceExtend(c, u, k + 1, r, b[k := Corrected(b[k], c.al, x)], more);
      }
    } else if r > 0 && k < c.se {
      AdvanceExtend(c, s, k + 1, r - 1, b, more);
    }
  }

  function AdvanceBlock(a: Advance): Block {
    match a
    case Stop(_, _, b) => b
    case Stuck(b) => b
  }

  /** Advancing changes nothing below k or from its target on, and neither makes nor clears a zero. */
  ghost predicate AdvanceKept(a: Advance, k: nat, se: nat, b: Block)
    requires se < DCTSIZE2
  {
    && (forall i :: 0 <= i < DCTSIZE2 && (i < k || (a.Stop? && a.k <= i)) ==> AdvanceBlock(a)[i] == b[i])
    && (forall i :: 0 <= i < DCTSIZE2 ==> (AdvanceBlock(a)[i] == 0 <==> b[i] == 0))
    && (a.Stop? ==> k <= a.k <= se + 1 && (a.k <= se ==> b[a.k] == 0))
  }

  lemma {:induction false} AdvanceKeeps(c: Band, s: Source, k: nat, r: nat, b: Block)
    requires k <= c.se < DCTSIZE2 && c.al <= 13
    ensures AdvanceKept(AdvanceOver(c, s, k, r, b), k, c.se, b)
    decreases DCTSIZE2 - k
  {
    hide GetBits, Corrected;
    if b[k] != 0 {
      match GetBits(s, 1)
      case None =>
      case Some((x, u)) =>
        CorrectedTwice(b[k], c.al, x);
        if k < c.se {
          AdvanceKeeps(c, u, k + 1, r, b[k := Corrected(b[k], c.al, x)]);
        }
    } else if r > 0 && k < c.se {
      AdvanceKeeps(c, s, k + 1, r - 1, b);
    }
  }

  /** Advancing again over positions that have their correction bits already. */
  lemma {:induction false} AdvanceRetry(c: Band, s: Source, k: nat, r: nat, x: Block, y: Block, more: seq<byte>)
    requires k <= c.se < DCTSIZE2 && c.al <= 13 && AdvanceOver(c, s, k, r, x).Stop?
    requires var a := AdvanceOver(c, s, k, r, x);
      forall i :: 0 <= i < DCTSIZE2 && i < a.k ==> y[i] == if i < k then x[i] else a.block[i]
    requires AdvanceOver(c, s, k, r, x).k <= c.se ==> y[AdvanceOver(c, s, k, r, x).k] == 0
    ensures var a := AdvanceOver(c, s, k, r, x);
      && AdvanceOver(c, Extend(s, more), k, r, y) == Stop(Extend(a.src, more), a.k, y)
      && AdvanceOver(c, Extend(s, more), k, r, x) == Stop(Extend(a.src, more), a.k, a.block)
      && Agree(a.block, y, a.k, y)
    decreases DCTSIZE2 - k
  {
    hide GetBits, Corrected, Extend;
    AdvanceKeeps(c, s, k, r, x);
    AdvanceExtend(c, s, k, r, x, more);
    if x[k] != 0 {
      GetBitsExtend(s, 1, more);
      var (v, u) := GetBits(s, 1).value;
      CorrectedTwice(x[k], c.al, v);
      var x1 := x[k := Corrected(x[k], c.al, v)];
      if k < c.se {
        AdvanceKeeps(c, u, k + 1, r, x1);
        assert y[k] == x1[k];
        assert y[k := Corrected(y[k], c.al, v)] == y;
        AdvanceRetry(c, u, k + 1, r, x1, y, more);
      } else {
        assert y[k := Corrected(y[k], c.al, v)] == y;
      }
    } else if r > 0 && k < c.se {
      AdvanceKeeps(c, s, k + 1, r - 1, x);
      AdvanceRetry(c, s, k + 1, r - 1, x, y, more);
    }
  }

  lemma {:induction false} AdvanceStuckRetry(c: Band, s: Source, k: nat, r: nat, x: Block, y: Block, more: seq<byte>)
    requires k <= c.se < DCTSIZE2 && c.al <= 13 && AdvanceOver(c, s, k, r, x).Stuck?
    requires Agree(x, AdvanceOver(c, s, k, r, x).block, k, y)
    ensures AdvanceOver(c, Extend(s, more), k, r, y) == AdvanceOver(c, Extend(s, more), k, r, x)
    decreases DCTSIZE2 - k
  {
    hide GetBits, Corrected, Extend;
    AdvanceKeeps(c, s, k, r, x);
    if x[k] != 0 {
      match GetBits(s, 1)
      case None => AgreeAll(x, k, y);
      case Some((v, u)) =>
        GetBitsExtend(s, 1, more);
        CorrectedTwice(x[k], c.al, v);
        var x1 := x[k := Corrected(x[k], c.al, v)];
        AdvanceKeeps(c, u, k + 1, r, x1);
        assert y[k] == x1[k];
        AdvanceStuckRetry(c, u, k + 1, r, x1, y[k := Corrected(y[k], c.al, v)], more);
    } else {
      AdvanceKeeps(c, s, k + 1, r - 1, x);
      AdvanceStuckRetry(c, s, k + 1, r - 1, x, y, more);
    }
  }

  // ----- The refinement scan of an AC band: symbols

  lemma SignBitOnward(s: Source, n: nat)
    ensures s.marker != 0 ==> SignBit(s, n).Some?
    ensures SignBit(s, n).Some? ==> Onward(s, SignBit(s, n).value.1)
  {
    hide GetBits;
    GetBitsOnward(if n == 1 then s else Warn(s), 1);
  }

  lemma SignBitExtend(s: Source, n: nat, more: seq<byte>)
    requires SignBit(s, n).Some?
    ensures SignBit(Extend(s, more), n) == Some(ExtendResult(SignBit(s, n).value, more))
  {
    hide GetBits;
    GetBitsExtend(if n == 1 then s else Warn(s), 1, more);
  }

  lemma {:induction false} RefineBandOnward(c: Band, h: HuffTbl, s: Source, k: nat, b: Block, newnz: seq<nat>)
    requires c.se < DCTSIZE2
    ensures var r := RefineBand(c, h, s, k, b, newnz);
      (s.marker != 0 ==> r.BandDone?) && (r.BandDone? ==> Onward(s, r.src))
    decreases DCTSIZE2 - k
  {
    hide HuffDecode, SignBit, EobRun, AdvanceOver, RefineRest, Put, Undo, NewCoef;
    if k <= c.se {
      HuffDecodeOnward(h, s);
      match HuffDecode(h, s)
      case None =>
      case Some((sym, t)) =>
        var r, n := sym / 16, sym % 16;
        if n == 0 && r != 15 {
          EobRunOnward(t, r);
          match EobRun(t, r)
          case None =>
          case Some((run, u)) => RefineRestOnward(c, u, k, run, b, newnz);
        } else if n == 0 {
          AdvanceOnward(c, t, k, r, b);
          match AdvanceOver(c, t, k, r, b)
          case Stuck(_) =>
          case Stop(u, k', b') => RefineBandOnward(c, h, u, k' + 1, b', newnz);
        } else {
          SignBitOnward(t, n);
          match SignBit(t, n)
          case None =>
          case Some((x, u)) =>
            AdvanceOnward(c, u, k, r, b);
            match AdvanceOver(c, u, k, r, b)
            case Stuck(_) =>
            case Stop(w, k', b') => RefineBandOnward(c, h, w, k' + 1, Put(b', k', NewCoef(c, x)), newnz + [k']);
        }
    }
  }

  lemma {:induction false} RefineBandExtend(c: Band, h: HuffTbl, s: Source, k: nat, b: Block, newnz: seq<nat>,
                                            more: seq<byte>)
    requires c.se < DCTSIZE2 && RefineBand(c, h, s, k, b, newnz).BandDone?
    ensures RefineBand(c, h, Extend(s, more), k, b, newnz) == ExtendBand(RefineBand(c, h, s, k, b, newnz), more)
    decreases DCTSIZE2 - k
  {
    hide HuffDecode, SignBit, EobRun, AdvanceOver, RefineRest, Put, Undo, NewCoef, Extend;
    if k <= c.se {
      HuffDecodeExtend(h, s, more);
      var (sym, t) := HuffDecode(h, s).value;
      var r, n := sym / 16, sym % 16;
      if n == 0 && r != 15 {
        EobRunExtend(t, r, more);
        var (run, u) := EobRun(t, r).value;
        RefineRestExtend(c, u, k, run, b, newnz, more);
      } else if n == 0 {
        AdvanceExtend(c, t, k, r, b, more);
        var a := AdvanceOver(c, t, k, r, b);
        RefineBandExtend(c, h, a.src, a.k + 1, a.block, newnz, more);
      } else {
        SignBitExtend(t, n, more);
        var (x, u) := SignBit(t, n).value;
        AdvanceExtend(c, u, k, r, b, more);
        var a := AdvanceOver(c, u, k, r, b);
        RefineBandExtend(c, h, a.src, a.k + 1, Put(a.block, a.k, NewCoef(c, x)), newnz + [a.k], more);
      }
    }
  }

  lemma BelowLater(newnz: seq<nat>, k: nat, k': nat)
    requires Below(newnz, k) && k <= k' <= DCTSIZE2
    ensures Below(newnz, k')
    ensures k' < DCTSIZE2 ==> Below(newnz + [k'], k' + 1)
  {
  }

  /** What a suspended attempt leaves below the position where it was resumed. */
  lemma {:induction false} RefineBandKeeps(c: Band, h: HuffTbl, s: Source, k: nat, b: Block, newnz: seq<nat>)
    requires c.se < DCTSIZE2 && c.al <= 13 && RefineBand(c, h, s, k, b, newnz).BandSuspended? && Below(newnz, k)
    ensures Undone(b, newnz, k, RefineBand(c, h, s, k, b, newnz).block)
    decreases DCTSIZE2 - k
  {
    hide HuffDecode, SignBit, EobRun, AdvanceOver, RefineRest, Undo, NewCoef, ToCoef;
    UndoneNow(b, newnz, k);
    match HuffDecode(h, s)
    case None =>
    case Some((sym, t)) =>
      var r, n := sym / 16, sym % 16;
      if n == 0 && r != 15 {
        match EobRun(t, r)
        case None =>
        case Some((run, u)) => RefineRestKeeps(c, u, k, run, b, newnz);
      } else if n == 0 {
        AdvanceKeeps(c, t, k, r, b);
        match AdvanceOver(c, t, k, r, b)
        case Stuck(b') => UndoneNow(b', newnz, k);
        case Stop(u, k', b') =>
          assert k' <= c.se;
          BelowLater(newnz, k, k' + 1);
          RefineBandKeeps(c, h, u, k' + 1, b', newnz);
      } else {
        match SignBit(t, n)
        case None =>
        case Some((x, u)) =>
          AdvanceKeeps(c, u, k, r, b);
          match AdvanceOver(c, u, k, r, b)
          case Stuck(b') => UndoneNow(b', newnz, k);
          case Stop(w, k', b') =>
            assert k' <= c.se;
            BelowLater(newnz, k, k');
            RefineBandKeeps(c, h, w, k' + 1, Put(b', k', NewCoef(c, x)), newnz + [k']);
      }
  }

  lemma {:induction false} RefineBandRetry(c: Band, h: HuffTbl, s: Source, k: nat, x: Block, y: Block, newnz: seq<nat>,
                                           more: seq<byte>)
    requires c.se < DCTSIZE2 && c.al <= 13 && RefineBand(c, h, s, k, x, newnz).BandSuspended?
    requires Below(newnz, k) && Agree(x, RefineBand(c, h, s, k, x, newnz).block, k, y)
    ensures RefineBand(c, h, Extend(s, more), k, y, newnz) == RefineBand(c, h, Extend(s, more), k, x, newnz)
    decreases DCTSIZE2 - k
  {
    hide HuffDecode, SignBit, EobRun, AdvanceOver, RefineRest, Undo, NewCoef, ToCoef, Extend;
    UndoneNow(x, newnz, k);
    match HuffDecode(h, s)
    case None =>
    case Some((sym, t)) =>
      HuffDecodeExtend(h, s, more);
      var r, n := sym / 16, sym % 16;
      if n == 0 && r != 15 {
        match EobRun(t, r)
        case None =>
        case Some((run, u)) =>
          EobRunExtend(t, r, more);
          RefineRestRetry(c, u, k, run, x, y, newnz, more);
      } else if n == 0 {
        AdvanceKeeps(c, t, k, r, x);
        match AdvanceOver(c, t, k, r, x)
        case Stuck(x') => StuckThenUndone(c, t, k, r, x, y, newnz, more);
        case Stop(u, k', x1) => ZrlRetry(c, h, t, k, r, x, y, newnz, more);
      } else {
        match SignBit(t, n)
        case None =>
        case Some((v, u)) =>
          SignBitExtend(t, n, more);
          AdvanceKeeps(c, u, k, r, x);
          match AdvanceOver(c, u, k, r, x)
          case Stuck(x') => StuckThenUndone(c, u, k, r, x, y, newnz, more);
          case Stop(w, k', x1) => NewCoefRetry(c, h, u, v, k, r, x, y, newnz, more);
      }
  }

  lemma StuckThenUndone(c: Band, s: Source, k: nat, r: nat, x: Block, y: Block, newnz: seq<nat>, more: seq<byte>)
    requires k <= c.se < DCTSIZE2 && c.al <= 13 && AdvanceOver(c, s, k, r, x).Stuck? && Below(newnz, k)
    requires Agree(x, Undo(AdvanceOver(c, s, k, r, x).block, newnz), k, y)
    ensures AdvanceOver(c, Extend(s, more), k, r, y) == AdvanceOver(c, Extend(s, more), k, r, x)
  {
    hide AdvanceOver, Undo, Extend;
    UndoneNow(AdvanceOver(c, s, k, r, x).block, newnz, k);
    AdvanceStuckRetry(c, s, k, r, x, y, more);
  }

  /** The retry goes through the same ZRL symbol. */
  lemma ZrlRetry(c: Band, h: HuffTbl, t: Source, k: nat, r: nat, x: Block, y: Block, newnz: seq<nat>, more: seq<byte>)
    requires k <= c.se < DCTSIZE2 && c.al <= 13 && AdvanceOver(c, t, k, r, x).Stop? && Below(newnz, k)
    requires var a := AdvanceOver(c, t, k, r, x);
      var d := RefineBand(c, h, a.src, a.k + 1, a.block, newnz);
      d.BandSuspended? && Agree(x, d.block, k, y)
    ensures var a := AdvanceOver(c, Extend(t, more), k, r, x);
      var a' := AdvanceOver(c, Extend(t, more), k, r, y);
      && a.Stop? && a'.Stop?
      && RefineBand(c, h, a'.src, a'.k + 1, a'.block, newnz) == RefineBand(c, h, a.src, a.k + 1, a.block, newnz)
    decreases DCTSIZE2 - k, 0
  {
    hide HuffDecode, AdvanceOver, Undo, Extend;
    var a := AdvanceOver(c, t, k, r, x);
    AdvanceKeeps(c, t, k, r, x);
    assert a.k <= c.se by { NoBandLeft(c, h, a.src, a.k + 1, a.block, newnz); }
    BelowLater(newnz, k, a.k + 1);
    RefineBandKeeps(c, h, a.src, a.k + 1, a.block, newnz);
    AdvanceRetry(c, t, k, r, x, y, more);
    RefineBandRetry(c, h, a.src, a.k + 1, a.block, y, newnz, more);
  }

  lemma NoBandLeft(c: Band, h: HuffTbl, s: Source, k: nat, b: Block, newnz: seq<nat>)
    requires c.se < DCTSIZE2 && RefineBand(c, h, s, k, b, newnz).BandSuspended?
    ensures k <= c.se
  {
  }

  /** The retry goes through the same newly nonzero coefficient, which the rollback has cleared. */
  lemma NewCoefRetry(c: Band, h: HuffTbl, u: Source, v: int, k: nat, r: nat, x: Block, y: Block, newnz: seq<nat>,
                     more: seq<byte>)
    requires k <= c.se < DCTSIZE2 && c.al <= 13 && AdvanceOver(c, u, k, r, x).Stop? && Below(newnz, k)
    requires var a := AdvanceOver(c, u, k, r, x);
      var d := RefineBand(c, h, a.src, a.k + 1, Put(a.block, a.k, NewCoef(c, v)), newnz + [a.k]);
      d.BandSuspended? && Agree(x, d.block, k, y)
    ensures var a := AdvanceOver(c, Extend(u, more), k, r, x);
      var a' := AdvanceOver(c, Extend(u, more), k, r, y);
      && a.Stop? && a'.Stop? && a'.k == a.k
      && RefineBand(c, h, a'.src, a'.k + 1, Put(a'.block, a'.k, NewCoef(c, v)), newnz + [a'.k])
         == RefineBand(c, h, a.src, a.k + 1, Put(a.block, a.k, NewCoef(c, v)), newnz + [a.k])
    decreases DCTSIZE2 - k, 0
  {
    hide HuffDecode, AdvanceOver, Undo, Extend, ToCoef, NewCoef;
    var a := AdvanceOver(c, u, k, r, x);
    var b := Put(a.block, a.k, NewCoef(c, v));
    AdvanceKeeps(c, u, k, r, x);
    assert a.k <= c.se by { NoBandLeft(c, h, a.src, a.k + 1, b, newnz + [a.k]); }
    BelowLater(newnz, k, a.k);
    RefineBandKeeps(c, h, a.src, a.k + 1, b, newnz + [a.k]);
    AdvanceRetry(c, u, k, r, x, y, more);
    RefineBandRetry(c, h, a.src, a.k + 1, b, Put(y, a.k, NewCoef(c, v)), newnz + [a.k], more);
  }

  // ----- One block of an AC scan

  lemma DecodeBandOnward(c: Band, h: HuffTbl, s: Source, eobrun: nat, b: Block)
    requires BandOk(c)
    ensures var r := DecodeBand(c, h, s, eobrun, b);
      (s.marker != 0 ==> r.BandDone?) && (r.BandDone? ==> Onward(s, r.src))
  {
    hide RefineRest, RefineBand, FirstBand;
    if c.refine {
      if eobrun > 0 {
        RefineRestOnward(c, s, c.ss, eobrun, b, []);
      } else {
        RefineBandOnward(c, h, s, c.ss, b, []);
      }
    } else if eobrun == 0 {
      FirstBandOnward(c, h, s, c.ss, b);
    }
  }

  lemma DecodeBandExtend(c: Band, h: HuffTbl, s: Source, eobrun: nat, b: Block, more: seq<byte>)
    requires BandOk(c) && DecodeBand(c, h, s, eobrun, b).BandDone?
    ensures DecodeBand(c, h, Extend(s, more), eobrun, b) == ExtendBand(DecodeBand(c, h, s, eobrun, b), more)
  {
    hide RefineRest, RefineBand, FirstBand, Extend;
    if c.refine {
      if eobrun > 0 {
        RefineRestExtend(c, s, c.ss, eobrun, b, [], more);
      } else {
        RefineBandExtend(c, h, s, c.ss, b, [], more);
      }
    } else if eobrun == 0 {
      FirstBandExtend(c, h, s, c.ss, b, more);
    }
  }

  lemma DecodeBandRetry(c: Band, h: HuffTbl, s: Source, eobrun: nat, x: Block, more: seq<byte>)
    requires BandOk(c) && DecodeBand(c, h, s, eobrun, x).BandSuspended?
    ensures DecodeBand(c, h, Extend(s, more), eobrun, DecodeBand(c, h, s, eobrun, x).block)
         == DecodeBand(c, h, Extend(s, more), eobrun, x)
  {
    hide RefineRest, RefineBand, FirstBand, Extend;
    var y := DecodeBand(c, h, s, eobrun, x).block;
    if c.refine {
      if eobrun > 0 {
        RefineRestKeeps(c, s, c.ss, eobrun, x, []);
        RefineRestRetry(c, s, c.ss, eobrun, x, y, [], more);
      } else {
        RefineBandKeeps(c, h, s, c.ss, x, []);
        RefineBandRetry(c, h, s, c.ss, x, y, [], more);
      }
    } else {
      FirstBandKeeps(c, h, s, c.ss, x);
      FirstBandRetry(c, h, s, c.ss, x, y, more);
    }
  }

  // ----- The blocks of an MCU in the other kinds of scan

  lemma DecodeUnitOnward(c: Scan, hs: DTables, s: Source, ci: nat, dc: int, b: Block)
    requires ScanOk(c) && ci < MAX_COMPS_IN_SCAN
    ensures var r := DecodeUnit(c, hs, s, ci, dc, b); (s.marker != 0 ==> r.Done?) && (r.Done? ==> Onward(s, r.src))
  {
    hide DcDiff, DecodeAc, GetBits, Put, Shl, SetBit;
    var h, a := hs[c.dcTbl[ci]], hs[4 + c.acTbl[ci]];
    DcDiffOnward(h, s);
    GetBitsOnward(s, 1);
    if c.kind == Sequential {
      match DcDiff(h, s)
      case None =>
      case Some((diff, t)) =>
        if c.needed[ci] {
          DecodeAcOnward(a, t, 1, c.acNeeded[ci], dc + diff, Put(b, 0, dc + diff));
        } else {
          DecodeAcOnward(a, t, 1, c.acNeeded[ci], dc, b);
        }
    }
  }

  lemma DecodeUnitExtend(c: Scan, hs: DTables, s: Source, ci: nat, dc: int, b: Block, more: seq<byte>)
    requires ScanOk(c) && ci < MAX_COMPS_IN_SCAN && DecodeUnit(c, hs, s, ci, dc, b).Done?
    ensures DecodeUnit(c, hs, Extend(s, more), ci, dc, b) == ExtendBlock(DecodeUnit(c, hs, s, ci, dc, b), more)
  {
    hide DcDiff, DecodeAc, GetBits, Put, Shl, SetBit, Extend;
    var h, a := hs[c.dcTbl[ci]], hs[4 + c.acTbl[ci]];
    if c.kind == Sequential {
      DcDiffExtend(h, s, more);
      var (diff, t) := DcDiff(h, s).value;
      if c.needed[ci] {
        DecodeAcExtend(a, t, 1, c.acNeeded[ci], dc + diff, Put(b, 0, dc + diff), more);
      } else {
        DecodeAcExtend(a, t, 1, c.acNeeded[ci], dc, b, more);
      }
    } else if c.kind == DcFirst {
      DcDiffExtend(h, s, more);
    } else {
      GetBitsExtend(s, 1, more);
    }
  }

  lemma SetBitTwice(v: Coef, al: nat)
    requires al <= 13
    ensures SetBit(SetBit(v, al), al) == SetBit(v, al)
  {
    hide ToCoef, BitSet;
    if !BitSet(v, al) {
      PowBound(al);
      BitSetAfter(v, al, Pow2(al));
      WrapKeepsBits(v + Pow2(al), al);
    }
  }

  /** Decoding again on a block that was decoded before, completely or not. */
  lemma DecodeUnitRetry(c: Scan, hs: DTables, s: Source, ci: nat, dc: int, x: Block, more: seq<byte>)
    requires ScanOk(c) && ci < MAX_COMPS_IN_SCAN
    ensures DecodeUnit(c, hs, Extend(s, more), ci, dc, DecodeUnit(c, hs, s, ci, dc, x).block)
         == DecodeUnit(c, hs, Extend(s, more), ci, dc, x)
  {
    hide DcDiff, DecodeAc, GetBits, Shl, SetBit, Extend, ToCoef;
    var h, a := hs[c.dcTbl[ci]], hs[4 + c.acTbl[ci]];
    var y := DecodeUnit(c, hs, s, ci, dc, x).block;
    if c.kind == Sequential {
      match DcDiff(h, s)
      case None =>
      case Some((diff, t)) =>
        DcDiffExtend(h, s, more);
        var need := c.acNeeded[ci];
        if c.needed[ci] {
          var x1 := Put(x, 0, dc + diff);
          DecodeAcKeeps(a, t, 1, need, dc + diff, x1);
          DecodeAcRetry(a, t, 1, need, dc + diff, x1, Put(y, 0, dc + diff), more);
        } else {
          DecodeAcKeeps(a, t, 1, need, dc, x);
          DecodeAcRetry(a, t, 1, need, dc, x, y, more);
        }
    } else if c.kind == DcFirst {
      if DcDiff(h, s).Some? {
        DcDiffExtend(h, s, more);
      }
    } else {
      SetBitTwice(x[0], c.al);
      if GetBits(s, 1).Some? {
        GetBitsExtend(s, 1, more);
      }
    }
  }

  lemma {:induction false} DecodeUnitsOnward(c: Scan, hs: DTables, s: Source, last: LastDc, mcu: Mcu, i: nat)
    requires ScanOk(c) && IsMcu(c, mcu) && i <= |mcu|
    ensures var r := DecodeUnits(c, hs, s, last, mcu, i);
      (s.marker != 0 ==> r.UnitsDone?) && (r.UnitsDone? ==> Onward(s, r.src) && IsMcu(c, r.mcu))
    decreases |mcu| - i
  {
    hide DecodeUnit;
    if i < |mcu| {
      var ci := c.membership[i];
      DecodeUnitOnward(c, hs, s, ci, last[ci], mcu[i]);
      match DecodeUnit(c, hs, s, ci, last[ci], mcu[i])
      case Suspended(_) =>
      case Done(t, dc, b) => DecodeUnitsOnward(c, hs, t, last[ci := dc], mcu[i := b], i + 1);
    }
  }

  function ExtendUnits(r: UnitsResult, more: seq<byte>): UnitsResult {
    match r
    case UnitsDone(s, last, m) => UnitsDone(Extend(s, more), last, m)
    case UnitsSuspended(m) => UnitsSuspended(m)
  }

  lemma {:induction false} DecodeUnitsExtend(c: Scan, hs: DTables, s: Source, last: LastDc, mcu: Mcu, i: nat,
                                             more: seq<byte>)
    requires ScanOk(c) && IsMcu(c, mcu) && i <= |mcu| && DecodeUnits(c, hs, s, last, mcu, i).UnitsDone?
    ensures DecodeUnits(c, hs, Extend(s, more), last, mcu, i) == ExtendUnits(DecodeUnits(c, hs, s, last, mcu, i), more)
    decreases |mcu| - i
  {
    hide DecodeUnit, Extend;
    if i < |mcu| {
      var ci := c.membership[i];
      DecodeUnitExtend(c, hs, s, ci, last[ci], mcu[i], more);
      var d := DecodeUnit(c, hs, s, ci, last[ci], mcu[i]);
      DecodeUnitsExtend(c, hs, d.src, last[ci := d.lastDc], mcu[i := d.block], i + 1, more);
    }
  }

  lemma {:induction false} DecodeUnitsKeeps(c: Scan, hs: DTables, s: Source, last: LastDc, mcu: Mcu, i: nat)
    requires ScanOk(c) && IsMcu(c, mcu) && i <= |mcu| && DecodeUnits(c, hs, s, last, mcu, i).UnitsSuspended?
    ensures var m := DecodeUnits(c, hs, s, last, mcu, i).mcu; |m| == |mcu| && m[..i] == mcu[..i]
    decreases |mcu| - i
  {
    hide DecodeUnit;
    var ci := c.membership[i];
    match DecodeUnit(c, hs, s, ci, last[ci], mcu[i])
    case Suspended(_) =>
    case Done(t, dc, b) =>
      DecodeUnitsKeeps(c, hs, t, last[ci := dc], mcu[i := b], i + 1);
      var m := DecodeUnits(c, hs, s, last, mcu, i).mcu;
      assert m[..i] == m[..i + 1][..i] && mcu[..i] == mcu[i := b][..i + 1][..i];
  }

  /** A retry's MCU y: the blocks below i as in x, the others as in x', which the suspended attempt left. */
  ghost predicate AgreeMcu(x: Mcu, x': Mcu, i: nat, y: Mcu) {
    |y| == |x| == |x'| && i <= |x| && y[..i] == x[..i] && y[i..] == x'[i..]
  }

  lemma SuspendedAt(c: Scan, hs: DTables, s: Source, last: LastDc, x: Mcu, y: Mcu, i: nat, b: Block)
    requires ScanOk(c) && IsMcu(c, x) && IsMcu(c, y) && i < |x| && y == x[i := b]
    requires DecodeUnit(c, hs, s, c.membership[i], last[c.membership[i]], b)
          == DecodeUnit(c, hs, s, c.membership[i], last[c.membership[i]], x[i])
    ensures DecodeUnits(c, hs, s, last, y, i) == DecodeUnits(c, hs, s, last, x, i)
  {
    hide DecodeUnit;
    var b' := DecodeUnit(c, hs, s, c.membership[i], last[c.membership[i]], x[i]).block;
    assert y[i := b'] == x[i := b'];
  }

  /** The retry overwrites what the completed blocks of the suspended attempt were set to by the same values. */
  lemma {:induction false} DecodeUnitsRetry(c: Scan, hs: DTables, s: Source, last: LastDc, x: Mcu, y: Mcu, i: nat,
                                            more: seq<byte>)
    requires ScanOk(c) && IsMcu(c, x) && IsMcu(c, y) && i <= |x| && DecodeUnits(c, hs, s, last, x, i).UnitsSuspended?
    requires AgreeMcu(x, DecodeUnits(c, hs, s, last, x, i).mcu, i, y)
    ensures DecodeUnits(c, hs, Extend(s, more), last, y, i) == DecodeUnits(c, hs, Extend(s, more), last, x, i)
    decreases |x| - i
  {
    hide DecodeUnit, Extend;
    var ci := c.membership[i];
    var x' := DecodeUnits(c, hs, s, last, x, i).mcu;
    assert y[i] == y[i..][0] == x'[i..][0] == x'[i];
    var d := DecodeUnit(c, hs, s, ci, last[ci], x[i]);
    DecodeUnitRetry(c, hs, s, ci, last[ci], x[i], more);
    if d.Suspended? {
      assert y == y[..i] + y[i..] == x[i := d.block];
      SuspendedAt(c, hs, Extend(s, more), last, x, y, i, d.block);
    } else {
      var x1, last1 := x[i := d.block], last[ci := d.lastDc];
      DecodeUnitsKeeps(c, hs, d.src, last1, x1, i + 1);
      assert x'[i] == x'[..i + 1][i] == d.block;
      DecodeUnitExtend(c, hs, s, ci, last[ci], x[i], more);
      assert y[i := d.block] == y;
      assert y[i + 1..] == y[i..][1..] && x'[i + 1..] == x'[i..][1..];
      assert y[..i + 1] == y[..i] + [y[i]] && x1[..i + 1] == x[..i] + [d.block];
      DecodeUnitsRetry(c, hs, d.src, last1, x1, y, i + 1, more);
    }
  }

  // ----- MCUs

  function ExtendCore(core: Core, more: seq<byte>): Core {
    core.(src := Extend(core.src, more))
  }

  lemma DecodeMcuOnward(c: Scan, hs: DTables, core: Core, mcu: Mcu)
    requires ScanOk(c) && IsMcu(c, mcu)
    ensures core.src.marker != 0 ==> DecodeMcu(c, hs, core, mcu).McuDone?
    ensures DecodeMcu(c, hs, core, mcu).McuDone? ==>
      Onward(core.src, DecodeMcu(c, hs, core, mcu).core.src) && IsMcu(c, DecodeMcu(c, hs, core, mcu).mcu)
  {
    hide DecodeBand, DecodeUnits;
    DecodeUnitsOnward(c, hs, core.src, core.last, mcu, 0);
    if c.kind == AcScan {
      DecodeBandOnward(c.band, hs[4 + c.band.tbl], core.src, core.eobrun, mcu[0]);
    }
  }

  /** An MCU that was decoded is decoded in the same way when more input follows. */
  lemma DecodeMcuExtend(c: Scan, hs: DTables, core: Core, mcu: Mcu, more: seq<byte>)
    requires ScanOk(c) && IsMcu(c, mcu) && DecodeMcu(c, hs, core, mcu).McuDone?
    ensures var r := DecodeMcu(c, hs, core, mcu);
      DecodeMcu(c, hs, ExtendCore(core, more), mcu) == McuDone(ExtendCore(r.core, more), r.mcu)
  {
    hide DecodeBand, DecodeUnits;
    if !(core.src.starved && c.kind != DcRefine) {
      if c.kind == AcScan {
        DecodeBandExtend(c.band, hs[4 + c.band.tbl], core.src, core.eobrun, mcu[0], more);
      } else {
        DecodeUnitsExtend(c, hs, core.src, core.last, mcu, 0, more);
      }
    }
  }

  /** A retry with more input does what a first attempt with that input would have done, on whatever was left behind. */
  lemma DecodeMcuRetry(c: Scan, hs: DTables, core: Core, mcu: Mcu, more: seq<byte>)
    requires ScanOk(c) && IsMcu(c, mcu) && DecodeMcu(c, hs, core, mcu).McuSuspended?
    ensures var left := DecodeMcu(c, hs, core, mcu).mcu;
      IsMcu(c, left) && DecodeMcu(c, hs, ExtendCore(core, more), left) == DecodeMcu(c, hs, ExtendCore(core, more), mcu)
  {
    hide DecodeBand, DecodeUnits;
    if c.kind == AcScan {
      DecodeBandRetry(c.band, hs[4 + c.band.tbl], core.src, core.eobrun, mcu[0], more);
    } else {
      DecodeUnitsKeeps(c, hs, core.src, core.last, mcu, 0);
      DecodeUnitsRetry(c, hs, core.src, core.last, mcu, DecodeUnits(c, hs, core.src, core.last, mcu, 0).mcu, 0, more);
    }
  }
}
