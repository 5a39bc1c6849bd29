/**
 The decoding of one block, on blocks as they are stored: the DC difference and the AC loop of decode_mcu (jdhuff.c),
 and decode_mcu_AC_first and decode_mcu_AC_refine with its rollback (jdphuff.c).
 */
module BlockDecoders {
  import opened Bits
  import opened Wrappers
  import opened HuffmanTables
  import opened BitSource
  import opened BitReaders
  import opened Symbols
  import opened Feeding
  import opened Coefficients
  import opened NaturalOrder
  import opened SequentialCodec
  import opened AcBand

  ghost function Zz(block: array<Coef>): Block
    requires block.Length == DCTSIZE2
    reads block
  {
    InZigzag(block[..])
  }

  /** Storing a coefficient; positions past the end of the block go to its last coefficient. */
  method Store(block: array<Coef>, k: nat, v: int)
    requires block.Length == DCTSIZE2 && k < DCTSIZE2 + 16
    modifies block
    ensures Zz(block) == Put(old(Zz(block)), k, v)
  {
    ghost var was := block[..];
    StoreInZigzag(was, k, ToCoef(v));
    block[Natural(k)] := ToCoef(v);
    assert block[..] == was[Natural(k) := ToCoef(v)];
  }

  method Fetch(block: array<Coef>, k: nat) returns (v: Coef)
    requires block.Length == DCTSIZE2 && k < DCTSIZE2
    ensures v == Zz(block)[k]
  {
    v := block[Natural(k)];
  }

  /** Section F.2.2.1: the DC difference. */
  method DecodeDcDiff(br: BitReader, d: DDerivedTbl) returns (r: Option<int>)
    requires br.Valid() && IsDDerived(d.pub, d)
    modifies br
    ensures br.Valid() && r.Some? == DcDiff(d.pub, old(br.Src())).Some?
    ensures r.Some? ==> DcDiff(d.pub, old(br.Src())) == Some((r.value, br.Src()))
    ensures r.None? ==> Unstopped(old(br.Src()), br.Src()) && br.unreadMarker == 0
  {
    hide HuffDecode, GetBits, HuffExtend, IsDDerived;
    HuffUnstopped(d.pub, br.Src());
    var sym := br.HuffDecodeSymbol(d);
    if sym.None? {
      return None;
    }
    var s := sym.value;
    if s == 0 || s >= 16 {
      return Some(0);
    }
    var bits := br.ReadBits(s);
    if bits.None? {
      return None;
    }
    r := Some(HuffExtend(bits.value, s));
  }

  lemma HuffUnstopped(h: HuffTbl, s: Source)
    ensures HuffDecode(h, s).Some? ==> Unstopped(s, HuffDecode(h, s).value.1)
  {
    hide Fill, SlowDecode, ShortLen, Symbol;
    FillUnstopped(s);
    var t := if |s.buf| < HUFF_LOOKAHEAD && Fill(s, 0).Some? then Fill(s, 0).value else s;
    SlowUnstopped(h, t, 1);
    SlowUnstopped(h, t, 9);
  }

  lemma SlowUnstopped(h: HuffTbl, s: Source, l: nat)
    requires 1 <= l <= 9
    ensures SlowDecode(h, s, l).Some? ==> Unstopped(s, SlowDecode(h, s, l).value.1)
  {
    hide Need, Collect;
    NeedUnstopped(s, l);
    NeedSize(s, l);
    match Need(s, l)
    case None =>
    case Some(t) => CollectUnstopped(h, Drop(t, l), l, FromBits(t.buf[..l]));
  }

  lemma {:induction false} CollectUnstopped(h: HuffTbl, s: Source, l: nat, code: nat)
    requires 1 <= l <= 17
    ensures Collect(h, s, l, code).Some? ==> Unstopped(s, Collect(h, s, l, code).value.1)
    decreases 17 - l
  {
    hide Need, MaxCode, Symbol;
    if l <= 16 && code > MaxCode(h.bits, l) {
      NeedUnstopped(s, 1);
      NeedSize(s, 1);
      match Need(s, 1)
      case None =>
      case Some(t) => CollectUnstopped(h, Drop(t, 1), l + 1, AppendBit(code, t.buf[0]));
    }
  }

  lemma BitsUnstopped(s: Source, n: nat)
    requires n <= MIN_GET_BITS
    ensures GetBits(s, n).Some? ==> Unstopped(s, GetBits(s, n).value.1)
  {
    hide Need;
    NeedUnstopped(s, n);
    NeedSize(s, n);
  }

  /** Section F.2.2.2: the AC coefficients of a sequential block; those not needed are discarded. */
  method DecodeAcCoefs(br: BitReader, d: DDerivedTbl, needed: bool, ghost dc: int, block: array<Coef>) returns (ok: bool)
    requires br.Valid() && IsDDerived(d.pub, d) && block.Length == DCTSIZE2
    modifies br, block
    ensures br.Valid() && ok == DecodeAc(d.pub, old(br.Src()), 1, needed, dc, old(Zz(block))).Done?
    ensures ok ==> DecodeAc(d.pub, old(br.Src()), 1, needed, dc, old(Zz(block))) == Done(br.Src(), dc, Zz(block))
    ensures !ok ==> DecodeAc(d.pub, old(br.Src()), 1, needed, dc, old(Zz(block))) == Suspended(Zz(block))
    ensures !ok ==> Unstopped(old(br.Src()), br.Src()) && br.unreadMarker == 0
  {
    hide HuffDecode, GetBits, HuffExtend, IsDDerived, Put, Zz, DecodeAc;
    ghost var s0 := br.Src();
    ghost var total := DecodeAc(d.pub, s0, 1, needed, dc, Zz(block));
    var k: nat := 1;
    while k < DCTSIZE2
      invariant br.Valid() && Unstopped(s0, br.Src()) && DecodeAc(d.pub, br.Src(), k, needed, dc, Zz(block)) == total
      decreases DCTSIZE2 - k
    {
      DecodeAcStep(d.pub, br.Src(), k, needed, dc, Zz(block));
      HuffUnstopped(d.pub, br.Src());
      var sym := br.HuffDecodeSymbol(d);
      if sym.None? {
        return false;
      }
      var r, s := sym.value / 16, sym.value % 16;
      if s != 0 {
        k := k + r;
        BitsUnstopped(br.Src(), s);
        var bits := br.ReadBits(s);
        if bits.None? {
          return false;
        }
        if needed {
          Store(block, k, HuffExtend(bits.value, s));
        }
        k := k + 1;
      } else {
        if r != 15 {
          return true;
        }
        k := k + 16;
      }
    }
    DecodeAcPastEnd(d.pub, br.Src(), k, needed, dc, Zz(block));
    ok := true;
  }

  lemma DecodeAcPastEnd(h: HuffTbl, s: Source, k: nat, needed: bool, dc: int, b: Block)
    requires k >= DCTSIZE2
    ensures DecodeAc(h, s, k, needed, dc, b) == Done(s, dc, b)
  {
  }

  lemma DecodeAcStep(h: HuffTbl, s: Source, k: nat, needed: bool, dc: int, b: Block)
    requires k < DCTSIZE2
    ensures DecodeAc(h, s, k, needed, dc, b) ==
      match HuffDecode(h, s)
      case None => Suspended(b)
      case Some((sym, t)) =>
        var r, n := sym / 16, sym % 16;
        if n != 0 then
          match GetBits(t, n)
          case None => Suspended(b)
          case Some((x, u)) =>
            DecodeAc(h, u, k + r + 1, needed, dc, if needed then Put(b, k + r, HuffExtend(x, n)) else b)
        else if r != 15 then Done(t, dc, b)
        else DecodeAc(h, t, k + 16, needed, dc, b)
  {
    hide HuffDecode, GetBits, HuffExtend, Put;
  }

  // ----- decode_mcu_AC_first

  /** The run length of an EOBr symbol. */
  method ReadEobRun(br: BitReader, r: nat) returns (run: Option<nat>)
    requires br.Valid() && r <= 14
    modifies br
    ensures br.Valid() && run.Some? == EobRun(old(br.Src()), r).Some?
    ensures run.Some? ==> EobRun(old(br.Src()), r) == Some((run.value, br.Src()))
    ensures run.None? ==> br.Src() == old(br.Src()) && br.unreadMarker == 0
  {
    hide GetBits, Shl, Pow2;
    ShlPow2(1, r);
    var n := Shl(1, r);
    if r != 0 {
      var bits := br.ReadBits(r);
      if bits.None? {
        return None;
      }
      n := n + bits.value;
    } else {
      PowOfZero();
    }
    run := Some(n);
  }

  lemma PowOfZero()
    ensures Pow2(0) == 1
  {
  }

  lemma FirstBandStep(c: Band, h: HuffTbl, s: Source, k: nat, b: Block)
    requires k <= c.se < DCTSIZE2
    ensures FirstBand(c, h, s, k, b) ==
      match HuffDecode(h, s)
      case None => BandSuspended(b)
      case Some((sym, t)) =>
        var r, n := sym / 16, sym % 16;
        if n != 0 then
          match GetBits(t, n)
          case None => BandSuspended(b)
          case Some((x, u)) => FirstBand(c, h, u, k + r + 1, Put(b, k + r, Shl(HuffExtend(x, n), c.al)))
        else if r == 15 then FirstBand(c, h, t, k + 16, b)
        else
          match EobRun(t, r)
          case None => BandSuspended(b)
          case Some((run, u)) => BandDone(u, run - 1, b)
  {
    hide HuffDecode, GetBits, HuffExtend, Put, EobRun, Shl;
  }

  lemma FirstBandPastEnd(c: Band, h: HuffTbl, s: Source, k: nat, b: Block)
    requires c.se < k && c.se < DCTSIZE2
    ensures FirstBand(c, h, s, k, b) == BandDone(s, 0, b)
  {
  }

  method DecodeAcFirst(c: Band, br: BitReader, d: DDerivedTbl, eobrun: nat, block: array<Coef>) returns (r: Option<nat>)
    requires BandOk(c) && !c.refine && br.Valid() && IsDDerived(d.pub, d) && block.Length == DCTSIZE2
    modifies br, block
    ensures br.Valid() && r.Some? == DecodeBand(c, d.pub, old(br.Src()), eobrun, old(Zz(block))).BandDone?
    ensures r.Some? ==>
      DecodeBand(c, d.pub, old(br.Src()), eobrun, old(Zz(block))) == BandDone(br.Src(), r.value, Zz(block))
    ensures r.None? ==> DecodeBand(c, d.pub, old(br.Src()), eobrun, old(Zz(block))) == BandSuspended(Zz(block))
    ensures r.None? ==> Unstopped(old(br.Src()), br.Src()) && br.unreadMarker == 0
  {
    hide HuffDecode, GetBits, HuffExtend, IsDDerived, Put, Zz, FirstBand, EobRun, Shl;
    if eobrun > 0 {
      return Some(eobrun - 1);
    }
    ghost var s0 := br.Src();
    ghost var total := FirstBand(c, d.pub, s0, c.ss, Zz(block));
    var k: nat := c.ss;
    while k <= c.se
      invariant br.Valid() && Unstopped(s0, br.Src()) && FirstBand(c, d.pub, br.Src(), k, Zz(block)) == total
      decreases DCTSIZE2 - k
    {
      FirstBandStep(c, d.pub, br.Src(), k, Zz(block));
      HuffUnstopped(d.pub, br.Src());
      var sym := br.HuffDecodeSymbol(d);
      if sym.None? {
        return None;
      }
      var run, s := sym.value / 16, sym.value % 16;
      if s != 0 {
        k := k + run;
        BitsUnstopped(br.Src(), s);
        var bits := br.ReadBits(s);
        if bits.None? {
          return None;
        }
        Store(block, k, Shl(HuffExtend(bits.value, s), c.al));
        k := k + 1;
      } else if run == 15 {
        k := k + 16;
      } else {
        var n := ReadEobRun(br, run);
        if n.None? {
          return None;
        }
        return Some(n.value - 1);
      }
    }
    FirstBandPastEnd(c, d.pub, br.Src(), k, Zz(block));
    r := Some(0);
  }

  // ----- decode_mcu_AC_refine

  /** The next correction bit, added to a nonzero coefficient unless it is there already. */
  method CorrectOne(c: Band, br: BitReader, k: nat, block: array<Coef>) returns (ok: bool)
    requires BandOk(c) && br.Valid() && block.Length == DCTSIZE2 && k < DCTSIZE2
    modifies br, block
    ensures br.Valid() && ok == GetBits(old(br.Src()), 1).Some?
    ensures ok ==>
      var (x, u) := GetBits(old(br.Src()), 1).value;
      br.Src() == u && Zz(block) == old(Zz(block))[k := Corrected(old(Zz(block))[k], c.al, x)]
    ensures !ok ==> br.Src() == old(br.Src()) && br.unreadMarker == 0 && Zz(block) == old(Zz(block))
  {
    hide GetBits, Zz, Shr, Pow2;
    ghost var b := Zz(block);
    var bit := br.ReadBits(1);
    if bit.None? {
      return false;
    }
    ok := true;
    var coef := Fetch(block, k);
    if bit.value != 0 && !BitSet(coef, c.al) {
      Store(block, k, if coef >= 0 then coef + Pow2(c.al) else coef - Pow2(c.al));
    } else {
      assert b[k := b[k]] == b;
    }
  }

  /** Over already-nonzero coefficients, each with its correction bit, and r zero ones. */
  method AdvanceTo(c: Band, br: BitReader, start: nat, run: nat, block: array<Coef>) returns (ok: bool, k: nat)
    requires BandOk(c) && br.Valid() && block.Length == DCTSIZE2 && start <= c.se
    modifies br, block
    ensures br.Valid() && ok == AdvanceOver(c, old(br.Src()), start, run, old(Zz(block))).Stop?
    ensures ok ==> AdvanceOver(c, old(br.Src()), start, run, old(Zz(block))) == Stop(br.Src(), k, Zz(block))
    ensures !ok ==> AdvanceOver(c, old(br.Src()), start, run, old(Zz(block))) == Stuck(Zz(block))
    ensures Unstopped(old(br.Src()), br.Src()) && (!ok ==> br.unreadMarker == 0)
  {
    hide GetBits, Zz, Corrected, AdvanceOver;
    ghost var s0, total := br.Src(), AdvanceOver(c, br.Src(), start, run, Zz(block));
    var r: int := run;
    k := start;
    while true
      invariant br.Valid() && Unstopped(s0, br.Src()) && start <= k <= c.se && r >= 0
      invariant AdvanceOver(c, br.Src(), k, r, Zz(block)) == total
      decreases c.se - k
    {
      AdvanceStep(c, br.Src(), k, r, Zz(block));
      var coef := Fetch(block, k);
      if coef != 0 {
        BitsUnstopped(br.Src(), 1);
        ok := CorrectOne(c, br, k, block);
        if !ok {
          return;
        }
      } else {
        r := r - 1;
        if r < 0 {
          return true, k;
        }
      }
      k := k + 1;
      if k > c.se {
        return true, k;
      }
    }
  }

  lemma AdvanceStep(c: Band, s: Source, k: nat, r: nat, b: Block)
    requires k <= c.se < DCTSIZE2
    ensures AdvanceOver(c, s, k, r, b) ==
      if b[k] != 0 then
        match GetBits(s, 1)
        case None => Stuck(b)
        case Some((x, u)) =>
          var b' := b[k := Corrected(b[k], c.al, x)];
          if k == c.se then Stop(u, k + 1, b') else AdvanceOver(c, u, k + 1, r, b')
      else if r == 0 then Stop(s, k, b)
      else if k == c.se then Stop(s, k + 1, b)
      else AdvanceOver(c, s, k + 1, r - 1, b)
  {
    hide GetBits, Corrected;
  }

  lemma RefineBandStep(c: Band, h: HuffTbl, s: Source, k: nat, b: Block, newnz: seq<nat>)
    requires k <= c.se < DCTSIZE2
    ensures RefineBand(c, h, s, k, b, newnz) ==
      match HuffDecode(h, s)
      case None => BandSuspended(Undo(b, newnz))
      case Some((sym, t)) =>
        var r, n := sym / 16, sym % 16;
        if n == 0 && r != 15 then
          match EobRun(t, r)
          case None => BandSuspended(Undo(b, newnz))
          case Some((run, u)) => RefineRest(c, u, k, run, b, newnz)
        else if n == 0 then
          match AdvanceOver(c, t, k, r, b)
          case Stuck(b') => BandSuspended(Undo(b', newnz))
          case Stop(u, k', b') => RefineBand(c, h, u, k' + 1, b', newnz)
        else
          match SignBit(t, n)
          case None => BandSuspended(Undo(b, newnz))
          case Some((x, u)) =>
            match AdvanceOver(c, u, k, r, b)
            case Stuck(b') => BandSuspended(Undo(b', newnz))
            case Stop(w, k', b') => RefineBand(c, h, w, k' + 1, Put(b', k', NewCoef(c, x)), newnz + [k'])
  {
    hide HuffDecode, EobRun, AdvanceOver, SignBit, Put, Undo, RefineRest, NewCoef;
  }

  lemma RefineBandPastEnd(c: Band, h: HuffTbl, s: Source, k: nat, b: Block, newnz: seq<nat>)
    requires c.se < k && c.se < DCTSIZE2
    ensures RefineBand(c, h, s, k, b, newnz) == BandDone(s, 0, b)
  {
  }

  /** The sign of a new coefficient, whose size should always be 1. */
  method ReadSignBit(br: BitReader, n: nat) returns (bit: Option<int>)
    requires br.Valid()
    modifies br
    ensures br.Valid() && bit.Some? == SignBit(old(br.Src()), n).Some?
    ensures bit.Some? ==> SignBit(old(br.Src()), n) == Some((bit.value, br.Src()))
    ensures Unstopped(old(br.Src()), br.Src()) && (bit.None? ==> br.unreadMarker == 0)
  {
    hide GetBits, Held;
    if n != 1 {
      br.warnings := br.warnings + 1;
    }
    BitsUnstopped(br.Src(), 1);
    var b := br.ReadBits(1);
    bit := if b.Some? then Some(b.value) else None;
  }

  /** The symbols of a block up to its end or to an end-of-band run, which is then positive. */
  method RefineSymbols(c: Band, br: BitReader, d: DDerivedTbl, block: array<Coef>)
    returns (ok: bool, k: nat, eobrun: nat, newnz: seq<nat>)
    requires BandOk(c) && br.Valid() && IsDDerived(d.pub, d) && block.Length == DCTSIZE2
    modifies br, block
    ensures br.Valid()
    ensures var total := RefineBand(c, d.pub, old(br.Src()), c.ss, old(Zz(block)), []);
      && (!ok ==> total == BandSuspended(Undo(Zz(block), newnz)))
      && (ok && eobrun > 0 ==> total == RefineRest(c, br.Src(), k, eobrun, Zz(block), newnz))
      && (ok && eobrun == 0 ==> total == BandDone(br.Src(), 0, Zz(block)))
    ensures Unstopped(old(br.Src()), br.Src()) && (!ok ==> br.unreadMarker == 0)
    ensures forall p :: p in newnz ==> p <= DCTSIZE2
  {
    hide HuffDecode, SignBit, IsDDerived, Put, Zz, RefineBand, EobRun, Undo, AdvanceOver, RefineRest, Pow2, BitReader.Valid, BitReader.Src;
    ghost var s0, total := br.Src(), RefineBand(c, d.pub, br.Src(), c.ss, Zz(block), []);
    k, eobrun, newnz := c.ss, 0, [];
    while k <= c.se
      invariant br.Valid() && Unstopped(s0, br.Src()) && forall p :: p in newnz ==> p <= DCTSIZE2
      invariant RefineBand(c, d.pub, br.Src(), k, Zz(block), newnz) == total
      decreases DCTSIZE2 - k
    {
      RefineBandStep(c, d.pub, br.Src(), k, Zz(block), newnz);
      HuffUnstopped(d.pub, br.Src());
      var sym := br.HuffDecodeSymbol(d);
      if sym.None? {
        return false, k, 0, newnz;
      }
      var r, s := sym.value / 16, sym.value % 16;
      var coef := 0;
      if s != 0 {
        var bit := ReadSignBit(br, s);
        if bit.None? {
          return false, k, 0, newnz;
        }
        coef := if bit.value != 0 then Pow2(c.al) else -Pow2(c.al);
      } else if r != 15 {
        EobUnstopped(br.Src(), r);
        var n := ReadEobRun(br, r);
        if n.None? {
          return false, k, 0, newnz;
        }
        return true, k, n.value, newnz;
      }
      ok, k := AdvanceTo(c, br, k, r, block);
      if !ok {
        return false, k, 0, newnz;
      }
      if s != 0 {
        Store(block, k, coef);
        newnz := newnz + [k];
      }
      k := k + 1;
    }
    RefineBandPastEnd(c, d.pub, br.Src(), k, Zz(block), newnz);
    ok := true;
  }

  lemma EobUnstopped(s: Source, r: nat)
    requires r <= 14
    ensures EobRun(s, r).Some? ==> Unstopped(s, EobRun(s, r).value.1)
  {
    hide GetBits, Pow2;
    BitsUnstopped(s, r);
  }

  lemma RefineRestStep(c: Band, s: Source, k: nat, run: nat, b: Block, newnz: seq<nat>)
    requires k <= c.se < DCTSIZE2 && run > 0
    ensures RefineRest(c, s, k, run, b, newnz) ==
      if b[k] == 0 then RefineRest(c, s, k + 1, run, b, newnz)
      else
        match GetBits(s, 1)
        case None => BandSuspended(Undo(b, newnz))
        case Some((x, u)) => RefineRest(c, u, k + 1, run, b[k := Corrected(b[k], c.al, x)], newnz)
  {
    hide GetBits, Corrected, Undo;
  }

  lemma RefineRestPastEnd(c: Band, s: Source, k: nat, run: nat, b: Block, newnz: seq<nat>)
    requires c.se < k && c.se < DCTSIZE2 && run > 0
    ensures RefineRest(c, s, k, run, b, newnz) == BandDone(s, run - 1, b)
  {
  }

  /** Correction bits for the rest of the band. */
  method RefineTail(c: Band, br: BitReader, start: nat, block: array<Coef>, ghost eobrun: nat, ghost newnz: seq<nat>)
    returns (ok: bool)
    requires BandOk(c) && br.Valid() && block.Length == DCTSIZE2 && eobrun > 0
    modifies br, block
    ensures br.Valid()
    ensures var total := RefineRest(c, old(br.Src()), start, eobrun, old(Zz(block)), newnz);
      total == if ok then BandDone(br.Src(), eobrun - 1, Zz(block)) else BandSuspended(Undo(Zz(block), newnz))
    ensures Unstopped(old(br.Src()), br.Src()) && (!ok ==> br.unreadMarker == 0)
  {
    hide GetBits, Zz, Corrected, Undo, RefineRest;
    ghost var s0, total := br.Src(), RefineRest(c, br.Src(), start, eobrun, Zz(block), newnz);
    var k := start;
    while k <= c.se
      invariant br.Valid() && Unstopped(s0, br.Src()) && RefineRest(c, br.Src(), k, eobrun, Zz(block), newnz) == total
      decreases DCTSIZE2 - k
    {
      RefineRestStep(c, br.Src(), k, eobrun, Zz(block), newnz);
      var coef := Fetch(block, k);
      if coef != 0 {
        BitsUnstopped(br.Src(), 1);
        ok := CorrectOne(c, br, k, block);
        if !ok {
          return;
        }
      }
      k := k + 1;
    }
    RefineRestPastEnd(c, br.Src(), k, eobrun, Zz(block), newnz);
    ok := true;
  }

  /** undoit: the coefficients that were made nonzero become zero again, last one first. */
  method UndoIt(block: array<Coef>, newnz: seq<nat>)
    requires block.Length == DCTSIZE2 && forall p :: p in newnz ==> p <= DCTSIZE2
    modifies block
    ensures Zz(block) == Undo(old(Zz(block)), newnz)
  {
    hide Zz, Put;
    var num := |newnz|;
    assert newnz[..num] == newnz;
    while num > 0
      invariant num <= |newnz| && Undo(Zz(block), newnz[..num]) == Undo(old(Zz(block)), newnz)
    {
      assert newnz[..num][..num - 1] == newnz[..num - 1];
      assert newnz[num - 1] in newnz;
      num := num - 1;
      Store(block, newnz[num], 0);
    }
  }

  method DecodeAcRefine(c: Band, br: BitReader, d: DDerivedTbl, eobrun: nat, block: array<Coef>) returns (r: Option<nat>)
    requires BandOk(c) && c.refine && br.Valid() && IsDDerived(d.pub, d) && block.Length == DCTSIZE2
    modifies br, block
    ensures br.Valid() && r.Some? == DecodeBand(c, d.pub, old(br.Src()), eobrun, old(Zz(block))).BandDone?
    ensures r.Some? ==>
      DecodeBand(c, d.pub, old(br.Src()), eobrun, old(Zz(block))) == BandDone(br.Src(), r.value, Zz(block))
    ensures r.None? ==> DecodeBand(c, d.pub, old(br.Src()), eobrun, old(Zz(block))) == BandSuspended(Zz(block))
    ensures r.None? ==> Unstopped(old(br.Src()), br.Src()) && br.unreadMarker == 0
  {
    hide IsDDerived, Zz, RefineBand, Undo, RefineRest;
    var ok, k, run, newnz: seq<nat> := true, c.ss, eobrun, [];
    if eobrun == 0 {
      ok, k, run, newnz := RefineSymbols(c, br, d, block);
    }
    if ok && run > 0 {
      ok := RefineTail(c, br, k, block, run, newnz);
      run := run - 1;
    }
    if !ok {
      UndoIt(block, newnz);
      return None;
    }
    r := Some(run);
  }
}
