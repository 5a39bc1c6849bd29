/** The AC part of the progressive encoder (jcphuff.c): end-of-band runs, buffered correction bits, both kinds of scan. */
module AcEncoders {
  import opened Bits
  import opened Wrappers
  import opened HuffmanTables
  import opened Symbols
  import opened Emitters
  import opened Coefficients
  import opened NaturalOrder
  import opened SequentialCodec
  import opened BlockEncoders
  import opened AcBand
  import opened AcSegment

  /** The invariant between blocks: the run is short of overflow, and the next block's correction bits fit the buffer. */
  predicate PendingOk(p: Pending) {
    && p.n < MAX_EOBRUN
    && (p.n == 0 ==> p.be == [])
    && |p.be| <= MAX_CORR_BITS - DCTSIZE2 + 1
  }

  lemma {:induction false} BitItemsCodable(em: Emitter, bs: seq<bool>)
    ensures Codable(em, BitItems(bs)) && forall i :: 0 <= i < |BitItems(bs)| ==> BitItems(bs)[i].Raw?
  {
    if bs != [] {
      BitItemsCodable(em, bs[1..]);
    }
  }

  lemma BitItemsFirst(bs: seq<bool>, i: nat)
    requires i < |bs|
    ensures BitItems(bs[i..]) == [BitItem(bs[i])] + BitItems(bs[i + 1..])
  {
    assert bs[i..][1..] == bs[i + 1..];
  }

  lemma EobItemsCodable(em: Emitter, tbl: nat, n: nat)
    requires 0 < n <= MAX_EOBRUN
    ensures var nb := NBits(n) - 1;
      0 <= nb <= 14 && (Codable(em, EobItems(tbl, n)) <==> em.gather || HasCode(em.tables, Sym(true, tbl, 16 * nb)))
  {
    hide HasCode, AllHaveCodes, Codable, Mask;
    RunLength(n);
    var nb := NBits(n) - 1;
    OneCodable(em, Sym(true, tbl, 16 * nb));
    if nb > 0 {
      RawCodable(em, n, nb);
      CodableConcat(em, [Sym(true, tbl, 16 * nb)], [Raw(n, nb)]);
    } else {
      assert [Sym(true, tbl, 16 * nb)] + [] == [Sym(true, tbl, 16 * nb)];
    }
  }

  lemma RunLength(n: nat)
    requires 0 < n <= MAX_EOBRUN
    ensures 1 <= NBits(n) <= 15
  {
    hide NBits;
    NBitsBounds(n);
    FifteenBits();
    NBitsMonotone(n, MAX_EOBRUN);
  }

  class AcCoder {
    const c: Band
    const em: Emitter
    const bitBuffer: array<bool>
    var eobrun: nat
    var be: nat

    constructor (c: Band, em: Emitter)
      requires BandOk(c) && em.Valid()
      ensures Valid() && this.c == c && this.em == em && fresh(bitBuffer) && Pend() == Pending(0, [])
    {
      this.c, this.em := c, em;
      bitBuffer := new bool[MAX_CORR_BITS];
      eobrun, be := 0, 0;
    }

    ghost predicate Fits()
      reads this
    {
      BandOk(c) && bitBuffer.Length == MAX_CORR_BITS && be <= MAX_CORR_BITS
    }

    ghost function Pend(): Pending
      reads this, bitBuffer
      requires Fits()
    {
      Pending(eobrun, bitBuffer[..be])
    }

    ghost predicate Valid()
      reads this, em, bitBuffer
    {
      Fits() && em.Valid() && PendingOk(Pend())
    }

    /** emit_buffered_bits */
    method EmitBufferedBits(start: nat, nbits: nat)
      requires em.Valid() && start + nbits <= bitBuffer.Length
      modifies em
      ensures em.Valid() && em.segs == old(em.segs)
      ensures em.items == old(em.items) + BitItems(bitBuffer[start..start + nbits])
    {
      hide Emitter.Valid;
      ghost var bs := bitBuffer[start..start + nbits];
      if em.gather {
        BitItemsCodable(em, bs);
        em.NoteRaws(BitItems(bs));
        return;
      }
      var i := 0;
      while i < nbits
        invariant i <= nbits && em.Valid() && em.segs == old(em.segs)
        invariant em.items + BitItems(bs[i..]) == old(em.items) + BitItems(bs)
      {
        BitItemsFirst(bs, i);
        assert em.items + ([BitItem(bs[i])] + BitItems(bs[i + 1..])) == em.items + [BitItem(bs[i])] + BitItems(bs[i + 1..]);
        em.EmitRaw(if bitBuffer[start + i] then 1 else 0, 1);
        i := i + 1;
      }
      assert em.items + BitItems([]) == em.items;
    }

    /** emit_eobrun; the check for more than 14 bits never fires. */
    method EmitEobrun() returns (r: Status)
      requires Fits() && em.Valid() && eobrun <= MAX_EOBRUN && (eobrun == 0 ==> be == 0)
      modifies this, em
      ensures r.Good? <==> Codable(em, Flush(c.tbl, old(eobrun), old(bitBuffer[..be])))
      ensures r.Bad? ==> r.error == MissingCode
      ensures r.Good? ==> em.Valid() && em.segs == old(em.segs) && eobrun == 0 && be == 0
      ensures r.Good? ==> em.items == old(em.items) + Flush(c.tbl, old(eobrun), old(bitBuffer[..be]))
    {
      hide Emitter.Valid, HasCode, AllHaveCodes, Codable, BitItems;
      ghost var bs := bitBuffer[..be];
      NoItemsCodable(em);
      if eobrun > 0 {
        CodableConcat(em, EobItems(c.tbl, eobrun), BitItems(bs));
        BitItemsCodable(em, bs);
        EobItemsCodable(em, c.tbl, eobrun);
        var nbits := CountBitsNonzero(eobrun);
        nbits := nbits - 1;
        if nbits > 14 {
          return Bad(MissingCode);
        }
        r := em.EmitSymbol(true, c.tbl, 16 * nbits);
        if r.Bad? {
          return;
        }
        if nbits != 0 {
          em.EmitRaw(eobrun, nbits);
        }
        assert em.items == old(em.items) + EobItems(c.tbl, eobrun);
        eobrun := 0;
        EmitBufferedBits(0, be);
        assert bitBuffer[0..be] == bs;
        be := 0;
      } else {
        r := Good;
      }
    }

    /** The encoder's position within a block: r zeros and br correction bits since the last symbol. */
    ghost function Within(r: nat, br: nat): Run
      reads this, bitBuffer
      requires Fits() && be + br <= MAX_CORR_BITS
    {
      Run(eobrun, bitBuffer[..be], r, bitBuffer[be..be + br])
    }

    /** A newly nonzero coefficient of a first scan, behind a run of zeros: what is pending goes first. */
    method EmitFirstCoef(temp: nat, temp2: int, run: nat, ghost b: Block, ghost k: nat) returns (st: Status)
      requires Valid() && !c.refine && k < DCTSIZE2 && temp == Mag(c, b, k) > 0
      requires temp2 == Appended(Signed(b[k] < 0, temp))
      modifies this, em
      ensures var x := Flush(c.tbl, old(Pend()).n, old(Pend()).be) + Zrls(run, c.tbl) + NewItems(c, b, k, run % 16);
        && Outcome(st, em, NBits(temp) <= MAX_COEF_BITS, x)
        && (st.Good? ==> Valid() && em.segs == old(em.segs) && em.items == old(em.items) + x && Pend() == Pending(0, []))
    {
      hide Emitter.Valid, HasCode, AllHaveCodes, Codable, Flush, Zrls, NewItems, Mag, NBits;
      ghost var f, z, x := Flush(c.tbl, eobrun, bitBuffer[..be]), Zrls(run, c.tbl), NewItems(c, b, k, run % 16);
      CodableConcat(em, f + z, x);
      CodableConcat(em, f, z);
      st := EmitEobrun();
      if st.Bad? {
        return;
      }
      var r;
      st, r := EmitZrls(em, run, c.tbl);
      if st.Bad? {
        return;
      }
      var nbits := CountBitsNonzero(temp);
      if nbits > MAX_COEF_BITS {
        return Bad(BadDctCoef);
      }
      NewItemsCodable(em, c, b, k, r);
      st := em.EmitSymbol(true, c.tbl, 16 * r + nbits);
      if st.Bad? {
        return;
      }
      em.EmitRaw(temp2, nbits);
      assert em.items == old(em.items) + (f + z + x);
    }

    /** The end of a block: an end of band is counted, and forced out if a counter or the buffer might overflow. */
    method EndOfBand(r: nat, br: nat) returns (st: Status)
      requires Valid() && br <= DCTSIZE2 - 1
      modifies this, em
      ensures var (items, p) := EndBlock(c, old(Within(r, br)));
        && (st.Good? <==> Codable(em, items))
        && (st.Bad? ==> st.error == MissingCode)
        && (st.Good? ==> Valid() && em.segs == old(em.segs) && em.items == old(em.items) + items && Pend() == p)
    {
      hide Emitter.Valid, Codable, Flush;
      NoItemsCodable(em);
      st := Good;
      if r > 0 || br > 0 {
        assert bitBuffer[..be + br] == bitBuffer[..be] + bitBuffer[be..be + br];
        eobrun := eobrun + 1;
        be := be + br;
        if eobrun == MAX_EOBRUN || be > MAX_CORR_BITS - DCTSIZE2 + 1 {
          st := EmitEobrun();
        }
      }
    }

    /** encode_mcu_AC_first, but for restarts. */
    method EncodeAcFirst(block: array<Coef>) returns (st: Status)
      requires Valid() && !c.refine && block.Length == DCTSIZE2
      modifies this, em
      ensures var b := InZigzag(block[..]);
        var (items, p) := EncodeBlock(c, b, old(Pend()));
        && Outcome(st, em, InRange(c, b), items)
        && (st.Good? ==> Valid() && em.segs == old(em.segs) && em.items == old(em.items) + items && Pend() == p)
    {
      hide Emitter.Valid, Codable, Flush, EndBlock, EncodeBlock, InRange, Natural, CoefsLeft, Mag, NewItems, Zrls, NBits;
      ghost var b := InZigzag(block[..]);
      ghost var total, done: seq<Item> := EncodeBlock(c, b, Pend()), [];
      CoefsStart(em, c, b, Pend());
      assert bitBuffer[be..be + 0] == [];
      var r: nat := 0;
      var k := c.ss;
      while k <= c.se
        invariant c.ss <= k <= c.se + 1 && Valid() && em.segs == old(em.segs) && em.items == old(em.items) + done
        invariant CoefsLeft(em, c, b, k, Within(r, 0), total, done)
      {
        ghost var now := Within(r, 0);
        var temp: int := block[Natural(k)];
        var temp2;
        MagIs(c, b, k);
        if temp < 0 {
          temp := Shr(-temp, c.al);
          temp2 := -temp - 1;
        } else {
          temp := Shr(temp, c.al);
          temp2 := temp;
        }
        if temp == 0 {
          CoefZero(em, c, b, k, now, total, done);
          r := r + 1;
        } else {
          CoefFirst(em, c, b, k, now, total, done);
          st := EmitFirstCoef(temp, temp2, r, b, k);
          if st.Bad? {
            return;
          }
          done := done + (Flush(c.tbl, now.n, now.be) + Zrls(r, c.tbl) + NewItems(c, b, k, r % 16));
          r := 0;
        }
        k := k + 1;
      }
      CoefsEnd(em, c, b, Within(r, 0), total, done);
      st := EndOfBand(r, 0);
    }

    /** The pre-pass of encode_mcu_AC_refine: transformed magnitudes and the last newly nonzero coefficient. */
    method AbsValues(block: array<Coef>, absvalues: array<nat>) returns (eob: nat)
      requires BandOk(c) && c.refine && block.Length == DCTSIZE2 && absvalues.Length == DCTSIZE2
      modifies absvalues
      ensures var b := InZigzag(block[..]);
        eob == LastNew(c, b, c.se + 1) && forall k :: c.ss <= k <= c.se ==> absvalues[k] == Mag(c, b, k)
    {
      hide Natural, Shr;
      ghost var b := InZigzag(block[..]);
      eob := 0;
      var k := c.ss;
      while k <= c.se
        invariant c.ss <= k <= c.se + 1 && eob == LastNew(c, b, k)
        invariant forall j :: c.ss <= j < k ==> absvalues[j] == Mag(c, b, j)
      {
        MagIs(c, b, k);
        var temp: int := block[Natural(k)];
        if temp < 0 {
          temp := -temp;
        }
        temp := Shr(temp, c.al);
        absvalues[k] := temp;
        if temp == 1 {
          eob := k;
        }
        k := k + 1;
      }
    }

    /** The ZRL loop of encode_mcu_AC_refine: the bits of a ZRL symbol stand behind the pending ones in the buffer. */
    method EmitZrlsRefine(run: nat, bits: nat) returns (st: Status, r: nat, br: nat)
      requires Valid() && bits <= DCTSIZE2 - 1
      modifies this, em
      ensures var (items, within) := ZrlLoop(c.tbl, old(Within(run, bits)));
        && (st.Good? <==> Codable(em, items))
        && (st.Bad? ==> st.error == MissingCode)
        && (st.Good? ==>
            Valid() && em.segs == old(em.segs) && em.items == old(em.items) + items && br <= bits && Within(r, br) == within)
    {
      hide Emitter.Valid, Codable, Flush, BitItems, HasCode, ZrlLoop;
      r, br := run, bits;
      ghost var total, done: seq<Item> := ZrlLoop(c.tbl, Within(run, bits)), [];
      NoItemsCodable(em);
      assert [] + total.0 == total.0;
      while r > 15
        invariant Valid() && em.segs == old(em.segs) && em.items == old(em.items) + done && br <= bits
        invariant done + ZrlLoop(c.tbl, Within(r, br)).0 == total.0 && ZrlLoop(c.tbl, Within(r, br)).1 == total.1
        invariant Codable(em, done)
      {
        ghost var now := Within(r, br);
        ghost var f, zrl, bs := Flush(c.tbl, now.n, now.be), [Sym(true, c.tbl, 0xF0)], BitItems(now.br);
        ghost var more := ZrlLoop(c.tbl, Run(0, [], r - 16, [])).0;
        ZrlStepCodable(em, c.tbl, now, done);
        var start := be;
        st := EmitEobrun();
        if st.Bad? {
          return;
        }
        st := em.EmitSymbol(true, c.tbl, 0xF0);
        if st.Bad? {
          return;
        }
        r := r - 16;
        EmitBufferedBits(start, br);
        br := 0;
        assert bitBuffer[be..be + br] == [] && bitBuffer[..be] == [];
        done := done + (f + zrl + bs);
      }
      ZrlLoopDone(c.tbl, Within(r, br));
      assert done + [] == done;
      st := Good;
    }

    /** A newly nonzero coefficient of a refinement scan, with the bits buffered in front of it. */
    method EmitNewRefine(r: nat, br: nat, negative: bool, ghost b: Block, ghost k: nat) returns (st: Status)
      requires Valid() && c.refine && k < DCTSIZE2 && Mag(c, b, k) == 1 && negative == (b[k] < 0)
      requires r <= 15 && br <= DCTSIZE2 - 1
      modifies this, em
      ensures var now := old(Within(r, br));
        var x := Flush(c.tbl, now.n, now.be) + NewItems(c, b, k, r) + BitItems(now.br);
        && (st.Good? <==> Codable(em, x))
        && (st.Bad? ==> st.error == MissingCode)
        && (st.Good? ==> Valid() && em.segs == old(em.segs) && em.items == old(em.items) + x && Pend() == Pending(0, []))
    {
      hide Emitter.Valid, Codable, Flush, BitItems, HasCode, Mag, NewItems;
      ghost var now := Within(r, br);
      ghost var f, x, bs := Flush(c.tbl, now.n, now.be), NewItems(c, b, k, r), BitItems(now.br);
      CodableConcat(em, f + x, bs);
      CodableConcat(em, f, x);
      BitItemsCodable(em, now.br);
      assert NBits(1) == 1;
      NewItemsCodable(em, c, b, k, r);
      var start := be;
      st := EmitEobrun();
      if st.Bad? {
        return;
      }
      st := em.EmitSymbol(true, c.tbl, 16 * r + 1);
      if st.Bad? {
        return;
      }
      em.EmitRaw(if negative then 0 else 1, 1);
      EmitBufferedBits(start, br);
      assert em.items == old(em.items) + (f + x + bs);
    }

    /** A correction bit joins the ones buffered for this block. */
    method BufferBit(r: nat, br: nat, bit: bool)
      requires Valid() && br < DCTSIZE2 - 1
      modifies bitBuffer
      ensures Valid() && Within(r, br + 1) == old(Within(r, br)).(br := old(Within(r, br)).br + [bit])
    {
      ghost var now := Within(r, br);
      bitBuffer[be + br] := bit;
      assert bitBuffer[..be] == now.be;
      assert bitBuffer[be..be + (br + 1)] == now.br + [bit];
    }

    /** The ZRL symbols that are due in front of a coefficient that is not zero: none behind the last newly nonzero one. */
    method DueZrls(k: nat, eob: nat, run: nat, bits: nat, ghost b: Block) returns (st: Status, r: nat, br: nat)
      requires Valid() && c.refine && bits <= DCTSIZE2 - 1 && eob == LastNew(c, b, c.se + 1)
      modifies this, em
      ensures var (zrls, st1) := ZrlsDue(c, b, k, old(Within(run, bits)));
        && (st.Good? <==> Codable(em, zrls))
        && (st.Bad? ==> st.error == MissingCode)
        && (st.Good? ==>
            Valid() && em.segs == old(em.segs) && em.items == old(em.items) + zrls && br <= bits && Within(r, br) == st1)
    {
      hide Emitter.Valid, Codable, Flush, BitItems, HasCode, ZrlLoop, LastNew;
      st, r, br := Good, run, bits;
      if k <= eob {
        st, r, br := EmitZrlsRefine(run, bits);
      } else {
        NoItemsCodable(em);
        assert em.items + [] == em.items;
      }
    }

    /** A newly nonzero coefficient, behind its ZRL symbols */
    method NewDueNow(r: nat, br: nat, negative: bool, k: nat, ghost b: Block, ghost now: Run) returns (st: Status)
      requires Valid() && c.refine && k < DCTSIZE2 && Mag(c, b, k) == 1 && negative == (b[k] < 0)
      requires br <= DCTSIZE2 - 1 && Within(r, br) == now && now.r <= 15
      modifies this, em
      ensures st.Good? <==> Codable(em, NewDue(c, b, k, now))
      ensures st.Bad? ==> st.error == MissingCode
      ensures st.Good? ==> Valid() && em.segs == old(em.segs) && em.items == old(em.items) + NewDue(c, b, k, now)
      ensures st.Good? ==> Within(0, 0) == Run(0, [], 0, [])
    {
      hide Emitter.Valid, Codable, Flush, BitItems, NewItems, Mag;
      WithinIs(r, br);
      st := EmitNewRefine(r, br, negative, b, k);
      if st.Good? {
        WithinIs(0, 0);
      }
    }

    /** One turn of the main loop of encode_mcu_AC_refine, for a coefficient that is not zero. */
    method RefineCoefficient(temp: nat, negative: bool, k: nat, eob: nat, run: nat, bits: nat, ghost b: Block,
                             ghost total: (seq<Item>, Pending), ghost start: seq<Item>, ghost before: seq<Item>)
      returns (st: Status, r: nat, br: nat, ghost done: seq<Item>)
      requires Valid() && c.refine && c.ss <= k <= c.se && temp == Mag(c, b, k) > 0 && negative == (b[k] < 0)
      requires eob == LastNew(c, b, c.se + 1) && bits <= k - c.ss && CoefsLeft(em, c, b, k, Within(run, bits), total, before)
      requires em.items == start + before
      modifies this, em, bitBuffer
      ensures st.Bad? ==> st.error == MissingCode && !Codable(em, total.0)
      ensures st.Good? ==> Valid() && em.segs == old(em.segs) && em.items == start + done
      ensures st.Good? ==> br <= k + 1 - c.ss && CoefsLeft(em, c, b, k + 1, Within(r, br), total, done)
    {
      hide Emitter.Valid, Codable, Flush, EndBlock, EncodeBlock, CoefsLeft, Mag, NewItems, ZrlLoop, BitItems, LastNew, Within, ZrlsDue, NewDue;
      ghost var now := Within(run, bits);
      ghost var zrls := ZrlsDue(c, b, k, now);
      done := before;
      if temp > 1 {
        CoefCorrection(em, c, b, k, now, total, before);
      } else {
        CoefNew(em, c, b, k, now, total, before);
        CodableConcat(em, zrls.0, NewDue(c, b, k, zrls.1));
        ZrlsDueShort(c, b, k, now);
      }
      st, r, br := DueZrls(k, eob, run, bits, b);
      if st.Bad? {
        return;
      }
      if temp > 1 {
        BufferBit(r, br, temp % 2 == 1);
        br := br + 1;
        done := before + zrls.0;
      } else {
        st := NewDueNow(r, br, negative, k, b, zrls.1);
        if st.Bad? {
          return;
        }
        done := before + (zrls.0 + NewDue(c, b, k, zrls.1));
        r, br := 0, 0;
        WithinIs(0, 0);
      }
    }

    lemma WithinIs(r: nat, br: nat)
      requires Valid() && br <= DCTSIZE2 - 1
      ensures Within(r, br) == Run(eobrun, bitBuffer[..be], r, bitBuffer[be..be + br])
      ensures Within(0, 0) == Run(eobrun, bitBuffer[..be], 0, [])
    {
    }

    /** encode_mcu_AC_refine, but for restarts. */
    method EncodeAcRefine(block: array<Coef>) returns (st: Status)
      requires Valid() && c.refine && block.Length == DCTSIZE2
      modifies this, em, bitBuffer
      ensures var b := InZigzag(block[..]);
        var (items, p) := EncodeBlock(c, b, old(Pend()));
        && (st.Good? <==> Codable(em, items))
        && (st.Bad? ==> st.error == MissingCode)
        && (st.Good? ==> Valid() && em.segs == old(em.segs) && em.items == old(em.items) + items && Pend() == p)
    {
      hide Emitter.Valid, Codable, EndBlock, EncodeBlock, Natural, CoefsLeft, Mag, LastNew;
      ghost var b := InZigzag(block[..]);
      ghost var total, done: seq<Item> := EncodeBlock(c, b, Pend()), [];
      var absvalues := new nat[DCTSIZE2];
      var eob := AbsValues(block, absvalues);
      CoefsStart(em, c, b, Pend());
      WithinIs(0, 0);
      var r: nat, br: nat := 0, 0;
      var k := c.ss;
      while k <= c.se
        invariant c.ss <= k <= c.se + 1 && br <= k - c.ss
        invariant Valid() && em.segs == old(em.segs) && em.items == old(em.items) + done
        invariant CoefsLeft(em, c, b, k, Within(r, br), total, done)
        invariant forall j :: c.ss <= j <= c.se ==> absvalues[j] == Mag(c, b, j)
        invariant InZigzag(block[..]) == b
      {
        var temp := absvalues[k];
        if temp == 0 {
          CoefZero(em, c, b, k, Within(r, br), total, done);
          r := r + 1;
        } else {
          st, r, br, done := RefineCoefficient(temp, block[Natural(k)] < 0, k, eob, r, br, b, total, old(em.items), done);
          if st.Bad? {
            return;
          }
        }
        k := k + 1;
      }
      CoefsEnd(em, c, b, Within(r, br), total, done);
      st := EndOfBand(r, br);
    }
  }

  lemma ZrlLoopDone(tbl: nat, st: Run)
    requires st.r <= 15
    ensures ZrlLoop(tbl, st) == ([], st)
  {
  }

  lemma ZrlStepCodable(em: Emitter, tbl: nat, st: Run, done: seq<Item>)
    requires st.r > 15
    ensures var f, zrl, bs := Flush(tbl, st.n, st.be), [Sym(true, tbl, 0xF0)], BitItems(st.br);
      var (items, st1) := ZrlLoop(tbl, Run(0, [], st.r - 16, []));
      && done + ZrlLoop(tbl, st).0 == done + (f + zrl + bs) + items && ZrlLoop(tbl, st).1 == st1
      && (Codable(em, done + (f + zrl + bs)) <==>
          Codable(em, done) && Codable(em, f) && (em.gather || HasCode(em.tables, Sym(true, tbl, 0xF0))))
      && (!Codable(em, done + (f + zrl + bs)) ==> !Codable(em, done + ZrlLoop(tbl, st).0))
  {
    hide Codable, HasCode, BitItems, Flush;
    var f, zrl, bs := Flush(tbl, st.n, st.be), [Sym(true, tbl, 0xF0)], BitItems(st.br);
    ZrlLoopStep(tbl, st);
    var (items, st1) := ZrlLoop(tbl, Run(0, [], st.r - 16, []));
    assert done + (f + zrl + bs + items) == done + (f + zrl + bs) + items;
    CodableConcat(em, done, f + zrl + bs);
    CodableConcat(em, f + zrl, bs);
    CodableConcat(em, f, zrl);
    OneCodable(em, zrl[0]);
    BitItemsCodable(em, st.br);
    CodableConcat(em, done + (f + zrl + bs), items);
  }

  // ----- What remains of a block

  lemma ZrlLoopStep(tbl: nat, st: Run)
    requires st.r > 15
    ensures var (items, st1) := ZrlLoop(tbl, Run(0, [], st.r - 16, []));
      ZrlLoop(tbl, st) == (Flush(tbl, st.n, st.be) + [Sym(true, tbl, 0xF0)] + BitItems(st.br) + items, st1)
  {
    hide Flush, BitItems;
  }

  /** What a coefficient that is already nonzero in a refinement scan adds. */
  lemma CoefCorrection(em: Emitter, c: Band, b: Block, k: nat, st: Run, total: (seq<Item>, Pending), done: seq<Item>)
    requires BandOk(c) && c.refine && c.ss <= k <= c.se && CoefsLeft(em, c, b, k, st, total, done) && Mag(c, b, k) > 1
    ensures var (zrls, st1) := ZrlsDue(c, b, k, st);
      && (Codable(em, zrls) ==>
          CoefsLeft(em, c, b, k + 1, st1.(br := st1.br + [Mag(c, b, k) % 2 == 1]), total, done + zrls))
      && (!Codable(em, zrls) ==> !Codable(em, total.0))
  {
    hide LastNew, Mag, Codable, ZrlLoop, Flush, EndBlock;
    var (zrls, st1) := ZrlsDue(c, b, k, st);
    var (items, p) := EncodeCoefs(c, b, k + 1, LastNew(c, b, c.se + 1), st1.(br := st1.br + [Mag(c, b, k) % 2 == 1]));
    assert done + (zrls + items) == done + zrls + items;
    CodableConcat(em, done + zrls, items);
    CodableConcat(em, done, zrls);
  }

  function NewDue(c: Band, b: Block, k: nat, st: Run): seq<Item>
    requires k < DCTSIZE2
  {
    Flush(c.tbl, st.n, st.be) + NewItems(c, b, k, st.r) + BitItems(st.br)
  }

  /** Up to the last newly nonzero coefficient, the ZRL symbols due leave no long run. */
  lemma ZrlsDueShort(c: Band, b: Block, k: nat, st: Run)
    requires BandOk(c) && k <= LastNew(c, b, c.se + 1)
    ensures ZrlsDue(c, b, k, st).1.r <= 15
  {
    hide LastNew, ZrlLoop;
    ZrlLoopShort(c.tbl, st);
  }

  /** What a newly nonzero coefficient of a refinement scan adds. */
  lemma CoefNew(em: Emitter, c: Band, b: Block, k: nat, st: Run, total: (seq<Item>, Pending), done: seq<Item>)
    requires BandOk(c) && c.refine && c.ss <= k <= c.se && CoefsLeft(em, c, b, k, st, total, done) && Mag(c, b, k) == 1
    ensures var (zrls, st1) := ZrlsDue(c, b, k, st);
      var x := zrls + NewDue(c, b, k, st1);
      && (Codable(em, x) ==> CoefsLeft(em, c, b, k + 1, Run(0, [], 0, []), total, done + x))
      && (!Codable(em, x) ==> !Codable(em, total.0))
      && k <= LastNew(c, b, c.se + 1)
  {
    hide LastNew, Codable, ZrlLoop, Flush, EndBlock, EncodeCoefs, NewItems, BitItems, Shr;
    NewIsNotLate(c, b, k, c.se + 1);
    NewCoefItems(c, b, k, st);
    var (zrls, st1) := ZrlsDue(c, b, k, st);
    var f, n, br := Flush(c.tbl, st1.n, st1.be), NewItems(c, b, k, st1.r), BitItems(st1.br);
    var x := zrls + (f + n + br);
    var (items, p) := EncodeCoefs(c, b, k + 1, LastNew(c, b, c.se + 1), Run(0, [], 0, []));
    assert zrls + f + n + br + items == x + items;
    assert done + (x + items) == done + x + items;
    CodableConcat(em, done + x, items);
    CodableConcat(em, done, x);
  }

  /** Behind the last newly nonzero coefficient, nothing is left to be newly nonzero; up to it, no run is too long. */
  lemma {:induction false} ZrlLoopShort(tbl: nat, st: Run)
    ensures ZrlLoop(tbl, st).1.r <= 15 && |ZrlLoop(tbl, st).1.br| <= |st.br|
    ensures st.r > 15 ==> ZrlLoop(tbl, st).1.n == 0 && ZrlLoop(tbl, st).1.be == [] && ZrlLoop(tbl, st).1.br == []
    ensures st.r <= 15 ==> ZrlLoop(tbl, st).1 == st
    decreases st.r
  {
    hide Flush, BitItems;
    if st.r > 15 {
      ZrlLoopShort(tbl, Run(0, [], st.r - 16, []));
    }
  }

  ghost predicate CoefsLeft(em: Emitter, c: Band, b: Block, k: nat, st: Run, total: (seq<Item>, Pending), done: seq<Item>)
    requires BandOk(c)
  {
    var (items, p) := EncodeCoefs(c, b, k, LastNew(c, b, c.se + 1), st);
    && done + items == total.0 && p == total.1 && Codable(em, done)
    && (c.refine || forall j :: c.ss <= j < k && j <= c.se ==> NBits(Mag(c, b, j)) <= MAX_COEF_BITS)
  }

  lemma CoefsStart(em: Emitter, c: Band, b: Block, p: Pending)
    requires BandOk(c)
    ensures CoefsLeft(em, c, b, c.ss, Run(p.n, p.be, 0, []), EncodeBlock(c, b, p), [])
  {
    hide EncodeCoefs, LastNew, Mag;
    NoItemsCodable(em);
    assert [] + EncodeBlock(c, b, p).0 == EncodeBlock(c, b, p).0;
  }

  lemma MagIs(c: Band, b: Block, k: nat)
    requires k < DCTSIZE2
    ensures Mag(c, b, k) == Shr(if b[k] < 0 then 0 - b[k] as int else b[k] as int, c.al)
    ensures b[k] == 0 ==> Mag(c, b, k) == 0
  {
    ShrZero(c.al);
  }

  lemma {:induction false} ShrZero(k: nat)
    ensures Shr(0, k) == 0
  {
    if k > 0 {
      ShrZero(k - 1);
    }
  }

  lemma CoefZero(em: Emitter, c: Band, b: Block, k: nat, st: Run, total: (seq<Item>, Pending), done: seq<Item>)
    requires BandOk(c) && c.ss <= k <= c.se && CoefsLeft(em, c, b, k, st, total, done) && Mag(c, b, k) == 0
    ensures CoefsLeft(em, c, b, k + 1, st.(r := st.r + 1), total, done)
  {
    hide LastNew, Mag, Codable, ZrlLoop, Flush, EndBlock;
    NBitsFit(0);
  }

  /** In a first scan, what is pending goes first, then the ZRL symbols. */
  lemma Regroup(f: seq<Item>, z: seq<Item>, i: seq<Item>, e: seq<Item>, more: seq<Item>)
    requires i + e == [] + more
    ensures f + z + [] + i + e == f + (z + more)
  {
    assert f + z + [] + i + e == f + z + (i + e);
    assert f + z + ([] + more) == f + (z + more);
  }

  lemma ZrlsUnfold(tbl: nat, r: nat)
    ensures Zrls(r, tbl) == if r > 15 then [Sym(true, tbl, 0xF0)] + Zrls(r - 16, tbl) else []
    ensures Flush(tbl, 0, []) == [] && BitItems([]) == []
  {
  }

  lemma {:induction false} ZrlsAreLoop(tbl: nat, st: Run)
    requires st.br == []
    ensures var (items, st1) := ZrlLoop(tbl, st);
      && items + Flush(tbl, st1.n, st1.be) == Flush(tbl, st.n, st.be) + Zrls(st.r, tbl)
      && st1.r == st.r % 16 && st1.br == []
    decreases st.r
  {
    hide Flush, Zrls;
    ZrlsUnfold(tbl, st.r);
    if st.r > 15 {
      var next := Run(0, [], st.r - 16, []);
      ZrlsAreLoop(tbl, next);
      var (items, st1) := ZrlLoop(tbl, next);
      var f, zrl := Flush(tbl, st.n, st.be), [Sym(true, tbl, 0xF0)];
      Regroup(f, zrl, items, Flush(tbl, st1.n, st1.be), Zrls(st.r - 16, tbl));
    } else {
      assert [] + Flush(tbl, st.n, st.be) == Flush(tbl, st.n, st.be) + [];
    }
  }

  lemma NewCoefItems(c: Band, b: Block, k: nat, st: Run)
    requires BandOk(c) && c.ss <= k <= c.se && IsNew(c, b, k)
    ensures var eob := LastNew(c, b, c.se + 1);
      var (zrls, st1) := ZrlLoop(c.tbl, st);
      var (items, p) := EncodeCoefs(c, b, k + 1, eob, Run(0, [], 0, []));
      EncodeCoefs(c, b, k, eob, st)
      == (zrls + Flush(c.tbl, st1.n, st1.be) + NewItems(c, b, k, st1.r) + BitItems(st1.br) + items, p)
  {
    hide LastNew, Mag, Flush, EndBlock, NewItems, BitItems, ZrlLoop;
    NewIsNotLate(c, b, k, c.se + 1);
  }

  lemma CoefFirst(em: Emitter, c: Band, b: Block, k: nat, st: Run, total: (seq<Item>, Pending), done: seq<Item>)
    requires BandOk(c) && !c.refine && c.ss <= k <= c.se && CoefsLeft(em, c, b, k, st, total, done)
    requires Mag(c, b, k) > 0 && st.br == []
    ensures var x := Flush(c.tbl, st.n, st.be) + Zrls(st.r, c.tbl) + NewItems(c, b, k, st.r % 16);
      && (Codable(em, x) && NBits(Mag(c, b, k)) <= MAX_COEF_BITS ==>
          CoefsLeft(em, c, b, k + 1, Run(0, [], 0, []), total, done + x))
      && (!Codable(em, x) ==> !Codable(em, total.0))
      && (NBits(Mag(c, b, k)) > MAX_COEF_BITS ==> !InRange(c, b))
  {
    hide LastNew, Mag, Codable, ZrlLoop, Flush, EndBlock, EncodeCoefs, NewItems, Zrls, NBits;
    var x := Flush(c.tbl, st.n, st.be) + Zrls(st.r, c.tbl) + NewItems(c, b, k, st.r % 16);
    NewCoefItems(c, b, k, st);
    ZrlsAreLoop(c.tbl, st);
    var (zrls, st1) := ZrlLoop(c.tbl, st);
    var (items, p) := EncodeCoefs(c, b, k + 1, LastNew(c, b, c.se + 1), Run(0, [], 0, []));
    assert zrls + Flush(c.tbl, st1.n, st1.be) + NewItems(c, b, k, st1.r) + BitItems([]) + items == x + items;
    assert done + (x + items) == done + x + items;
    CodableConcat(em, done + x, items);
    CodableConcat(em, done, x);
  }

  lemma NewItemsCodable(em: Emitter, c: Band, b: Block, k: nat, r: nat)
    requires BandOk(c) && k < DCTSIZE2 && Mag(c, b, k) > 0 && NBits(Mag(c, b, k)) <= MAX_COEF_BITS
    ensures var v := Signed(b[k] < 0, Mag(c, b, k));
      && (!c.refine ==>
          && NewItems(c, b, k, r) == [Sym(true, c.tbl, 16 * r + NBits(Mag(c, b, k))), Raw(Appended(v), NBits(Mag(c, b, k)))]
          && (Codable(em, NewItems(c, b, k, r))
              <==> em.gather || HasCode(em.tables, Sym(true, c.tbl, 16 * r + NBits(Mag(c, b, k))))))
      && (c.refine ==>
          && NewItems(c, b, k, r) == [Sym(true, c.tbl, 16 * r + 1), BitItem(b[k] >= 0)]
          && (Codable(em, NewItems(c, b, k, r)) <==> em.gather || HasCode(em.tables, Sym(true, c.tbl, 16 * r + 1))))
  {
    hide Mag, Codable, HasCode;
    var n := NBits(Mag(c, b, k));
    NBitsBounds(Mag(c, b, k));
    var x := NewItems(c, b, k, r);
    assert Abs(Signed(b[k] < 0, Mag(c, b, k))) == Mag(c, b, k);
    assert x == [x[0]] + [x[1]];
    CodableConcat(em, [x[0]], [x[1]]);
    OneCodable(em, x[0]);
    RawCodable(em, x[1].val, x[1].size);
  }

  lemma CoefsEnd(em: Emitter, c: Band, b: Block, st: Run, total: (seq<Item>, Pending), done: seq<Item>)
    requires BandOk(c) && CoefsLeft(em, c, b, c.se + 1, st, total, done)
    ensures InRange(c, b)
    ensures total.0 == done + EndBlock(c, st).0 && total.1 == EndBlock(c, st).1
    ensures Codable(em, total.0) <==> Codable(em, EndBlock(c, st).0)
  {
    hide Mag, Codable, LastNew, EndBlock;
    CodableConcat(em, done, EndBlock(c, st).0);
  }
}
