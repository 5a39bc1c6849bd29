/**
 The Huffman encoders of a scan (jchuff.c and jcphuff.c): restart markers, the MCU routines for each kind of scan, and
 the end of the pass, when writing data and when gathering statistics.
 */
module ScanEncoders {
  import opened Bits
  import opened Wrappers
  import opened HuffmanTables
  import opened BitPacking
  import opened Symbols
  import opened Emitters
  import opened Coefficients
  import opened NaturalOrder
  import opened SequentialCodec
  import opened BlockEncoders
  import opened AcBand
  import opened AcEncoders
  import opened McuCodec
  import opened ScanRoundTrip
  import opened EncoderSpec

  /** Blocks i.. of an MCU are still to be coded. */
  ghost predicate UnitsLeft(em: Emitter, c: Scan, mcu: Mcu, i: nat, last0: LastDc, last: LastDc, done: seq<Item>)
    requires ScanOk(c) && IsMcu(c, mcu) && i <= |mcu|
  {
    && done + UnitsItems(c, mcu, i, last) == UnitsItems(c, mcu, 0, last0)
    && LastAfter(c, mcu, i, last) == LastAfter(c, mcu, 0, last0)
    && (UnitsInRange(c, mcu, i, last) <==> UnitsInRange(c, mcu, 0, last0))
    && Codable(em, done)
  }

  lemma UnitsStart(em: Emitter, c: Scan, mcu: Mcu, last: LastDc)
    requires ScanOk(c) && IsMcu(c, mcu)
    ensures UnitsLeft(em, c, mcu, 0, last, last, [])
  {
    hide UnitsItems;
    NoItemsCodable(em);
    assert [] + UnitsItems(c, mcu, 0, last) == UnitsItems(c, mcu, 0, last);
  }

  lemma UnitStep(em: Emitter, c: Scan, mcu: Mcu, i: nat, last0: LastDc, last: LastDc, done: seq<Item>)
    requires ScanOk(c) && IsMcu(c, mcu) && i < |mcu| && UnitsLeft(em, c, mcu, i, last0, last, done)
    ensures var ci := c.membership[i];
      var x := UnitItems(c, mcu[i], ci, last);
      && (UnitInRange(c, mcu[i], ci, last) && Codable(em, x) ==>
          UnitsLeft(em, c, mcu, i + 1, last0, NextLast(c, mcu, i, last), done + x))
      && (!UnitInRange(c, mcu[i], ci, last) ==> !UnitsInRange(c, mcu, 0, last0))
      && (!Codable(em, x) ==> !Codable(em, UnitsItems(c, mcu, 0, last0)))
  {
    hide Codable, UnitItems, UnitInRange;
    var x := UnitItems(c, mcu[i], c.membership[i], last);
    var more := UnitsItems(c, mcu, i + 1, NextLast(c, mcu, i, last));
    assert done + (x + more) == done + x + more;
    CodableConcat(em, done + x, more);
    CodableConcat(em, done, x);
  }

  lemma UnitsEnd(em: Emitter, c: Scan, mcu: Mcu, last0: LastDc, last: LastDc, done: seq<Item>)
    requires ScanOk(c) && IsMcu(c, mcu) && UnitsLeft(em, c, mcu, |mcu|, last0, last, done)
    ensures done == UnitsItems(c, mcu, 0, last0) && last == LastAfter(c, mcu, 0, last0) && UnitsInRange(c, mcu, 0, last0)
    ensures Codable(em, done)
  {
    hide Codable;
    assert done + [] == done;
  }

  /** One block of an MCU in a scan that is not an AC scan. */
  method EncodeUnit(c: Scan, em: Emitter, block: array<Coef>, ci: nat, last: LastDc) returns (st: Status)
    requires ScanOk(c) && c.kind != AcScan && em.Valid() && ci < MAX_COMPS_IN_SCAN && block.Length == DCTSIZE2
    modifies em
    ensures var b := InZigzag(block[..]);
      && Outcome(st, em, UnitInRange(c, b, ci, last), UnitItems(c, b, ci, last))
      && (st.Good? ==> em.Valid() && em.segs == old(em.segs) && em.items == old(em.items) + UnitItems(c, b, ci, last))
  {
    hide Emitter.Valid, Codable, BlockItems, DcItems, Natural, AcInRange, DcInRange, Shr;
    FirstIsDc();
    match c.kind
    case Sequential =>
      st := EncodeOneBlock(em, block, last[ci], c.dcTbl[ci], c.acTbl[ci]);
    case DcFirst =>
      var temp2 := Shr(block[0], c.al);
      st := EmitDc(em, temp2 - last[ci], c.dcTbl[ci]);
    case DcRefine =>
      var temp := block[0];
      RawCodable(em, Shr(temp, c.al), 1);
      em.EmitRaw(Shr(temp, c.al), 1);
      st := Good;
  }

  /** The loop over the blocks of an MCU. */
  method EncodeUnits(c: Scan, em: Emitter, blocks: seq<array<Coef>>, lastDc: LastDc) returns (st: Status, last: LastDc)
    requires ScanOk(c) && c.kind != AcScan && em.Valid()
    requires |blocks| == |c.membership| && forall i :: 0 <= i < |blocks| ==> blocks[i].Length == DCTSIZE2
    modifies em
    ensures var mcu := Stored(blocks);
      && Outcome(st, em, UnitsInRange(c, mcu, 0, lastDc), UnitsItems(c, mcu, 0, lastDc))
      && (st.Good? ==>
          && em.Valid() && em.segs == old(em.segs) && em.items == old(em.items) + UnitsItems(c, mcu, 0, lastDc)
          && last == LastAfter(c, mcu, 0, lastDc))
  {
    hide Emitter.Valid, Codable, UnitsItems, UnitItems, UnitInRange, UnitsInRange, UnitsLeft, LastAfter, InZigzag, Natural;
    ghost var mcu, done: seq<Item> := Stored(blocks), [];
    last := lastDc;
    UnitsStart(em, c, mcu, lastDc);
    for blkn := 0 to |blocks|
      invariant em.Valid() && em.segs == old(em.segs) && em.items == old(em.items) + done
      invariant UnitsLeft(em, c, mcu, blkn, lastDc, last, done)
    {
      var ci := c.membership[blkn];
      UnitStep(em, c, mcu, blkn, lastDc, last, done);
      st := EncodeUnit(c, em, blocks[blkn], ci, last);
      if st.Bad? {
        return;
      }
      done := done + UnitItems(c, mcu[blkn], ci, last);
      LevelIs(c, blocks[blkn]);
      last := last[ci := if c.kind == Sequential then blocks[blkn][0] else Shr(blocks[blkn][0], c.al)];
    }
    UnitsEnd(em, c, mcu, lastDc, last, done);
    st := Good;
  }

  lemma LevelIs(c: Scan, block: array<Coef>)
    requires block.Length == DCTSIZE2
    ensures Level(c, InZigzag(block[..])) == if c.kind == Sequential then block[0] as int else Shr(block[0], c.al)
  {
    FirstIsDc();
  }

  class ScanEncoder {
    const c: Scan
    const interval: nat
    const em: Emitter
    const ac: AcCoder

    var lastDc: LastDc
    var restartsToGo: nat
    var nextRestartNum: nat

    /** The MCUs of the closed restart intervals, and those of the current one. */
    ghost var segs: seq<seq<Mcu>>
    ghost var cur: seq<Mcu>

    /** start_pass_huff and start_pass_phuff, given the derived tables. */
    constructor (c: Scan, interval: nat, gather: bool, tables: CTables)
      requires ScanOk(c) && SizesFit(tables)
      ensures Valid() && this.c == c && this.interval == interval && em.gather == gather && em.tables == tables
      ensures All() == [] && fresh(em) && fresh(ac) && fresh(ac.bitBuffer)
    {
      var em0 := new Emitter(gather, tables);
      var ac0 := new AcCoder(c.band, em0);
      this.c, this.interval, em, ac := c, interval, em0, ac0;
      lastDc, restartsToGo, nextRestartNum := NO_DC, interval, 0;
      segs, cur := [], [];
      new;
      NoneYet(c);
    }

    ghost predicate Counters()
      reads this
    {
      && nextRestartNum == |segs| % 8
      && OneSegment(interval, cur)
      && (interval != 0 ==> restartsToGo == interval - |cur|)
      && (segs != [] ==> cur != [] && interval != 0)
    }

    ghost predicate Coded()
      reads `lastDc, `segs, `cur, em, ac, ac.bitBuffer
    {
      && ScanOk(c) && ac.em == em && ac.c == c.band && ac.Valid()
      && AreMcus(c, cur) && AreSegments(c, interval, segs)
      && em.items == PartialItems(c, cur) && lastDc == LastOf(c, cur) && ac.Pend() == PendOf(c, cur)
      && em.segs == ClosedSegs(c, segs, 0)
    }

    ghost predicate Valid()
      reads this, em, ac, ac.bitBuffer
    {
      Coded() && Counters()
    }

    ghost function All(): seq<Mcu>
      reads this
    {
      Concat(segs) + cur
    }

    /** emit_restart */
    method EmitRestart() returns (st: Status)
      requires Coded() && nextRestartNum == |segs| % 8 && |cur| == interval
      modifies this, em, ac
      ensures st.Good? <==> Codable(em, ClosingItems(c, old(cur)))
      ensures st.Bad? ==> st.error == MissingCode
      ensures st.Good? ==> Coded() && segs == old(segs) + [old(cur)] && cur == []
      ensures nextRestartNum == old(nextRestartNum) && restartsToGo == old(restartsToGo)
    {
      hide Emitter.Valid, Codable, PartialItems, PendOf, LastOf, Flush, IntervalItems, IsMcu;
      assert ac.bitBuffer[..ac.be] == PendOf(c, cur).be;
      st := ac.EmitEobrun();
      if st.Bad? {
        return;
      }
      IntervalIsPartial(c, cur);
      em.EmitRestart(nextRestartNum);
      assert ClosedSegs(c, segs + [cur], 0) == ClosedSegs(c, segs, 0) + [Closed(IntervalItems(c, cur), nextRestartNum)];
      segs, cur := segs + [cur], [];
      lastDc := NO_DC;
      assert ac.bitBuffer[..0] == [];
      NoneYet(c);
    }

    /** The items of the next MCU, with those that the restart in front of it completes. */
    ghost function Due(): bool
      reads this
    {
      interval != 0 && |cur| == interval
    }

    /** The MCU itself, behind the restart marker if there was one. */
    method CodeMcu(blocks: seq<array<Coef>>) returns (st: Status)
      requires Coded() && |blocks| == |c.membership| && forall i :: 0 <= i < |blocks| ==> blocks[i].Length == DCTSIZE2
      modifies this, em, ac, ac.bitBuffer
      ensures var mcu := Stored(blocks);
        && Outcome(st, em, McuInRange(c, old(cur), mcu), McuItems(c, old(cur), mcu))
        && (st.Good? ==> Coded() && cur == old(cur) + [mcu])
      ensures segs == old(segs) && nextRestartNum == old(nextRestartNum) && restartsToGo == old(restartsToGo)
    {
      hide Emitter.Valid, Codable, PartialItems, PendOf, LastOf, Flush, IntervalItems, EncodeBlock, InRange, UnitsInRange,
           UnitsItems, InZigzag, LastAfter, PendingOk;
      ghost var mcu := Stored(blocks);
      OneMore(c, cur, mcu);
      if c.kind == AcScan {
        ghost var b := InZigzag(blocks[0][..]);
        assert mcu[0] == b;
        if c.band.refine {
          RefineInRange(c.band, b);
          st := ac.EncodeAcRefine(blocks[0]);
        } else {
          st := ac.EncodeAcFirst(blocks[0]);
        }
        if st.Bad? {
          return;
        }
        LastOfAc(c, cur, mcu);
      } else {
        NothingPending(c, cur);
        st, lastDc := EncodeUnits(c, em, blocks, lastDc);
        if st.Bad? {
          return;
        }
      }
      cur := cur + [mcu];
    }

    /** encode_mcu_huff, encode_mcu_gather and the four routines of the progressive encoder. */
    method EncodeMcu(blocks: seq<array<Coef>>) returns (st: Status)
      requires Valid() && |blocks| == |c.membership| && forall i :: 0 <= i < |blocks| ==> blocks[i].Length == DCTSIZE2
      modifies this, em, ac, ac.bitBuffer
      ensures var mcu := Stored(blocks);
        var closing := if old(Due()) then ClosingItems(c, old(cur)) else [];
        var before := if old(Due()) then [] else old(cur);
        && Outcome(st, em, McuInRange(c, before, mcu), closing + McuItems(c, before, mcu))
        && (st.Good? ==> Valid() && All() == old(All()) + [mcu])
        && (st.Good? ==> cur == before + [mcu] && segs == if old(Due()) then old(segs) + [old(cur)] else old(segs))
    {
      hide Coded, Codable, McuInRange, McuItems, ClosingItems, InZigzag;
      ghost var mcu := Stored(blocks);
      ghost var before, closed := if Due() then [] else cur, segs;
      FlatSnoc(segs, cur);
      CodedMcus();
      AddMcu(Concat(segs), cur, mcu);
      ghost var closing := if Due() then ClosingItems(c, cur) else [];
      CodableConcat(em, closing, McuItems(c, before, mcu));
      NoItemsCodable(em);
      st := Good;
      if interval != 0 && restartsToGo == 0 {
        CodedLinks();
        st := EmitRestart();
        if st.Bad? {
          return;
        }
      }
      st := CodeMcu(blocks);
      if st.Bad? {
        return;
      }
      if interval != 0 {
        if restartsToGo == 0 {
          restartsToGo := interval;
          nextRestartNum := (nextRestartNum + 1) % 8;
        }
        restartsToGo := restartsToGo - 1;
      }
    }

    /**
     encode_mcu_huff with a destination that takes no more after `room` bytes: the working state is dropped then, and the
     MCU has to be passed in again.  (The progressive encoder cannot be suspended.)
     */
    method TryMcu(blocks: seq<array<Coef>>, room: nat) returns (st: Status, done: bool)
      requires Valid() && c.kind == Sequential && !em.gather
      requires |blocks| == |c.membership| && forall i :: 0 <= i < |blocks| ==> blocks[i].Length == DCTSIZE2
      modifies this, em, ac, ac.bitBuffer
      ensures !done ==> Valid() && em.out == old(em.out) && segs == old(segs) && cur == old(cur)
      ensures !done ==> restartsToGo == old(restartsToGo) && nextRestartNum == old(nextRestartNum) && lastDc == old(lastDc)
      ensures done ==>
        var mcu := Stored(blocks);
        var closing := if old(Due()) then ClosingItems(c, old(cur)) else [];
        var before := if old(Due()) then [] else old(cur);
        && Outcome(st, em, McuInRange(c, before, mcu), closing + McuItems(c, before, mcu))
        && (st.Good? ==> Valid() && All() == old(All()) + [mcu])
        && (st.Good? ==> cur == before + [mcu] && segs == if old(Due()) then old(segs) + [old(cur)] else old(segs))
    {
      hide Codable, McuInRange, McuItems, ClosingItems, InZigzag, Coded, Counters;
      var out, putBuffer, putBits := em.out, em.putBuffer, em.putBits;
      var dc, togo, num := lastDc, restartsToGo, nextRestartNum;
      var eobrun, be := ac.eobrun, ac.be;
      ghost var bits, closed, items, segs0, cur0 := em.bits, em.segs, em.items, segs, cur;
      st := EncodeMcu(blocks);
      done := |em.out| < |out| + room;
      if !done {
        em.out, em.putBuffer, em.putBits := out, putBuffer, putBits;
        lastDc, restartsToGo, nextRestartNum := dc, togo, num;
        ac.eobrun, ac.be := eobrun, be;
        em.bits, em.segs, em.items, segs, cur := bits, closed, items, segs0, cur0;
        AsBefore();
      }
    }

    twostate lemma AsBefore()
      requires old(Valid()) && c.kind == Sequential && !em.gather
      requires em.out == old(em.out) && em.putBuffer == old(em.putBuffer) && em.putBits == old(em.putBits)
      requires lastDc == old(lastDc) && restartsToGo == old(restartsToGo) && nextRestartNum == old(nextRestartNum)
      requires ac.eobrun == old(ac.eobrun) && ac.be == old(ac.be) && segs == old(segs) && cur == old(cur)
      requires em.bits == old(em.bits) && em.segs == old(em.segs) && em.items == old(em.items)
      ensures Valid()
    {
      hide PartialItems, PendOf, LastOf, ClosedSegs, IsMcu, ClosedBytes, ItemsBits, Stuff, Pack, Holds, Left;
      NothingPending(c, cur);
      assert ac.bitBuffer[..0] == [];
    }

    /** finish_pass_huff and finish_pass_phuff, and the part of their gathering counterparts that concerns the coder. */
    method FinishPass() returns (st: Status)
      requires Valid()
      modifies this, em, ac
      ensures st.Good? <==> Codable(em, ClosingItems(c, old(cur)))
      ensures st.Bad? ==> st.error == MissingCode
      ensures AreMcus(c, old(All()))
      ensures st.Good? && !em.gather ==> em.out == ScanBytes(c, em.tables, interval, old(All()), 0)
      ensures st.Good? && em.gather ==> CountsOf(em.counts, ScanItems(c, interval, old(All())))
    {
      hide Codable, PartialItems, PendOf, LastOf, Flush, IntervalItems, IsMcu, Emitter.Packed, CountsOf, ScanBytes, ScanItems,
           ClosedBytes, SegmentBytes, ItemsBits, AllItems;
      assert ac.bitBuffer[..ac.be] == PendOf(c, cur).be;
      SegmentsAreScan(c, em.tables, interval, segs, cur, 0);
      IntervalIsPartial(c, cur);
      st := ac.EmitEobrun();
      if st.Bad? {
        return;
      }
      if !em.gather {
        em.Finish();
      }
    }

    lemma CodedMcus()
      requires Coded()
      ensures ScanOk(c) && AreMcus(c, cur) && AreMcus(c, [])
    {
    }

    lemma CodedLinks()
      requires Coded()
      ensures ac.em == em
    {
    }
  }

  lemma RefineInRange(c: Band, b: Block)
    requires BandOk(c) && c.refine
    ensures InRange(c, b)
  {
  }

  lemma NothingPending(c: Scan, cur: seq<Mcu>)
    requires ScanOk(c) && AreMcus(c, cur) && c.kind != AcScan
    ensures PendOf(c, cur) == Pending(0, [])
  {
  }

  lemma AddMcu(a: seq<Mcu>, b: seq<Mcu>, m: Mcu)
    ensures a + (b + [m]) == (a + b) + [m]
    ensures [] + [m] == [m]
  {
  }

  lemma LastOfAc(c: Scan, cur: seq<Mcu>, m: Mcu)
    requires ScanOk(c) && AreMcus(c, cur) && IsMcu(c, m) && c.kind == AcScan
    ensures AreMcus(c, cur + [m]) && LastOf(c, cur + [m]) == LastOf(c, cur)
  {
  }

  lemma {:induction false} FlatSnoc(segs: seq<seq<Mcu>>, x: seq<Mcu>)
    ensures Concat(segs + [x]) == Concat(segs) + x
  {
    if segs == [] {
      assert [] + [x] == [x] && [x][1..] == [];
    } else {
      assert (segs + [x])[1..] == segs[1..] + [x];
      FlatSnoc(segs[1..], x);
    }
  }
}
