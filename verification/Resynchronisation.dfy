/**
 Damaged scans, beyond those of which segments are lost: a scan cut short by another marker, one with a repeated segment, and
 one with a wrong restart marker.
 */
module Resynchronisation {
  import opened Bits
  import opened Wrappers
  import opened HuffmanTables
  import opened BitSource
  import opened Symbols
  import opened Feeding
  import opened BitPacking
  import opened Coefficients
  import opened SequentialCodec
  import opened AcBand
  import opened McuCodec
  import opened Suspension
  import opened RestartMarkers
  import opened ScanCodec
  import opened ScanRoundTrip

  // ----- In front of a marker, with no bits left

  predicate AllZero(b: seq<bool>) {
    forall i :: 0 <= i < |b| ==> !b[i]
  }

  lemma NeedStarves(s: Source, n: nat)
    requires s.marker != 0 && s.buf == [] && 0 < n <= MIN_GET_BITS
    ensures Need(s, n).Some? && Need(s, n).value.starved
  {
  }

  lemma HuffStarves(h: HuffTbl, s: Source)
    requires s.marker != 0 && s.buf == []
    ensures HuffDecode(h, s).Some? && HuffDecode(h, s).value.1.starved
  {
    hide Collect;
    NeedStarves(s, 1);
    var t := Need(s, 1).value;
    CollectOnward(h, Drop(t, 1), 1, FromBits(t.buf[..1]));
  }

  lemma FirstBandStarves(c: Band, h: HuffTbl, s: Source, b: Block)
    requires BandOk(c) && s.marker != 0 && s.buf == []
    ensures FirstBand(c, h, s, c.ss, b).BandDone? && FirstBand(c, h, s, c.ss, b).src.starved
  {
    hide HuffDecode, GetBits, HuffExtend, Put, EobRun, Shl;
    HuffStarves(h, s);
    var (sym, t) := HuffDecode(h, s).value;
    FirstBandOnward(c, h, s, c.ss, b);
    GetBitsOnward(t, sym % 16);
    if sym % 16 != 0 {
      var (x, u) := GetBits(t, sym % 16).value;
      FirstBandOnward(c, h, u, c.ss + sym / 16 + 1, Put(b, c.ss + sym / 16, Shl(HuffExtend(x, sym % 16), c.al)));
    } else if sym / 16 == 15 {
      FirstBandOnward(c, h, t, c.ss + 16, b);
    } else {
      EobRunOnward(t, sym / 16);
    }
  }

  lemma RefineBandStarves(c: Band, h: HuffTbl, s: Source, b: Block)
    requires BandOk(c) && s.marker != 0 && s.buf == []
    ensures RefineBand(c, h, s, c.ss, b, []).BandDone? && RefineBand(c, h, s, c.ss, b, []).src.starved
  {
    hide HuffDecode, SignBit, EobRun, AdvanceOver, RefineRest, Put, Undo, NewCoef;
    HuffStarves(h, s);
    HuffDecodeOnward(h, s);
    var (sym, t) := HuffDecode(h, s).value;
    var r, n := sym / 16, sym % 16;
    if n == 0 && r != 15 {
      EobRunOnward(t, r);
      var (run, u) := EobRun(t, r).value;
      RefineRestOnward(c, u, c.ss, run, b, []);
    } else if n == 0 {
      AdvanceOnward(c, t, c.ss, r, b);
      var a := AdvanceOver(c, t, c.ss, r, b);
      RefineBandOnward(c, h, a.src, a.k + 1, a.block, []);
    } else {
      SignBitOnward(t, n);
      var (x, u) := SignBit(t, n).value;
      AdvanceOnward(c, u, c.ss, r, b);
      var a := AdvanceOver(c, u, c.ss, r, b);
      RefineBandOnward(c, h, a.src, a.k + 1, Put(a.block, a.k, NewCoef(c, x)), [] + [a.k]);
    }
  }

  lemma UnitStarves(c: Scan, hs: DTables, s: Source, ci: nat, dc: int, b: Block)
    requires ScanOk(c) && ci < MAX_COMPS_IN_SCAN && s.marker != 0 && s.buf == [] && (c.kind == Sequential || c.kind == DcFirst)
    ensures DecodeUnit(c, hs, s, ci, dc, b).Done? && DecodeUnit(c, hs, s, ci, dc, b).src.starved
  {
    hide HuffDecode, GetBits, DecodeAc, Put, Shl, HuffExtend;
    var h, a := hs[c.dcTbl[ci]], hs[4 + c.acTbl[ci]];
    HuffStarves(h, s);
    HuffDecodeOnward(h, s);
    var (n, t) := HuffDecode(h, s).value;
    if 0 < n < 16 {
      GetBitsOnward(t, n);
    }
    var (diff, u) := DcDiff(h, s).value;
    DecodeAcOnward(a, u, 1, c.acNeeded[ci], dc + diff, Put(b, 0, dc + diff));
    DecodeAcOnward(a, u, 1, c.acNeeded[ci], dc, b);
  }

  /** The first MCU that finds no data sets insufficient_data. */
  lemma McuStarves(c: Scan, hs: DTables, core: Core, mcu: Mcu)
    requires ScanOk(c) && IsMcu(c, mcu) && c.membership != [] && c.kind != DcRefine
    requires core.src.marker != 0 && core.src.buf == [] && core.eobrun == 0
    ensures DecodeMcu(c, hs, core, mcu).McuDone? && DecodeMcu(c, hs, core, mcu).core.src.starved
  {
    hide FirstBand, RefineBand, DecodeUnit, DecodeUnits;
    if !core.src.starved {
      if c.kind == AcScan {
        FirstBandStarves(c.band, hs[4 + c.band.tbl], core.src, mcu[0]);
        RefineBandStarves(c.band, hs[4 + c.band.tbl], core.src, mcu[0]);
      } else {
        UnitsStarve(c, hs, core.src, core.last, mcu);
      }
    }
  }

  lemma UnitsStarve(c: Scan, hs: DTables, s: Source, last: LastDc, mcu: Mcu)
    requires ScanOk(c) && IsMcu(c, mcu) && mcu != [] && s.marker != 0 && s.buf == []
    requires c.kind == Sequential || c.kind == DcFirst
    ensures DecodeUnits(c, hs, s, last, mcu, 0).UnitsDone? && DecodeUnits(c, hs, s, last, mcu, 0).src.starved
  {
    hide DecodeUnit;
    var ci := c.membership[0];
    UnitStarves(c, hs, s, ci, last[ci], mcu[0]);
    DecodeUnitOnward(c, hs, s, ci, last[ci], mcu[0]);
    var d := DecodeUnit(c, hs, s, ci, last[ci], mcu[0]);
    DecodeUnitsOnward(c, hs, d.src, last[ci := d.lastDc], mcu[0 := d.block], 1);
  }

  lemma ZeroBit(s: Source)
    requires s.marker != 0 && AllZero(s.buf)
    ensures GetBits(s, 1).Some?
    ensures var (x, t) := GetBits(s, 1).value; x == 0 && t.marker == s.marker && t.rest == s.rest && AllZero(t.buf)
  {
    var t := Need(s, 1).value;
    assert t.buf[..1] == [false];
    assert FromBits([false]) == 0 by { assert [false][..0] == []; }
  }

  /** A DC refinement that reads zeros changes nothing. */
  lemma {:induction false} RefineNothing(c: Scan, hs: DTables, s: Source, last: LastDc, mcu: Mcu, i: nat)
    requires ScanOk(c) && IsMcu(c, mcu) && i <= |mcu| && c.kind == DcRefine && s.marker != 0 && AllZero(s.buf)
    ensures var r := DecodeUnits(c, hs, s, last, mcu, i);
      r.UnitsDone? && r.mcu == mcu && r.src.marker == s.marker && r.src.rest == s.rest && AllZero(r.src.buf)
    decreases |mcu| - i
  {
    hide GetBits, AllZero;
    if i < |mcu| {
      var ci := c.membership[i];
      ZeroBit(s);
      var (x, t) := GetBits(s, 1).value;
      assert DecodeUnit(c, hs, s, ci, last[ci], mcu[i]) == Done(t, last[ci], mcu[i]);
      assert mcu[i := mcu[i]] == mcu;
      RefineNothing(c, hs, t, last[ci := last[ci]], mcu, i + 1);
    }
  }

  // ----- A scan cut short

  /** A marker that cannot belong to the scan: SOFn and others below RST0, EOI and others above RST7. */
  predicate EndsScan(m: byte) {
    0xC0 <= m <= 0xCF || 0xD8 <= m <= 0xFE
  }

  /** The decoder stands in front of such a marker and leaves the coefficients alone. */
  ghost predicate Idle(c: Scan, interval: nat, st: State, m: byte, more: seq<byte>) {
    && EndsScan(m) && st.core.src.marker == m && st.core.src.rest == more && interval > 0 && st.nextNum < 8
    && (if c.kind == DcRefine then AllZero(st.core.src.buf) else st.core.src.starved)
  }

  lemma IdleStep(c: Scan, hs: DTables, interval: nat, st: State, mcu: Mcu, m: byte, more: seq<byte>)
    requires ScanOk(c) && IsMcu(c, mcu) && Idle(c, interval, st, m, more)
    ensures var r := Step(c, hs, interval, st, mcu); r.Stepped? && r.mcu == mcu && Idle(c, interval, r.st, m, more)
  {
    hide ProcessRestart, DecodeUnits, DecodeBand;
    if st.togo == 0 {
      RestartStillAtOther(ReaderOf(st));
    }
    var st1 := Restart(interval, st).1;
    if c.kind == DcRefine {
      RefineNothing(c, hs, st1.core.src, st1.core.last, mcu, 0);
    }
  }

  lemma {:induction false} IdleScan(c: Scan, hs: DTables, interval: nat, st: State, mcus: seq<Mcu>, m: byte, more: seq<byte>)
    returns (st': State)
    requires ScanOk(c) && AreMcus(c, mcus) && Idle(c, interval, st, m, more)
    ensures DecodeScan(c, hs, interval, st, mcus) == Some((st', mcus)) && Idle(c, interval, st', m, more)
    decreases |mcus|
  {
    hide Step, Idle, IsMcu;
    if mcus == [] {
      st' := st;
    } else {
      IdleStep(c, hs, interval, st, mcus[0], m, more);
      var r := Step(c, hs, interval, st, mcus[0]);
      st' := IdleScan(c, hs, interval, r.st, mcus[1..], m, more);
      assert [mcus[0]] + mcus[1..] == mcus;
    }
  }

  lemma CutShort(interval: nat, st: State, m: byte, more: seq<byte>)
    requires interval != 0 && st.togo == 0 && st.nextNum < 8 && AtEnd(st, m, more) && EndsScan(m)
    ensures Restart(interval, st).0
    ensures var st1 := Restart(interval, st).1;
      st1.core.src.marker == m && st1.core.src.rest == more && st1.core.src.buf == [] && st1.core.eobrun == 0
      && st1.togo == interval && st1.nextNum < 8
  {
    hide Lookahead, ProcessRestart;
    RestartAtOther(ReaderOf(st), Lookahead(st.core.src).value);
  }

  /**
   A scan cut short: whole segments a are followed by a marker such as EOI instead of their next restart marker.  The MCUs
   of a are decoded.  Of those that are missing, all but the first are left as the earlier scans left them, and in a DC
   refinement all are; for the first one, the decoder makes up zero bits until it notices.  The marker stays unread.
   */
  lemma TruncatedScan(c: Scan, hs: DTables, t: CTables, interval: nat, st: State, a: seq<Mcu>, ha: seq<Mcu>, missing: seq<Mcu>,
                      m: byte, more: seq<byte>) returns (st': State, out: seq<Mcu>)
    requires ScanOk(c) && AllLinked(hs, t) && interval > 0 && Fresh(interval, st, 0) && c.membership != []
    requires AreMcus(c, a) && AreMcuHistories(c, a, ha) && Encodable(c, t, interval, a) && Whole(interval, |a|)
    requires AreMcus(c, missing) && missing != []
    requires 0xC0 <= m <= 0xCF || 0xD8 <= m <= 0xFE
    requires st.core.src.rest == ScanBytes(c, t, interval, a, 0) + [0xFF, m] + more
    ensures AreMcus(c, ha) && AreMcus(c, ha + missing)
    ensures DecodeScan(c, hs, interval, st, ha + missing) == Some((st', McuGoals(c, a, ha) + out))
    ensures |out| == |missing| && (forall i :: 1 <= i < |out| ==> out[i] == missing[i])
    ensures c.kind == DcRefine ==> out == missing
    ensures st'.core.src.marker == m && st'.core.src.rest == more
  {
    hide AllLinked, ScanBytes, Encodable, McuGoals, AreMcuHistories, AtEnd, Step, Restart, IsMcu, DecodeMcu;
    var st1 := SegmentsDecode(c, hs, t, interval, st, a, ha, 0, m, more, missing);
    CutShort(interval, st1, m, more);
    AfterRestart(c, hs, interval, st1, missing);
    var st2 := Restart(interval, st1).1;
    SameLength(c, a, ha);
    if c.kind == DcRefine {
      st' := IdleScan(c, hs, interval, st2, missing, m, more);
      out := missing;
    } else {
      McuStarves(c, hs, st2.core, missing[0]);
      DecodeMcuOnward(c, hs, st2.core, missing[0]);
      StepWithin(c, hs, interval, st2, missing[0]);
      var d := DecodeMcu(c, hs, st2.core, missing[0]);
      var st3 := st2.(core := d.core, togo := CountDown(st2.togo));
      st' := IdleScan(c, hs, interval, st3, missing[1..], m, more);
      out := [d.mcu] + missing[1..];
    }
  }

  // ----- A repeated segment

  lemma SegmentRepeated(interval: nat, st: State, num: nat, d: nat, bytes: seq<byte>, more: seq<byte>)
    requires interval != 0 && st.togo == 0 && st.nextNum == num % 8 && 1 <= d <= 2
    requires AtEnd(st, RstCode(num + 8 - d), Stuff(bytes) + [0xFF, RstCode(num)] + more)
    ensures Restart(interval, st).0 && Fresh(interval, Restart(interval, st).1, num + 1)
    ensures Restart(interval, st).1.core.src.rest == more
  {
    hide Lookahead, ProcessRestart, Stuff;
    assert RstCode(num) == RstCode(st.nextNum) && RstCode(num + 8 - d) == RstCode(st.nextNum + 8 - d);
    RestartRepeated(ReaderOf(st), Lookahead(st.core.src).value, d, bytes, more);
  }

  /** The bytes of a scan a + e, cut in front of the restart marker between a and e. */
  lemma CutAtRestart(c: Scan, t: CTables, interval: nat, a: seq<Mcu>, e: seq<Mcu>, k: nat)
    requires ScanOk(c) && interval > 0 && AreMcus(c, a) && AreMcus(c, e) && e != []
    requires Whole(interval, |a|) && k == Segments(interval, |a|)
    ensures AreMcus(c, a + e)
    ensures var file, cut := ScanBytes(c, t, interval, a + e, 0), |ScanBytes(c, t, interval, a, 0)|;
      && cut <= |file| && file[..cut] == ScanBytes(c, t, interval, a, 0)
      && file[cut..] == [0xFF, RstCode(k - 1)] + ScanBytes(c, t, interval, e, k)
  {
    hide ScanBytes, RstCode, IsMcu;
    JoinMcus(c, a, e);
    ScanBytesConcat(c, t, interval, a, e, k, 0);
    var x, r, z := ScanBytes(c, t, interval, a, 0), [0xFF, RstCode(0 + k - 1)], ScanBytes(c, t, interval, e, k);
    assert x + r + z == x + (r + z);
  }

  /**
   A repeated pair: between two segments of a scan, a restart marker of one or two counts back comes again, with some
   segment behind it.  All segments of the scan are decoded into their original MCU positions.
   */
  lemma RepeatedPair(c: Scan, hs: DTables, t: CTables, interval: nat, st: State, a: seq<Mcu>, ha: seq<Mcu>, x: seq<Mcu>,
                     e: seq<Mcu>, he: seq<Mcu>, k: nat, d: nat, m: byte, more: seq<byte>) returns (st': State)
    requires ScanOk(c) && AllLinked(hs, t) && interval > 0 && Fresh(interval, st, 0) && m != 0 && m != 0xFF
    requires AreMcus(c, a) && AreMcuHistories(c, a, ha) && Encodable(c, t, interval, a)
    requires Whole(interval, |a|) && k == Segments(interval, |a|) && AreMcus(c, x) && 1 <= d <= 2
    requires AreMcus(c, e) && AreMcuHistories(c, e, he) && Encodable(c, t, interval, e) && e != []
    requires AreMcus(c, a + e)
    requires var file, cut := ScanBytes(c, t, interval, a + e, 0), |ScanBytes(c, t, interval, a, 0)|;
      cut <= |file| && st.core.src.rest
      == file[..cut] + [0xFF, 0xD0 + (k - 1 + 8 - d) % 8] + IntervalBytes(c, t, x) + file[cut..] + [0xFF, m] + more
    ensures AreMcus(c, ha + he) && AreMcus(c, ha) && AreMcus(c, he)
    ensures DecodeScan(c, hs, interval, st, ha + he) == Some((st', McuGoals(c, a, ha) + McuGoals(c, e, he)))
  {
    hide AllLinked, ScanBytes, Encodable, McuGoals, AreMcuHistories, AtEnd, Step, Restart, IsMcu, Stuff, Pack, Padded, ItemsBits,
         IntervalItems;
    CutAtRestart(c, t, interval, a, e, k);
    HistoriesSplit(c, e, he, 0);
    SameLength(c, e, he);
    var bytes := Pack(Padded(ItemsBits(t, IntervalItems(c, x))));
    assert IntervalBytes(c, t, x) == Stuff(bytes);
    var rest := ScanBytes(c, t, interval, e, k) + [0xFF, m] + more;
    var tail := Stuff(bytes) + [0xFF, RstCode(k - 1)] + rest;
    var m1 := RstCode(k - 1 + 8 - d);
    Regrouped(ScanBytes(c, t, interval, a, 0), [0xFF, m1], Stuff(bytes), [0xFF, RstCode(k - 1)],
              ScanBytes(c, t, interval, e, k), [0xFF, m], more);
    RstIsMarker(k - 1 + 8 - d);
    var st1 := SegmentsDecode(c, hs, t, interval, st, a, ha, 0, m1, tail, he);
    SegmentRepeated(interval, st1, k - 1, d, bytes, rest);
    AfterRestart(c, hs, interval, st1, he);
    st' := SegmentsDecode(c, hs, t, interval, Restart(interval, st1).1, e, he, k, m, more, []);
    assert he + [] == he;
    assert McuGoals(c, e, he) + [] == McuGoals(c, e, he);
  }

  lemma Regrouped(x: seq<byte>, r: seq<byte>, y: seq<byte>, q: seq<byte>, z: seq<byte>, p: seq<byte>, more: seq<byte>)
    ensures x + r + y + (q + z) + p + more == x + r + (y + q + (z + p + more))
  {
  }

  // ----- A wrong restart marker

  lemma SegmentFarAway(interval: nat, st: State, num: nat, d: nat, more: seq<byte>)
    requires interval != 0 && st.togo == 0 && st.nextNum == num % 8 && 3 <= d <= 5 && AtEnd(st, RstCode(num + d), more)
    ensures Restart(interval, st).0 && Fresh(interval, Restart(interval, st).1, num + 1)
    ensures Restart(interval, st).1.core.src.rest == more
  {
    hide Lookahead, ProcessRestart;
    assert RstCode(num + d) == RstCode(st.nextNum + d);
    RestartFarAway(ReaderOf(st), Lookahead(st.core.src).value, d);
  }

  /** A restart marker three to five counts away from the one expected is taken for it: no segment is lost. */
  lemma WrongMarker(c: Scan, hs: DTables, t: CTables, interval: nat, st: State, a: seq<Mcu>, ha: seq<Mcu>, e: seq<Mcu>,
                    he: seq<Mcu>, k: nat, d: nat, m: byte, more: seq<byte>) returns (st': State)
    requires ScanOk(c) && AllLinked(hs, t) && interval > 0 && Fresh(interval, st, 0) && m != 0 && m != 0xFF
    requires AreMcus(c, a) && AreMcuHistories(c, a, ha) && Encodable(c, t, interval, a)
    requires Whole(interval, |a|) && k == Segments(interval, |a|) && 3 <= d <= 5
    requires AreMcus(c, e) && AreMcuHistories(c, e, he) && Encodable(c, t, interval, e) && e != []
    requires AreMcus(c, a + e)
    requires var file, cut := ScanBytes(c, t, interval, a + e, 0), |ScanBytes(c, t, interval, a, 0)|;
      cut + 1 < |file| && st.core.src.rest == file[cut + 1 := 0xD0 + (k - 1 + d) % 8] + [0xFF, m] + more
    ensures AreMcus(c, ha + he) && AreMcus(c, ha) && AreMcus(c, he)
    ensures DecodeScan(c, hs, interval, st, ha + he) == Some((st', McuGoals(c, a, ha) + McuGoals(c, e, he)))
  {
    hide AllLinked, ScanBytes, Encodable, McuGoals, AreMcuHistories, AtEnd, Step, Restart, IsMcu;
    CutAtRestart(c, t, interval, a, e, k);
    HistoriesSplit(c, e, he, 0);
    SameLength(c, e, he);
    var file, x, z := ScanBytes(c, t, interval, a + e, 0), ScanBytes(c, t, interval, a, 0), ScanBytes(c, t, interval, e, k);
    var rest, m1 := z + [0xFF, m] + more, RstCode(k - 1 + d);
    assert file == x + file[|x|..];
    assert file[|x| + 1 := m1] == x + [0xFF, m1] + z;
    assert x + [0xFF, m1] + z + [0xFF, m] + more == x + [0xFF, m1] + rest;
    RstIsMarker(k - 1 + d);
    var st1 := SegmentsDecode(c, hs, t, interval, st, a, ha, 0, m1, rest, he);
    SegmentFarAway(interval, st1, k - 1, d, rest);
    AfterRestart(c, hs, interval, st1, he);
    st' := SegmentsDecode(c, hs, t, interval, Restart(interval, st1).1, e, he, k, m, more, []);
    assert he + [] == he;
    assert McuGoals(c, e, he) + [] == McuGoals(c, e, he);
  }
}
