/** The round trip of a restart interval: for every kind of scan, decoding what the encoder emits gives the blocks back. */
module McuRoundTrip {
  import opened Bits
  import opened Wrappers
  import opened HuffmanTables
  import opened BitSource
  import opened Symbols
  import opened Feeding
  import opened Coefficients
  import opened SequentialCodec
  import opened AcBand
  import opened AcSegment
  import opened AcRoundTrip
  import opened McuCodec
  import opened Suspension

  /** Coefficients that are not needed are read all the same. */
  lemma {:induction false} UnneededAc(h: HuffTbl, s: Source, k: nat, dc: int, b: Block, dc': int, b': Block)
    ensures DecodeAc(h, s, k, false, dc', b') ==
      match DecodeAc(h, s, k, true, dc, b)
      case Done(u, _, _) => Done(u, dc', b')
      case Suspended(_) => Suspended(b')
    decreases DCTSIZE2 - k
  {
    hide HuffDecode, GetBits, HuffExtend, Put;
    if k < DCTSIZE2 {
      match HuffDecode(h, s)
      case None =>
      case Some((sym, t)) =>
        var r, n := sym / 16, sym % 16;
        if n != 0 {
          match GetBits(t, n)
          case None =>
          case Some((x, u)) => UnneededAc(h, u, k + r + 1, dc, Put(b, k + r, HuffExtend(x, n)), dc', b');
        } else if r == 15 {
          UnneededAc(h, t, k + 16, dc, b, dc', b');
        }
    }
  }

  lemma SequentialUnit(c: Scan, hs: DTables, t: CTables, s: Source, b: Block, ci: nat, last: LastDc, dc: int,
                       rest: seq<Item>, end: Ahead, zero: Block) returns (u: Source)
    requires ScanOk(c) && AllLinked(hs, t) && ci < MAX_COMPS_IN_SCAN && c.kind == Sequential
    requires UnitInRange(c, b, ci, last) && zero == seq(DCTSIZE2, _ => 0) && (c.needed[ci] ==> dc == last[ci])
    requires AllHaveCodes(t, UnitItems(c, b, ci, last)) && Feeds(s, t, UnitItems(c, b, ci, last) + rest, end)
    ensures DecodeUnit(c, hs, s, ci, dc, zero) == Done(u, if c.needed[ci] then b[0] else dc, UnitGoal(c, b, zero, ci))
    ensures Feeds(u, t, rest, end) && Quiet(s, u)
  {
    hide DcDiff, DecodeAc, Feeds, AllLinked, BlockItems, AllHaveCodes;
    var h, a := hs[c.dcTbl[ci]], hs[4 + c.acTbl[ci]];
    u := BlockRoundTrip(hs, t, s, b, last[ci], c.dcTbl[ci], c.acTbl[ci], rest, end, zero);
    assert DecodeBlock(h, a, s, true, true, last[ci], zero) == Done(u, b[0], b);
    var (diff, v) := DcDiff(h, s).value;
    var d := last[ci] + diff;
    DecodeAcOnward(a, v, 1, true, d, Put(zero, 0, d));
    assert d == b[0];
    if !c.acNeeded[ci] {
      if c.needed[ci] {
        UnneededAc(a, v, 1, d, Put(zero, 0, d), d, Put(zero, 0, d));
      } else {
        UnneededAc(a, v, 1, d, Put(zero, 0, d), dc, zero);
      }
    }
  }

  lemma DcFirstUnit(c: Scan, hs: DTables, t: CTables, s: Source, b: Block, h: Block, ci: nat, last: LastDc,
                    rest: seq<Item>, end: Ahead) returns (u: Source)
    requires ScanOk(c) && AllLinked(hs, t) && ci < MAX_COMPS_IN_SCAN && c.kind == DcFirst
    requires UnitInRange(c, b, ci, last)
    requires AllHaveCodes(t, UnitItems(c, b, ci, last)) && Feeds(s, t, UnitItems(c, b, ci, last) + rest, end)
    ensures DecodeUnit(c, hs, s, ci, last[ci], h) == Done(u, Level(c, b), UnitGoal(c, b, h, ci))
    ensures Feeds(u, t, rest, end) && Quiet(s, u)
  {
    hide DcDiff, Feeds, AllLinked, DcItems, Shl, Shr, DecodeBlock, BlockItems, GetBits, SetBit, Goal, DcInRange, AcInRange;
    DcRoundTrip(hs, t, s, Level(c, b) - last[ci], c.dcTbl[ci], rest, end);
    u := DcDiff(hs[c.dcTbl[ci]], s).value.1;
  }

  /** The bit at al completes the value that an earlier scan left. */
  lemma RefineDc(v: Coef, al: nat)
    requires al <= 13
    ensures RefinedDc(v, TruncDc(v, al + 1), al) == TruncDc(v, al)
  {
    hide Shl, Shr, Pow2;
    TruncSplit(v, al);
    EvenAbove(Shr(v, al + 1), al);
    assert TruncDc(v, al + 1) == Shl(Shr(v, al + 1), al + 1);
    assert TruncDc(v, al) == Shl(Shr(v, al), al);
    assert !BitSet(TruncDc(v, al + 1), al);
  }

  lemma DcRefineUnit(c: Scan, hs: DTables, t: CTables, s: Source, b: Block, h: Block, ci: nat, last: LastDc, dc: int,
                     rest: seq<Item>, end: Ahead) returns (u: Source)
    requires ScanOk(c) && ci < MAX_COMPS_IN_SCAN && c.kind == DcRefine && IsUnitHistory(c, b, h)
    requires Feeds(s, t, UnitItems(c, b, ci, last) + rest, end)
    ensures DecodeUnit(c, hs, s, ci, dc, h) == Done(u, dc, UnitGoal(c, b, h, ci))
    ensures Feeds(u, t, rest, end) && Quiet(s, u)
  {
    hide GetBits, Feeds, Shl, Shr, TruncDc, SetBit;
    var it := Raw(Shr(b[0], c.al), 1);
    ReadRaw(t, s, it, rest, end);
    u := GetBits(s, 1).value.1;
    assert GetBits(s, 1).value.0 == Shr(b[0], c.al) % 2 by { MaskOne(Shr(b[0], c.al)); }
    assert h[0 := h[0]] == h;
  }

  lemma MaskOne(x: int)
    ensures Mask(x, 1) == x % 2
  {
  }

  /** The decoder's predictions follow the encoder's, for the components that it keeps one for. */
  ghost predicate Tracks(c: Scan, last: LastDc, dl: LastDc)
    requires ScanOk(c)
  {
    forall i :: 0 <= i < MAX_COMPS_IN_SCAN && (c.kind == DcFirst || (c.kind == Sequential && c.needed[i])) ==>
      dl[i] == last[i]
  }

  lemma UnitRoundTrip(c: Scan, hs: DTables, t: CTables, s: Source, b: Block, h: Block, ci: nat, last: LastDc, dl: LastDc,
                      rest: seq<Item>, end: Ahead) returns (u: Source, dc: int)
    requires ScanOk(c) && AllLinked(hs, t) && ci < MAX_COMPS_IN_SCAN && c.kind != AcScan
    requires UnitInRange(c, b, ci, last) && IsUnitHistory(c, b, h) && Tracks(c, last, dl)
    requires AllHaveCodes(t, UnitItems(c, b, ci, last)) && Feeds(s, t, UnitItems(c, b, ci, last) + rest, end)
    ensures DecodeUnit(c, hs, s, ci, dl[ci], h) == Done(u, dc, UnitGoal(c, b, h, ci))
    ensures Tracks(c, last[ci := Level(c, b)], dl[ci := dc]) && Feeds(u, t, rest, end) && Quiet(s, u)
  {
    hide Feeds, AllLinked, AllHaveCodes, UnitItems, UnitInRange, DecodeUnit, UnitGoal, Shr;
    match c.kind
    case Sequential =>
      u := SequentialUnit(c, hs, t, s, b, ci, last, dl[ci], rest, end, h);
      dc := if c.needed[ci] then b[0] else dl[ci];
    case DcFirst =>
      u := DcFirstUnit(c, hs, t, s, b, h, ci, last, rest, end);
      dc := Level(c, b);
    case DcRefine =>
      u := DcRefineUnit(c, hs, t, s, b, h, ci, last, dl[ci], rest, end);
      dc := dl[ci];
  }

  /** The decoder's MCU when the blocks below i are decoded. */
  function Partly(c: Scan, mcu: Mcu, h: Mcu, i: nat): Mcu
    requires ScanOk(c) && IsMcu(c, mcu) && IsMcu(c, h)
  {
    seq(|mcu|, j requires 0 <= j < |mcu| => if j < i then UnitGoal(c, mcu[j], h[j], c.membership[j]) else h[j])
  }

  lemma PartlyStep(c: Scan, mcu: Mcu, h: Mcu, i: nat)
    requires ScanOk(c) && IsMcu(c, mcu) && IsMcu(c, h) && i < |mcu|
    ensures Partly(c, mcu, h, i)[i] == h[i]
    ensures Partly(c, mcu, h, i)[i := UnitGoal(c, mcu[i], h[i], c.membership[i])] == Partly(c, mcu, h, i + 1)
  {
    hide UnitGoal;
  }

  lemma {:induction false} UnitsRoundTrip(c: Scan, hs: DTables, t: CTables, s: Source, mcu: Mcu, h: Mcu, i: nat,
                                          last: LastDc, dl: LastDc, rest: seq<Item>, end: Ahead)
    returns (u: Source, dl': LastDc)
    requires ScanOk(c) && AllLinked(hs, t) && c.kind != AcScan && IsMcuHistory(c, mcu, h) && i <= |mcu|
    requires UnitsInRange(c, mcu, i, last) && Tracks(c, last, dl)
    requires AllHaveCodes(t, UnitsItems(c, mcu, i, last)) && Feeds(s, t, UnitsItems(c, mcu, i, last) + rest, end)
    ensures DecodeUnits(c, hs, s, dl, Partly(c, mcu, h, i), i) == UnitsDone(u, dl', McuGoal(c, mcu, h))
    ensures Tracks(c, LastAfter(c, mcu, i, last), dl') && Feeds(u, t, rest, end) && Quiet(s, u)
    decreases |mcu| - i
  {
    hide Feeds, AllLinked, UnitItems, UnitInRange, DecodeUnit, UnitGoal, Level, IsUnitHistory, Tracks;
    if i == |mcu| {
      assert [] + rest == rest;
      assert Partly(c, mcu, h, i) == McuGoal(c, mcu, h);
      u, dl' := s, dl;
    } else {
      var ci := c.membership[i];
      var x, more := UnitItems(c, mcu[i], ci, last), UnitsItems(c, mcu, i + 1, NextLast(c, mcu, i, last));
      CodesSplit(t, x, more);
      assert x + more + rest == x + (more + rest);
      PartlyStep(c, mcu, h, i);
      var v, dc := UnitRoundTrip(c, hs, t, s, mcu[i], h[i], ci, last, dl, more + rest, end);
      u, dl' := UnitsRoundTrip(c, hs, t, v, mcu, h, i + 1, NextLast(c, mcu, i, last), dl[ci := dc], rest, end);
    }
  }

  lemma {:induction false} McusRoundTrip(c: Scan, hs: DTables, t: CTables, core: Core, mcus: seq<Mcu>, hist: seq<Mcu>,
                                         last: LastDc, rest: seq<Item>, end: Ahead) returns (core': Core)
    requires ScanOk(c) && AllLinked(hs, t) && c.kind != AcScan && AreMcus(c, mcus) && AreMcuHistories(c, mcus, hist)
    requires !core.src.starved && McusInRange(c, mcus, last) && Tracks(c, last, core.last)
    requires AllHaveCodes(t, McusItems(c, mcus, last)) && Feeds(core.src, t, McusItems(c, mcus, last) + rest, end)
    ensures AreMcus(c, hist) && DecodeInterval(c, hs, core, hist) == Some((core', McuGoals(c, mcus, hist)))
    ensures Feeds(core'.src, t, rest, end) && Quiet(core.src, core'.src) && core'.eobrun == core.eobrun
    decreases |mcus|
  {
    hide Feeds, AllLinked, UnitsItems, UnitsInRange, DecodeUnits, Tracks, LastAfter, McuGoal, IsUnitHistory;
    if mcus == [] {
      assert [] + rest == rest;
      assert hist == [] && McuGoals(c, mcus, hist) == [];
      core' := core;
    } else {
      var x, more := UnitsItems(c, mcus[0], 0, last), McusItems(c, mcus[1..], LastAfter(c, mcus[0], 0, last));
      CodesSplit(t, x, more);
      assert x + more + rest == x + (more + rest);
      assert Partly(c, mcus[0], hist[0], 0) == hist[0];
      var u, dl := UnitsRoundTrip(c, hs, t, core.src, mcus[0], hist[0], 0, last, core.last, more + rest, end);
      var core1 := Core(u, dl, core.eobrun);
      assert DecodeMcu(c, hs, core, hist[0]) == McuDone(core1, McuGoal(c, mcus[0], hist[0]));
      core' := McusRoundTrip(c, hs, t, core1, mcus[1..], hist[1..], LastAfter(c, mcus[0], 0, last), rest, end);
      assert [McuGoal(c, mcus[0], hist[0])] + McuGoals(c, mcus[1..], hist[1..]) == McuGoals(c, mcus, hist);
    }
  }

  // ----- AC scans

  lemma {:induction false} BlocksOnward(c: Band, h: HuffTbl, s: Source, e: nat, hist: seq<Block>)
    requires BandOk(c) && DecodeBlocks(c, h, s, e, hist).Some?
    ensures Onward(s, DecodeBlocks(c, h, s, e, hist).value.0)
    decreases |hist|
  {
    hide DecodeBand;
    if hist != [] {
      DecodeBandOnward(c, h, s, e, hist[0]);
      BlocksOnward(c, h, DecodeBand(c, h, s, e, hist[0]).src, DecodeBand(c, h, s, e, hist[0]).eobrun, hist[1..]);
    }
  }

  function OneBlockMcus(bs: seq<Block>): seq<Mcu> {
    seq(|bs|, i requires 0 <= i < |bs| => [bs[i]])
  }

  /** As long as data lasts, the MCUs of an AC scan are its blocks. */
  lemma {:induction false} IntervalOfBlocks(c: Scan, hs: DTables, core: Core, hist: seq<Mcu>)
    requires ScanOk(c) && c.kind == AcScan && AreMcus(c, hist)
    requires DecodeBlocks(c.band, hs[4 + c.band.tbl], core.src, core.eobrun, FirstBlocks(hist)).Some?
    requires !DecodeBlocks(c.band, hs[4 + c.band.tbl], core.src, core.eobrun, FirstBlocks(hist)).value.0.starved
    ensures var (u, e, bs) := DecodeBlocks(c.band, hs[4 + c.band.tbl], core.src, core.eobrun, FirstBlocks(hist)).value;
      DecodeInterval(c, hs, core, hist) == Some((Core(u, core.last, e), OneBlockMcus(bs)))
    decreases |hist|
  {
    hide DecodeBand;
    var H := hs[4 + c.band.tbl];
    BlocksOnward(c.band, H, core.src, core.eobrun, FirstBlocks(hist));
    if hist != [] {
      var d := DecodeBand(c.band, H, core.src, core.eobrun, hist[0][0]);
      assert FirstBlocks(hist)[0] == hist[0][0] && FirstBlocks(hist)[1..] == FirstBlocks(hist[1..]);
      assert hist[0] == [hist[0][0]];
      var core1 := Core(d.src, core.last, d.eobrun);
      IntervalOfBlocks(c, hs, core1, hist[1..]);
      var bs := DecodeBlocks(c.band, H, d.src, d.eobrun, FirstBlocks(hist[1..])).value.2;
      assert [[d.block]] + OneBlockMcus(bs) == OneBlockMcus([d.block] + bs);
    }
  }

  lemma {:induction false} GoalsAt(c: Band, bs: seq<Block>, hs: seq<Block>, i: nat)
    requires |bs| == |hs| && i < |bs|
    ensures |Goals(c, bs, hs)| == |bs| && Goals(c, bs, hs)[i] == Goal(c, bs[i], hs[i], c.se + 1)
    decreases |bs|
  {
    hide Goal;
    if |bs| > 1 {
      GoalsAt(c, bs[1..], hs[1..], if i == 0 then 0 else i - 1);
    }
  }

  lemma AcGoals(c: Scan, mcus: seq<Mcu>, hist: seq<Mcu>)
    requires ScanOk(c) && c.kind == AcScan && AreMcus(c, mcus) && AreMcus(c, hist) && |mcus| == |hist|
    ensures OneBlockMcus(Goals(c.band, FirstBlocks(mcus), FirstBlocks(hist))) == McuGoals(c, mcus, hist)
  {
    hide Goal, Goals;
    var g := Goals(c.band, FirstBlocks(mcus), FirstBlocks(hist));
    if mcus == [] {
      NoGoals(c.band);
      assert FirstBlocks(mcus) == [] && FirstBlocks(hist) == [];
    } else {
      GoalsAt(c.band, FirstBlocks(mcus), FirstBlocks(hist), 0);
    }
    assert |g| == |mcus|;
    forall i | 0 <= i < |mcus|
      ensures |g| == |mcus| && [g[i]] == McuGoal(c, mcus[i], hist[i])
    {
      GoalsAt(c.band, FirstBlocks(mcus), FirstBlocks(hist), i);
    }
  }

  /**
   F.1.2 and F.2.2, G.1.2 of T.81: the MCUs of a restart interval, whatever the kind of scan.  All data is consumed,
   nothing is warned about and insufficient_data is not set.
   */
  lemma IntervalRoundTrip(c: Scan, hs: DTables, t: CTables, src: Source, mcus: seq<Mcu>, hist: seq<Mcu>,
                          rest: seq<Item>, end: Ahead) returns (core': Core)
    requires ScanOk(c) && AllLinked(hs, t) && AreMcus(c, mcus) && AreMcuHistories(c, mcus, hist)
    requires !src.starved && IntervalInRange(c, mcus)
    requires AllHaveCodes(t, IntervalItems(c, mcus)) && Feeds(src, t, IntervalItems(c, mcus) + rest, end)
    ensures AreMcus(c, hist) && DecodeInterval(c, hs, Core(src, NO_DC, 0), hist) == Some((core', McuGoals(c, mcus, hist)))
    ensures Feeds(core'.src, t, rest, end) && Quiet(src, core'.src) && core'.eobrun == 0
  {
    hide Feeds, AllLinked, McusItems, SegItems, McusInRange, InRange, DecodeInterval, DecodeBlocks, McuGoals, IsHistory;
    if c.kind == AcScan {
      assert AreHistories(c.band, FirstBlocks(mcus), FirstBlocks(hist)) by {
        forall i | 0 <= i < |mcus|
          ensures IsHistory(c.band, FirstBlocks(mcus)[i], FirstBlocks(hist)[i])
        {
          assert IsMcuHistory(c, mcus[i], hist[i]);
          assert IsUnitHistory(c, mcus[i][0], hist[i][0]);
        }
      }
      assert AreMcus(c, hist) by {
        forall i | 0 <= i < |hist| ensures IsMcu(c, hist[i]) { assert IsMcuHistory(c, mcus[i], hist[i]); }
      }
      var u := BandRoundTrip(c.band, hs, t, src, FirstBlocks(mcus), FirstBlocks(hist), rest, end);
      IntervalOfBlocks(c, hs, Core(src, NO_DC, 0), hist);
      AcGoals(c, mcus, hist);
      core' := Core(u, NO_DC, 0);
    } else {
      core' := McusRoundTrip(c, hs, t, Core(src, NO_DC, 0), mcus, hist, NO_DC, rest, end);
    }
  }
}
