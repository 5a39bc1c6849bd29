/**
 What the encoders have emitted when some MCUs of a restart interval are coded, and what the segments that they have
 written amount to: the specification of module ScanRoundTrip, built up from the front instead of taken apart.
 */
module EncoderSpec {
  import opened Bits
  import opened Wrappers
  import opened HuffmanTables
  import opened BitPacking
  import opened Symbols
  import opened Coefficients
  import opened SequentialCodec
  import opened AcBand
  import opened AcSegment
  import opened AcRoundTrip
  import opened McuCodec
  import opened ScanRoundTrip

  // ----- AC scans

  /** What is emitted for the blocks bs, and what is pending behind them. */
  function Runs(c: Band, bs: seq<Block>, p: Pending): (seq<Item>, Pending)
    requires BandOk(c)
  {
    if bs == [] then ([], p)
    else
      var (x, p1) := EncodeBlock(c, bs[0], p);
      var (y, p2) := Runs(c, bs[1..], p1);
      (x + y, p2)
  }

  lemma {:induction false} RunsSnoc(c: Band, bs: seq<Block>, b: Block, p: Pending)
    requires BandOk(c)
    ensures var (x, p1) := Runs(c, bs, p);
      var (y, p2) := EncodeBlock(c, b, p1);
      Runs(c, bs + [b], p) == (x + y, p2)
  {
    hide EncodeBlock;
    if bs == [] {
      assert [b][1..] == [] && [] + [b] == [b];
      var (y, p2) := EncodeBlock(c, b, p);
      assert y + [] == [] + y;
    } else {
      assert (bs + [b])[1..] == bs[1..] + [b];
      var (x, p1) := EncodeBlock(c, bs[0], p);
      RunsSnoc(c, bs[1..], b, p1);
      var (y, p2) := Runs(c, bs[1..], p1);
      var z := EncodeBlock(c, b, p2).0;
      assert x + (y + z) == x + y + z;
    }
  }

  lemma {:induction false} SegItemsAreRuns(c: Band, bs: seq<Block>, p: Pending)
    requires BandOk(c)
    ensures SegItems(c, bs, p) == Runs(c, bs, p).0 + Flush(c.tbl, Runs(c, bs, p).1.n, Runs(c, bs, p).1.be)
  {
    hide EncodeBlock, Flush;
    if bs == [] {
      assert [] + Flush(c.tbl, p.n, p.be) == Flush(c.tbl, p.n, p.be);
    } else {
      var (x, p1) := EncodeBlock(c, bs[0], p);
      SegItemsAreRuns(c, bs[1..], p1);
      var (y, p2) := Runs(c, bs[1..], p1);
      assert x + (y + Flush(c.tbl, p2.n, p2.be)) == x + y + Flush(c.tbl, p2.n, p2.be);
    }
  }

  // ----- The other scans

  function McusLast(c: Scan, mcus: seq<Mcu>, last: LastDc): LastDc
    requires ScanOk(c) && AreMcus(c, mcus)
  {
    if mcus == [] then last else McusLast(c, mcus[1..], LastAfter(c, mcus[0], 0, last))
  }

  lemma {:induction false} McusSnoc(c: Scan, mcus: seq<Mcu>, m: Mcu, last: LastDc)
    requires ScanOk(c) && AreMcus(c, mcus) && IsMcu(c, m)
    ensures AreMcus(c, mcus + [m])
    ensures McusItems(c, mcus + [m], last) == McusItems(c, mcus, last) + UnitsItems(c, m, 0, McusLast(c, mcus, last))
    ensures McusLast(c, mcus + [m], last) == LastAfter(c, m, 0, McusLast(c, mcus, last))
    ensures McusInRange(c, mcus + [m], last)
       <==> McusInRange(c, mcus, last) && UnitsInRange(c, m, 0, McusLast(c, mcus, last))
  {
    hide UnitsItems, LastAfter, UnitsInRange, IsMcu;
    JoinMcus(c, mcus, [m]);
    if mcus == [] {
      assert [m][1..] == [] && [] + [m] == [m];
      assert UnitsItems(c, m, 0, last) + [] == [] + UnitsItems(c, m, 0, last);
    } else {
      assert (mcus + [m])[1..] == mcus[1..] + [m];
      var last1 := LastAfter(c, mcus[0], 0, last);
      McusSnoc(c, mcus[1..], m, last1);
      var x, y, z := UnitsItems(c, mcus[0], 0, last), McusItems(c, mcus[1..], last1),
                     UnitsItems(c, m, 0, McusLast(c, mcus[1..], last1));
      assert x + (y + z) == x + y + z;
    }
  }

  // ----- A restart interval in progress

  function PendOf(c: Scan, cur: seq<Mcu>): Pending
    requires ScanOk(c) && AreMcus(c, cur)
  {
    if c.kind == AcScan then Runs(c.band, FirstBlocks(cur), Pending(0, [])).1 else Pending(0, [])
  }

  function LastOf(c: Scan, cur: seq<Mcu>): LastDc
    requires ScanOk(c) && AreMcus(c, cur)
  {
    if c.kind == AcScan then NO_DC else McusLast(c, cur, NO_DC)
  }

  function PartialItems(c: Scan, cur: seq<Mcu>): seq<Item>
    requires ScanOk(c) && AreMcus(c, cur)
  {
    if c.kind == AcScan then Runs(c.band, FirstBlocks(cur), Pending(0, [])).0 else McusItems(c, cur, NO_DC)
  }

  /** What is still to be emitted when the interval ends. */
  function ClosingItems(c: Scan, cur: seq<Mcu>): seq<Item>
    requires ScanOk(c) && AreMcus(c, cur)
  {
    Flush(c.band.tbl, PendOf(c, cur).n, PendOf(c, cur).be)
  }

  lemma IntervalIsPartial(c: Scan, cur: seq<Mcu>)
    requires ScanOk(c) && AreMcus(c, cur)
    ensures IntervalItems(c, cur) == PartialItems(c, cur) + ClosingItems(c, cur)
  {
    hide McusItems, SegItems, Runs;
    if c.kind == AcScan {
      SegItemsAreRuns(c.band, FirstBlocks(cur), Pending(0, []));
    } else {
      assert McusItems(c, cur, NO_DC) + [] == McusItems(c, cur, NO_DC);
    }
  }

  /** What one more MCU adds, and the state of the coder behind it. */
  function McuItems(c: Scan, cur: seq<Mcu>, m: Mcu): seq<Item>
    requires ScanOk(c) && AreMcus(c, cur) && IsMcu(c, m)
  {
    if c.kind == AcScan then EncodeBlock(c.band, m[0], PendOf(c, cur)).0 else UnitsItems(c, m, 0, LastOf(c, cur))
  }

  predicate McuInRange(c: Scan, cur: seq<Mcu>, m: Mcu)
    requires ScanOk(c) && AreMcus(c, cur) && IsMcu(c, m)
  {
    if c.kind == AcScan then InRange(c.band, m[0]) else UnitsInRange(c, m, 0, LastOf(c, cur))
  }

  lemma OneMore(c: Scan, cur: seq<Mcu>, m: Mcu)
    requires ScanOk(c) && AreMcus(c, cur) && IsMcu(c, m)
    ensures AreMcus(c, cur + [m]) && PartialItems(c, cur + [m]) == PartialItems(c, cur) + McuItems(c, cur, m)
    ensures c.kind != AcScan ==> LastOf(c, cur + [m]) == LastAfter(c, m, 0, LastOf(c, cur))
    ensures PendOf(c, cur + [m]) == if c.kind == AcScan then EncodeBlock(c.band, m[0], PendOf(c, cur)).1 else Pending(0, [])
  {
    hide McusItems, McusLast, Runs, EncodeBlock, UnitsItems, LastAfter;
    McusSnoc(c, cur, m, NO_DC);
    if c.kind == AcScan {
      RunsSnoc(c.band, FirstBlocks(cur), m[0], Pending(0, []));
      assert FirstBlocks(cur + [m]) == FirstBlocks(cur) + [m[0]];
    }
  }

  lemma NoneYet(c: Scan)
    requires ScanOk(c)
    ensures PartialItems(c, []) == [] && PendOf(c, []) == Pending(0, []) && LastOf(c, []) == NO_DC
  {
    assert FirstBlocks([]) == [];
  }

  // ----- Closed segments

  predicate AreSegments(c: Scan, interval: nat, segs: seq<seq<Mcu>>) {
    forall i :: 0 <= i < |segs| ==> AreMcus(c, segs[i]) && |segs[i]| == interval
  }

  function ClosedSegs(c: Scan, segs: seq<seq<Mcu>>, num: nat): seq<Closed>
    requires ScanOk(c) && forall i :: 0 <= i < |segs| ==> AreMcus(c, segs[i])
  {
    seq(|segs|, i requires 0 <= i < |segs| => Closed(IntervalItems(c, segs[i]), (num + i) % 8))
  }

  lemma {:induction false} ClosedBytesConcat(t: CTables, a: seq<Closed>, b: seq<Closed>)
    ensures ClosedBytes(t, a + b) == ClosedBytes(t, a) + ClosedBytes(t, b)
    ensures AllItems(a + b) == AllItems(a) + AllItems(b)
  {
    hide SegmentBytes, ItemsBits, RstCode;
    if b == [] {
      assert a + b == a;
    } else {
      var n := |b| - 1;
      ClosedBytesConcat(t, a, b[..n]);
      assert a + b == (a + b[..n]) + [b[n]] && b == b[..n] + [b[n]];
      CloseOne(t, a + b[..n], b[n]);
      CloseOne(t, b[..n], b[n]);
    }
  }

  function ScanItems(c: Scan, interval: nat, mcus: seq<Mcu>): seq<Item>
    requires ScanOk(c) && AreMcus(c, mcus)
    decreases |mcus|
  {
    if OneSegment(interval, mcus) then IntervalItems(c, mcus)
    else IntervalItems(c, mcus[..interval]) + ScanItems(c, interval, mcus[interval..])
  }

  lemma FlatMcus(c: Scan, interval: nat, segs: seq<seq<Mcu>>)
    requires AreSegments(c, interval, segs)
    ensures AreMcus(c, Concat(segs))
    ensures |Concat(segs)| == |segs| * interval
  {
    if segs != [] {
      assert segs[0] in segs;
      FlatMcus(c, interval, segs[1..]);
      JoinMcus(c, segs[0], Concat(segs[1..]));
      assert |segs| * interval == interval + (|segs| - 1) * interval;
    }
  }

  lemma RstSame(num: nat)
    ensures RstCode(num % 8) == RstCode(num)
  {
  }

  lemma OneClosed(t: CTables, x: Closed)
    ensures ClosedBytes(t, [x]) == SegmentBytes(ItemsBits(t, x.items)) + [0xFF, RstCode(x.num)]
    ensures AllItems([x]) == x.items
  {
    hide SegmentBytes, ItemsBits, RstCode;
    CloseOne(t, [], x);
    assert [] + [x] == [x];
    assert [] + SegmentBytes(ItemsBits(t, x.items)) == SegmentBytes(ItemsBits(t, x.items)) && [] + x.items == x.items;
  }

  /** A scan of which the first interval is complete. */
  lemma ScanUnfold(c: Scan, t: CTables, interval: nat, s0: seq<Mcu>, more: seq<Mcu>, num: nat)
    requires ScanOk(c) && AreMcus(c, s0) && AreMcus(c, more) && |s0| == interval > 0 && more != []
    ensures AreMcus(c, s0 + more)
    ensures ScanBytes(c, t, interval, s0 + more, num)
         == SegmentBytes(ItemsBits(t, IntervalItems(c, s0))) + [0xFF, RstCode(num)] + ScanBytes(c, t, interval, more, num + 1)
    ensures ScanItems(c, interval, s0 + more) == IntervalItems(c, s0) + ScanItems(c, interval, more)
  {
    hide SegmentBytes, ItemsBits, IntervalItems, RstCode, IsMcu;
    JoinMcus(c, s0, more);
    assert (s0 + more)[..interval] == s0 && (s0 + more)[interval..] == more;
  }

  lemma ScanOfOne(c: Scan, t: CTables, interval: nat, cur: seq<Mcu>, num: nat)
    requires ScanOk(c) && AreMcus(c, cur) && OneSegment(interval, cur)
    ensures ScanBytes(c, t, interval, cur, num) == [] + SegmentBytes(ItemsBits(t, IntervalItems(c, cur)))
    ensures ScanItems(c, interval, cur) == [] + IntervalItems(c, cur)
  {
    hide SegmentBytes, ItemsBits, IntervalItems, IsMcu;
  }

  lemma ClosedFirst(t: CTables, x: Closed, xs: seq<Closed>)
    ensures ClosedBytes(t, [x] + xs) == SegmentBytes(ItemsBits(t, x.items)) + [0xFF, RstCode(x.num)] + ClosedBytes(t, xs)
    ensures AllItems([x] + xs) == x.items + AllItems(xs)
  {
    hide SegmentBytes, ItemsBits, RstCode, ClosedBytes, AllItems;
    ClosedBytesConcat(t, [x], xs);
    OneClosed(t, x);
  }

  lemma NoneClosed(c: Scan, t: CTables, num: nat)
    requires ScanOk(c)
    ensures ClosedBytes(t, ClosedSegs(c, [], num)) == [] && AllItems(ClosedSegs(c, [], num)) == []
  {
  }

  /** What has been written is the scan of all MCUs so far, if its last segment is completed now. */
  lemma {:induction false} SegmentsAreScan(c: Scan, t: CTables, interval: nat, segs: seq<seq<Mcu>>, cur: seq<Mcu>, num: nat)
    requires ScanOk(c) && AreSegments(c, interval, segs) && AreMcus(c, cur) && OneSegment(interval, cur)
    requires segs != [] ==> cur != [] && interval != 0
    ensures AreMcus(c, Concat(segs) + cur)
    ensures ScanBytes(c, t, interval, Concat(segs) + cur, num)
         == ClosedBytes(t, ClosedSegs(c, segs, num)) + SegmentBytes(ItemsBits(t, IntervalItems(c, cur)))
    ensures ScanItems(c, interval, Concat(segs) + cur) == AllItems(ClosedSegs(c, segs, num)) + IntervalItems(c, cur)
    decreases |segs|
  {
    hide SegmentBytes, ItemsBits, IntervalItems, RstCode, IsMcu, ScanBytes, ScanItems, ClosedBytes, AllItems;
    FlatMcus(c, interval, segs);
    JoinMcus(c, Concat(segs), cur);
    if segs == [] {
      assert Concat(segs) + cur == cur;
      ScanOfOne(c, t, interval, cur, num);
      NoneClosed(c, t, num);
    } else {
      var s0, rest := segs[0], segs[1..];
      SegmentsAreScan(c, t, interval, rest, cur, num + 1);
      assert Concat(segs) + cur == s0 + (Concat(rest) + cur);
      ScanUnfold(c, t, interval, s0, Concat(rest) + cur, num);
      var x, xs := Closed(IntervalItems(c, s0), num % 8), ClosedSegs(c, rest, num + 1);
      assert ClosedSegs(c, segs, num) == [x] + xs;
      ClosedFirst(t, x, xs);
      RstSame(num);
      var first := SegmentBytes(ItemsBits(t, x.items)) + [0xFF, RstCode(num)];
      var tail := SegmentBytes(ItemsBits(t, IntervalItems(c, cur)));
      assert first + (ClosedBytes(t, xs) + tail) == first + ClosedBytes(t, xs) + tail;
      assert x.items + (AllItems(xs) + IntervalItems(c, cur)) == x.items + AllItems(xs) + IntervalItems(c, cur);
    }
  }
}
