/**
 The round trip of a whole scan with restart markers, for every kind of scan; and what the decoder makes of a scan in
 which one or two restart markers are lost together with the segments behind them.
 */
module ScanRoundTrip {
  import opened Bits
  import opened Wrappers
  import opened HuffmanTables
  import opened BitSource
  import opened Symbols
  import opened Feeding
  import opened BitPacking
  import opened Coefficients
  import opened AcBand
  import opened McuCodec
  import opened McuRoundTrip
  import opened Suspension
  import opened RestartMarkers
  import opened ScanCodec

  // ----- The bytes of a scan

  predicate OneSegment(interval: nat, mcus: seq<Mcu>) {
    interval == 0 || |mcus| <= interval
  }

  function IntervalBytes(c: Scan, t: CTables, mcus: seq<Mcu>): seq<byte>
    requires ScanOk(c) && AreMcus(c, mcus)
  {
    SegmentBytes(ItemsBits(t, IntervalItems(c, mcus)))
  }

  /** Segments of `interval` MCUs, each but the last followed by a restart marker; the first of these has number num. */
  function ScanBytes(c: Scan, t: CTables, interval: nat, mcus: seq<Mcu>, num: nat): seq<byte>
    requires ScanOk(c) && AreMcus(c, mcus)
    decreases |mcus|
  {
    if OneSegment(interval, mcus) then IntervalBytes(c, t, mcus)
    else
      IntervalBytes(c, t, mcus[..interval]) + [0xFF, RstCode(num)] + ScanBytes(c, t, interval, mcus[interval..], num + 1)
  }

  function Segments(interval: nat, n: nat): (k: nat)
    ensures k >= 1
  {
    if interval == 0 || n <= interval then 1 else 1 + Segments(interval, n - interval)
  }

  /** n MCUs fill their last segment. */
  predicate Whole(interval: nat, n: nat) {
    if interval == 0 || n <= interval then n == interval else Whole(interval, n - interval)
  }

  /** Every symbol that the encoder emits has a code, and every coefficient is in range. */
  ghost predicate Encodable(c: Scan, t: CTables, interval: nat, mcus: seq<Mcu>)
    requires ScanOk(c) && AreMcus(c, mcus)
    decreases |mcus|
  {
    if OneSegment(interval, mcus) then IntervalInRange(c, mcus) && AllHaveCodes(t, IntervalItems(c, mcus))
    else
      && IntervalInRange(c, mcus[..interval]) && AllHaveCodes(t, IntervalItems(c, mcus[..interval]))
      && Encodable(c, t, interval, mcus[interval..])
  }

  // ----- Steps of the decoder

  lemma PrependAll(a: seq<Mcu>, b: seq<Mcu>, r: Option<(State, seq<Mcu>)>)
    ensures PrependMcus(a, PrependMcus(b, r)) == PrependMcus(a + b, r)
    ensures PrependMcus([], r) == r
  {
    match r
    case None =>
    case Some((st, more)) =>
      assert a + (b + more) == (a + b) + more;
      assert [] + more == more;
  }

  lemma JoinMcus(c: Scan, a: seq<Mcu>, b: seq<Mcu>)
    requires AreMcus(c, a) && AreMcus(c, b)
    ensures AreMcus(c, a + b)
  {
  }

  function CountDownBy(interval: nat, togo: nat, n: nat): nat
    requires interval == 0 || n <= togo
  {
    if interval == 0 then 0 else togo - n
  }

  /** st and st' agree, but for restarts_to_go if no restarts are used. */
  ghost predicate SameButTogo(interval: nat, st: State, st': State) {
    st' == st.(togo := st'.togo) && (interval != 0 ==> st'.togo == st.togo)
  }

  /** Within a restart interval, a step decodes one MCU. */
  lemma StepWithin(c: Scan, hs: DTables, interval: nat, st: State, mcu: Mcu)
    requires ScanOk(c) && IsMcu(c, mcu) && (interval == 0 || 0 < st.togo) && DecodeMcu(c, hs, st.core, mcu).McuDone?
    ensures var d := DecodeMcu(c, hs, st.core, mcu);
      Step(c, hs, interval, st, mcu) == Stepped(st.(core := d.core, togo := CountDown(st.togo)), d.mcu)
  {
    hide DecodeMcu, ProcessRestart;
  }

  lemma {:induction false} StepsOfInterval(c: Scan, hs: DTables, interval: nat, st: State, mcus: seq<Mcu>, tail: seq<Mcu>)
    returns (st': State)
    requires ScanOk(c) && AreMcus(c, mcus) && AreMcus(c, tail) && (interval == 0 || |mcus| <= st.togo)
    requires DecodeInterval(c, hs, st.core, mcus).Some?
    ensures var (core', out) := DecodeInterval(c, hs, st.core, mcus).value;
      && AreMcus(c, mcus + tail)
      && DecodeScan(c, hs, interval, st, mcus + tail) == PrependMcus(out, DecodeScan(c, hs, interval, st', tail))
      && SameButTogo(interval, st.(core := core', togo := CountDownBy(interval, st.togo, |mcus|)), st')
    decreases |mcus|
  {
    hide DecodeMcu, Step, IsMcu;
    JoinMcus(c, mcus, tail);
    if mcus == [] {
      assert mcus + tail == tail;
      PrependAll([], [], DecodeScan(c, hs, interval, st, tail));
      st' := st;
    } else {
      StepWithin(c, hs, interval, st, mcus[0]);
      var d := DecodeMcu(c, hs, st.core, mcus[0]);
      assert (mcus + tail)[1..] == mcus[1..] + tail;
      var st1 := st.(core := d.core, togo := CountDown(st.togo));
      st' := StepsOfInterval(c, hs, interval, st1, mcus[1..], tail);
      PrependAll([d.mcu], DecodeInterval(c, hs, d.core, mcus[1..]).value.1, DecodeScan(c, hs, interval, st', tail));
    }
  }

  /** A due restart that succeeds leaves the state from which the next MCU is decoded. */
  lemma AfterRestart(c: Scan, hs: DTables, interval: nat, st: State, mcus: seq<Mcu>)
    requires ScanOk(c) && AreMcus(c, mcus) && mcus != [] && Restart(interval, st).0
    ensures DecodeScan(c, hs, interval, st, mcus) == DecodeScan(c, hs, interval, Restart(interval, st).1, mcus)
  {
    hide DecodeMcu, Restart;
    NoRestartTwice(interval, st);
  }

  // ----- Whole segments

  /** The decoder stands at the start of a segment, with nothing read of it. */
  predicate Fresh(interval: nat, st: State, num: nat) {
    && st.core == Core(st.core.src, NO_DC, 0) && st.core.src.buf == [] && st.core.src.marker == 0 && !st.core.src.starved
    && st.nextNum == num % 8 && (interval != 0 ==> st.togo == interval)
  }

  /** The decoder has read the data of a segment; its marker m is still ahead. */
  ghost predicate AtEnd(st: State, m: byte, more: seq<byte>) {
    && Lookahead(st.core.src).Some? && !st.core.src.starved
    && var a := Lookahead(st.core.src).value; |a.bits| < 8 && a.marker == m && a.more == more
  }

  /** Nothing was warned about, if nothing had been discarded before. */
  predicate Silent(st: State, st': State) {
    st.discarded == 0 ==> st'.discarded == 0 && st'.core.src.warnings == st.core.src.warnings
  }

  lemma SegmentFeeds(src: Source, t: CTables, items: seq<Item>, m: byte, more: seq<byte>) returns (end: Ahead)
    requires m != 0 && m != 0xFF && src.buf == [] && src.marker == 0
    requires src.rest == SegmentBytes(ItemsBits(t, items)) + [0xFF, m] + more
    ensures Feeds(src, t, items + [], end) && |end.bits| < 8 && end.marker == m && end.more == more
  {
    var b := ItemsBits(t, items);
    ParseSegment(b, m, more);
    end := Ahead(Const(true, PadLength(|b| % 8)), m, more);
    assert items + [] == items;
    assert [] + Padded(b) == b + end.bits;
  }

  lemma OneSegmentDecodes(c: Scan, hs: DTables, t: CTables, interval: nat, st: State, mcus: seq<Mcu>, hist: seq<Mcu>,
                          num: nat, m: byte, more: seq<byte>, tail: seq<Mcu>) returns (st': State)
    requires ScanOk(c) && AllLinked(hs, t) && AreMcus(c, mcus) && AreMcuHistories(c, mcus, hist) && AreMcus(c, tail)
    requires OneSegment(interval, mcus) && Encodable(c, t, interval, mcus) && Fresh(interval, st, num)
    requires m != 0 && m != 0xFF && st.core.src.rest == IntervalBytes(c, t, mcus) + [0xFF, m] + more
    ensures AreMcus(c, hist) && AreMcus(c, hist + tail) && AtEnd(st', m, more) && Silent(st, st')
    ensures DecodeScan(c, hs, interval, st, hist + tail)
         == PrependMcus(McuGoals(c, mcus, hist), DecodeScan(c, hs, interval, st', tail))
    ensures st'.nextNum == st.nextNum && (interval != 0 ==> st'.togo == interval - |mcus|)
  {
    hide AllLinked, IntervalItems, IntervalInRange, DecodeInterval, DecodeScan, McuGoals, Padded, Pack, Stuff, IsMcuHistory,
         Lookahead;
    var items := IntervalItems(c, mcus);
    var end := SegmentFeeds(st.core.src, t, items, m, more);
    var core' := IntervalRoundTrip(c, hs, t, st.core.src, mcus, hist, [], end);
    AllRead(core'.src, t, end);
    st' := StepsOfInterval(c, hs, interval, st, hist, tail);
  }

  lemma AllRead(src: Source, t: CTables, end: Ahead)
    requires Feeds(src, t, [], end)
    ensures Lookahead(src) == Some(end)
  {
    assert [] + end.bits == end.bits;
  }

  /** The expected marker is read and the next segment begins. */
  lemma NextSegment(interval: nat, st: State, num: nat, more: seq<byte>)
    requires interval != 0 && st.togo == 0 && st.nextNum == num % 8 && AtEnd(st, RstCode(num), more)
    ensures Restart(interval, st).0 && Fresh(interval, Restart(interval, st).1, num + 1)
    ensures Restart(interval, st).1.core.src.rest == more && Silent(st, Restart(interval, st).1)
  {
    hide Lookahead, ProcessRestart;
    RestartExpected(ReaderOf(st), Lookahead(st.core.src).value);
  }

  lemma HistoriesSplit(c: Scan, mcus: seq<Mcu>, hist: seq<Mcu>, n: nat)
    requires ScanOk(c) && AreMcus(c, mcus) && AreMcuHistories(c, mcus, hist) && n <= |mcus|
    ensures AreMcus(c, hist) && AreMcus(c, mcus[..n]) && AreMcus(c, mcus[n..])
    ensures AreMcuHistories(c, mcus[..n], hist[..n]) && AreMcuHistories(c, mcus[n..], hist[n..])
    ensures McuGoals(c, mcus, hist) == McuGoals(c, mcus[..n], hist[..n]) + McuGoals(c, mcus[n..], hist[n..])
  {
    hide McuGoal, IsUnitHistory;
    forall i | 0 <= i < |hist| ensures IsMcu(c, hist[i]) { assert IsMcuHistory(c, mcus[i], hist[i]); }
  }

  lemma BytesSplit(a: seq<byte>, r: seq<byte>, b: seq<byte>, e: seq<byte>, more: seq<byte>)
    ensures (a + r + b) + e + more == a + r + (b + e + more)
  {
  }

  /** All segments that ScanBytes writes, up to the marker m behind them. */
  lemma {:induction false} SegmentsDecode(c: Scan, hs: DTables, t: CTables, interval: nat, st: State, mcus: seq<Mcu>,
                                          hist: seq<Mcu>, num: nat, m: byte, more: seq<byte>, tail: seq<Mcu>)
    returns (st': State)
    requires ScanOk(c) && AllLinked(hs, t) && AreMcus(c, mcus) && AreMcuHistories(c, mcus, hist) && AreMcus(c, tail)
    requires Encodable(c, t, interval, mcus) && Fresh(interval, st, num)
    requires m != 0 && m != 0xFF && st.core.src.rest == ScanBytes(c, t, interval, mcus, num) + [0xFF, m] + more
    ensures AreMcus(c, hist) && AreMcus(c, hist + tail) && AtEnd(st', m, more) && Silent(st, st')
    ensures DecodeScan(c, hs, interval, st, hist + tail)
         == PrependMcus(McuGoals(c, mcus, hist), DecodeScan(c, hs, interval, st', tail))
    ensures st'.nextNum == (num + Segments(interval, |mcus|) - 1) % 8
    ensures interval != 0 && Whole(interval, |mcus|) ==> st'.togo == 0
    decreases |mcus|
  {
    hide AllLinked, IntervalBytes, IntervalInRange, IntervalItems, DecodeScan, AtEnd, McuGoals, AreMcuHistories, Restart, RstCode;
    if OneSegment(interval, mcus) {
      st' := OneSegmentDecodes(c, hs, t, interval, st, mcus, hist, num, m, more, tail);
    } else {
      HistoriesSplit(c, mcus, hist, interval);
      SameLength(c, mcus, hist);
      var first, rest := mcus[..interval], mcus[interval..];
      var bytes := ScanBytes(c, t, interval, rest, num + 1) + [0xFF, m] + more;
      BytesSplit(IntervalBytes(c, t, first), [0xFF, RstCode(num)], ScanBytes(c, t, interval, rest, num + 1), [0xFF, m], more);
      JoinMcus(c, hist[interval..], tail);
      RstIsMarker(num);
      var st1 := OneSegmentDecodes(c, hs, t, interval, st, first, hist[..interval], num, RstCode(num), bytes,
                                   hist[interval..] + tail);
      NextSegment(interval, st1, num, bytes);
      AfterRestart(c, hs, interval, st1, hist[interval..] + tail);
      var st2 := Restart(interval, st1).1;
      st' := SegmentsDecode(c, hs, t, interval, st2, rest, hist[interval..], num + 1, m, more, tail);
      assert hist[..interval] + (hist[interval..] + tail) == hist + tail;
      PrependAll(McuGoals(c, first, hist[..interval]), McuGoals(c, rest, hist[interval..]),
                 DecodeScan(c, hs, interval, st', tail));
    }
  }

  lemma RstIsMarker(num: nat)
    ensures RstCode(num) != 0 && RstCode(num) != 0xFF
  {
  }

  lemma SameLength(c: Scan, mcus: seq<Mcu>, hist: seq<Mcu>)
    requires ScanOk(c) && AreMcuHistories(c, mcus, hist)
    ensures |mcus| == |hist|
  {
  }

  /**
   The round trip of a scan: the stuffed and padded segments with their restart markers are decoded to the same
   coefficients as far as the scan determines them, without a warning and without setting insufficient_data; the
   decoder ends in front of the marker behind the scan.
   */
  lemma ScanRoundTrip(c: Scan, hs: DTables, t: CTables, interval: nat, st: State, mcus: seq<Mcu>, hist: seq<Mcu>,
                      m: byte, more: seq<byte>) returns (st': State)
    requires ScanOk(c) && AllLinked(hs, t) && AreMcus(c, mcus) && AreMcuHistories(c, mcus, hist)
    requires Encodable(c, t, interval, mcus) && Fresh(interval, st, 0) && st.discarded == 0
    requires m != 0 && m != 0xFF && st.core.src.rest == ScanBytes(c, t, interval, mcus, 0) + [0xFF, m] + more
    ensures AreMcus(c, hist) && DecodeScan(c, hs, interval, st, hist) == Some((st', McuGoals(c, mcus, hist)))
    ensures st'.core.src.warnings == st.core.src.warnings && !st'.core.src.starved && AtEnd(st', m, more)
  {
    hide AllLinked, ScanBytes, Encodable, McuGoals, AreMcuHistories, Lookahead, Step;
    st' := SegmentsDecode(c, hs, t, interval, st, mcus, hist, 0, m, more, []);
    SameLength(c, mcus, hist);
    assert hist + [] == hist;
    assert McuGoals(c, mcus, hist) + [] == McuGoals(c, mcus, hist);
  }

  // ----- Lost restart markers

  /** Left in front of a marker, the decoder makes something up for every MCU, and stays where it is. */
  lemma {:induction false} MadeUp(c: Scan, hs: DTables, interval: nat, st: State, hist: seq<Mcu>, tail: seq<Mcu>)
    returns (st': State, out: seq<Mcu>)
    requires ScanOk(c) && AreMcus(c, hist) && AreMcus(c, tail) && st.core.src.marker != 0 && interval != 0
    requires |hist| <= st.togo
    ensures AreMcus(c, hist + tail) && |out| == |hist| && AreMcus(c, out)
    ensures DecodeScan(c, hs, interval, st, hist + tail) == PrependMcus(out, DecodeScan(c, hs, interval, st', tail))
    ensures st'.core.src.marker == st.core.src.marker && st'.core.src.rest == st.core.src.rest
    ensures st'.nextNum == st.nextNum && st'.togo == st.togo - |hist|
    decreases |hist|
  {
    hide DecodeMcu, Step, IsMcu;
    JoinMcus(c, hist, tail);
    if hist == [] {
      assert hist + tail == tail;
      PrependAll([], [], DecodeScan(c, hs, interval, st, tail));
      st', out := st, [];
    } else {
      DecodeMcuOnward(c, hs, st.core, hist[0]);
      StepWithin(c, hs, interval, st, hist[0]);
      var d := DecodeMcu(c, hs, st.core, hist[0]);
      assert (hist + tail)[1..] == hist[1..] + tail;
      st', out := MadeUp(c, hs, interval, st.(core := d.core, togo := CountDown(st.togo)), hist[1..], tail);
      PrependAll([d.mcu], out, DecodeScan(c, hs, interval, st', tail));
      out := [d.mcu] + out;
    }
  }

  /** At a marker that is one of the next two expected ones, the segment that should follow is taken as empty. */
  lemma EmptySegment(interval: nat, st: State, num: nat, d: nat, more: seq<byte>)
    requires interval != 0 && st.togo == 0 && st.nextNum == num % 8 && 1 <= d <= 2 && AtEnd(st, RstCode(num + d), more)
    ensures Restart(interval, st).0
    ensures var st1 := Restart(interval, st).1;
      st1.core.src.marker == RstCode(num + d) && st1.core.src.rest == more && st1.nextNum == (num + 1) % 8 && st1.togo == interval
  {
    hide Lookahead, ProcessRestart;
    assert RstCode(num + d) == RstCode(st.nextNum + d);
    RestartMissing(ReaderOf(st), Lookahead(st.core.src).value, d);
  }

  lemma StillEmptySegment(interval: nat, st: State, num: nat)
    requires interval != 0 && st.togo == 0 && st.nextNum == num % 8 && st.core.src.marker == RstCode(num + 1)
    ensures Restart(interval, st).0
    ensures var st1 := Restart(interval, st).1;
      st1.core.src.marker == RstCode(num + 1) && st1.core.src.rest == st.core.src.rest && st1.nextNum == (num + 1) % 8
      && st1.togo == interval
  {
    hide ProcessRestart;
    RestartStillMissing(ReaderOf(st));
  }

  lemma SegmentAtLast(interval: nat, st: State, num: nat)
    requires interval != 0 && st.togo == 0 && st.nextNum == num % 8 && st.core.src.marker == RstCode(num)
    ensures Restart(interval, st).0 && Fresh(interval, Restart(interval, st).1, num + 1)
    ensures Restart(interval, st).1.core.src.rest == st.core.src.rest
  {
    hide ProcessRestart;
    RestartAtLast(ReaderOf(st));
  }

  /** d missing segments, from the marker in front of which the decoder was left to the start of the next segment. */
  lemma {:induction false} MissingSegments(c: Scan, hs: DTables, interval: nat, st: State, num: nat, d: nat, hist: seq<Mcu>,
                                           tail: seq<Mcu>, more: seq<byte>) returns (st': State, out: seq<Mcu>)
    requires ScanOk(c) && AreMcus(c, hist) && AreMcus(c, tail) && tail != [] && interval != 0
    requires st.togo == interval && st.nextNum == num % 8 && 1 <= d <= 2 && |hist| == (if d == 1 then interval else 2 * interval)
    requires st.core.src.marker == RstCode(num + d - 1) && st.core.src.rest == more
    ensures AreMcus(c, hist + tail) && |out| == |hist| && AreMcus(c, out)
    ensures DecodeScan(c, hs, interval, st, hist + tail) == PrependMcus(out, DecodeScan(c, hs, interval, st', tail))
    ensures Fresh(interval, st', num + d) && st'.core.src.rest == more
    decreases d
  {
    hide DecodeScan, Restart, RstCode, IsMcu;
    JoinMcus(c, hist, tail);
    RstIsMarker(num + d - 1);
    if d == 1 {
      st', out := MadeUp(c, hs, interval, st, hist, tail);
      SegmentAtLast(interval, st', num);
      AfterRestart(c, hs, interval, st', tail);
      st' := Restart(interval, st').1;
    } else {
      var first, rest := hist[..interval], hist[interval..];
      JoinMcus(c, rest, tail);
      var st1, out1 := MadeUp(c, hs, interval, st, first, rest + tail);
      StillEmptySegment(interval, st1, num);
      AfterRestart(c, hs, interval, st1, rest + tail);
      st', out := MissingSegments(c, hs, interval, Restart(interval, st1).1, num + 1, 1, rest, tail, more);
      assert first + (rest + tail) == hist + tail;
      PrependAll(out1, out, DecodeScan(c, hs, interval, st', tail));
      JoinMcus(c, out1, out);
      out := out1 + out;
    }
  }

  /** The bytes of a, and behind the marker in front of e those of e: both are decoded, with d segments made up between. */
  lemma LostSegments(c: Scan, hs: DTables, t: CTables, interval: nat, st: State, a: seq<Mcu>, ha: seq<Mcu>, hb: seq<Mcu>,
                     e: seq<Mcu>, he: seq<Mcu>, k: nat, d: nat, m: byte, more: seq<byte>)
    returns (st': State, lost: seq<Mcu>)
    requires ScanOk(c) && AllLinked(hs, t) && interval > 0 && Fresh(interval, st, 0)
    requires AreMcus(c, a) && AreMcuHistories(c, a, ha) && Encodable(c, t, interval, a)
    requires Whole(interval, |a|) && k == Segments(interval, |a|)
    requires AreMcus(c, hb) && 1 <= d <= 2 && |hb| == (if d == 1 then interval else 2 * interval)
    requires AreMcus(c, e) && AreMcuHistories(c, e, he) && Encodable(c, t, interval, e) && e != []
    requires m != 0 && m != 0xFF
    requires st.core.src.rest
          == ScanBytes(c, t, interval, a, 0) + [0xFF, RstCode(k - 1 + d)]
             + (ScanBytes(c, t, interval, e, k + d) + [0xFF, m] + more)
    ensures AreMcus(c, ha + (hb + he)) && AreMcus(c, ha) && AreMcus(c, he) && |lost| == |hb|
    ensures DecodeScan(c, hs, interval, st, ha + (hb + he))
         == Some((st', McuGoals(c, a, ha) + (lost + McuGoals(c, e, he))))
  {
    hide AllLinked, ScanBytes, Encodable, McuGoals, AreMcuHistories, AtEnd, Step, Restart, RstCode, IsMcu;
    var rest := ScanBytes(c, t, interval, e, k + d) + [0xFF, m] + more;
    HistoriesSplit(c, e, he, 0);
    SameLength(c, e, he);
    JoinMcus(c, hb, he);
    SameLength(c, a, ha);
    RstIsMarker(k - 1 + d);
    var st1 := SegmentsDecode(c, hs, t, interval, st, a, ha, 0, RstCode(k - 1 + d), rest, hb + he);
    EmptySegment(interval, st1, k - 1, d, rest);
    AfterRestart(c, hs, interval, st1, hb + he);
    var st2 := Restart(interval, st1).1;
    assert k - 1 + d == k + d - 1;
    var st3;
    st3, lost := MissingSegments(c, hs, interval, st2, k, d, hb, he, rest);
    st' := SegmentsDecode(c, hs, t, interval, st3, e, he, k + d, m, more, []);
    assert he + [] == he;
    var ga, ge := McuGoals(c, a, ha), McuGoals(c, e, he);
    assert DecodeScan(c, hs, interval, st', []) == Some((st', []));
    PrependAll(lost, ge, DecodeScan(c, hs, interval, st', []));
    PrependAll(ga, lost + ge, DecodeScan(c, hs, interval, st', []));
    assert ga + (lost + ge) + [] == ga + (lost + ge);
  }

  /** The bytes of a + e, for whole segments a, are those of a, a restart marker and those of e. */
  lemma {:induction false} ScanBytesConcat(c: Scan, t: CTables, interval: nat, a: seq<Mcu>, e: seq<Mcu>, k: nat, num: nat)
    requires ScanOk(c) && interval > 0 && Whole(interval, |a|) && k == Segments(interval, |a|) && e != []
    requires AreMcus(c, a) && AreMcus(c, e)
    ensures AreMcus(c, a + e)
    ensures ScanBytes(c, t, interval, a + e, num)
         == ScanBytes(c, t, interval, a, num) + [0xFF, RstCode(num + k - 1)] + ScanBytes(c, t, interval, e, num + k)
    decreases k
  {
    hide IntervalBytes, RstCode, IsMcu;
    JoinMcus(c, a, e);
    if |a| == interval {
      assert (a + e)[..interval] == a && (a + e)[interval..] == e;
    } else {
      assert (a + e)[..interval] == a[..interval] && (a + e)[interval..] == a[interval..] + e;
      ScanBytesConcat(c, t, interval, a[interval..], e, k - 1, num + 1);
      var x, r := IntervalBytes(c, t, a[..interval]), [0xFF, RstCode(num)];
      var y, q, z := ScanBytes(c, t, interval, a[interval..], num + 1), [0xFF, RstCode(num + k - 1)],
                     ScanBytes(c, t, interval, e, num + k);
      assert x + r + (y + q + z) == (x + r + y) + q + z;
    }
  }

  /** What is left of a scan a + b + e when b, one or two whole segments, is lost with the markers in front of them. */
  lemma WithoutPairs(c: Scan, t: CTables, interval: nat, a: seq<Mcu>, b: seq<Mcu>, e: seq<Mcu>, k: nat, d: nat)
    requires ScanOk(c) && interval > 0 && AreMcus(c, a) && AreMcus(c, b) && AreMcus(c, e) && e != []
    requires Whole(interval, |a|) && k == Segments(interval, |a|)
    requires 1 <= d <= 2 && |b| == (if d == 1 then interval else 2 * interval)
    ensures AreMcus(c, a + (b + e))
    ensures var file, cut := ScanBytes(c, t, interval, a + (b + e), 0), |ScanBytes(c, t, interval, a, 0)|;
      var pairs := 2 + |ScanBytes(c, t, interval, b, k)|;
      && cut + pairs <= |file|
      && file[..cut] + file[cut + pairs..]
         == ScanBytes(c, t, interval, a, 0) + [0xFF, RstCode(k - 1 + d)] + ScanBytes(c, t, interval, e, k + d)
  {
    hide ScanBytes, RstCode, IsMcu;
    JoinMcus(c, b, e);
    JoinMcus(c, a, b + e);
    assert Whole(interval, |b|) && Segments(interval, |b|) == d by { OneOrTwo(interval, |b|, d); }
    ScanBytesConcat(c, t, interval, a, b + e, k, 0);
    ScanBytesConcat(c, t, interval, b, e, d, k);
    var x, y, z := ScanBytes(c, t, interval, a, 0), ScanBytes(c, t, interval, b, k), ScanBytes(c, t, interval, e, k + d);
    var r, q := [0xFF, RstCode(0 + k - 1)], [0xFF, RstCode(k + d - 1)];
    var file := ScanBytes(c, t, interval, a + (b + e), 0);
    assert file == x + r + (y + q + z);
    assert file == x + (r + y) + (q + z);
    assert file[..|x|] == x && file[|x| + |r + y|..] == q + z;
  }

  lemma OneOrTwo(interval: nat, n: nat, d: nat)
    requires interval > 0 && 1 <= d <= 2 && n == (if d == 1 then interval else 2 * interval)
    ensures Whole(interval, n) && Segments(interval, n) == d
  {
  }

  /**
   Resynchronisation: if one or two consecutive pairs of a restart marker and the segment behind it are missing from a scan,
   and a later restart marker remains, all other segments are decoded into their original MCU positions.
   */
  lemma LostPairs(c: Scan, hs: DTables, t: CTables, interval: nat, st: State, a: seq<Mcu>, ha: seq<Mcu>, b: seq<Mcu>,
                  hb: seq<Mcu>, e: seq<Mcu>, he: seq<Mcu>, k: nat, d: nat, m: byte, more: seq<byte>)
    returns (st': State, lost: seq<Mcu>)
    requires ScanOk(c) && AllLinked(hs, t) && interval > 0 && Fresh(interval, st, 0) && m != 0 && m != 0xFF
    requires AreMcus(c, a) && AreMcuHistories(c, a, ha) && Encodable(c, t, interval, a)
    requires Whole(interval, |a|) && k == Segments(interval, |a|)
    requires AreMcus(c, b) && AreMcus(c, hb) && |b| == |hb|
    requires 1 <= d <= 2 && |b| == (if d == 1 then interval else 2 * interval)
    requires AreMcus(c, e) && AreMcuHistories(c, e, he) && Encodable(c, t, interval, e) && e != []
    requires AreMcus(c, a + (b + e))
    requires var file, cut := ScanBytes(c, t, interval, a + (b + e), 0), |ScanBytes(c, t, interval, a, 0)|;
      var pairs := 2 + |ScanBytes(c, t, interval, b, k)|;
      cut + pairs <= |file| && st.core.src.rest == file[..cut] + file[cut + pairs..] + [0xFF, m] + more
    ensures AreMcus(c, ha + (hb + he)) && AreMcus(c, ha) && AreMcus(c, he) && |lost| == |hb|
    ensures DecodeScan(c, hs, interval, st, ha + (hb + he))
         == Some((st', McuGoals(c, a, ha) + (lost + McuGoals(c, e, he))))
  {
    hide AllLinked, ScanBytes, Encodable, McuGoals, AreMcuHistories, DecodeScan, RstCode, IsMcu;
    WithoutPairs(c, t, interval, a, b, e, k, d);
    var x, q, z := ScanBytes(c, t, interval, a, 0), [0xFF, RstCode(k - 1 + d)], ScanBytes(c, t, interval, e, k + d);
    assert x + q + z + [0xFF, m] + more == x + q + (z + [0xFF, m] + more);
    st', lost := LostSegments(c, hs, t, interval, st, a, ha, hb, e, he, k, d, m, more);
  }
}
