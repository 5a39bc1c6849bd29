/**
 A whole scan through both coders: the encoder accepts exactly the scans whose values are in range and whose symbols
 have codes, and the decoder, fed with its output in any pieces, restores what the scan determines.
 */
module CodecRoundTrip {
  import opened Bits
  import opened Wrappers
  import opened HuffmanTables
  import opened BitSource
  import opened Symbols
  import opened Emitters
  import opened Coefficients
  import opened NaturalOrder
  import opened Feeding
  import opened SequentialCodec
  import opened BlockEncoders
  import opened AcBand
  import opened AcRoundTrip
  import opened McuCodec
  import opened ScanCodec
  import opened ScanRoundTrip
  import opened EncoderSpec
  import opened ScanEncoders
  import opened ScanDecoders
  import opened GatheredTables

  // ----- What the encoder accepts

  /** The codes of the items are there, if they are needed. */
  predicate Codes(gather: bool, t: CTables, items: seq<Item>) {
    gather || AllHaveCodes(t, items)
  }

  lemma CodesConcat(gather: bool, t: CTables, a: seq<Item>, b: seq<Item>)
    ensures Codes(gather, t, a + b) <==> Codes(gather, t, a) && Codes(gather, t, b)
  {
    if AllHaveCodes(t, a + b) {
      CodesSplit(t, a, b);
    }
  }

  /** The MCUs of a restart interval so far pass, but for what is still pending. */
  ghost predicate PartPasses(gather: bool, t: CTables, c: Scan, cur: seq<Mcu>)
    requires ScanOk(c) && AreMcus(c, cur)
  {
    IntervalInRange(c, cur) && Codes(gather, t, PartialItems(c, cur))
  }

  ghost predicate IntervalPasses(gather: bool, t: CTables, c: Scan, mcus: seq<Mcu>)
    requires ScanOk(c) && AreMcus(c, mcus)
  {
    IntervalInRange(c, mcus) && Codes(gather, t, IntervalItems(c, mcus))
  }

  ghost predicate Passes(gather: bool, t: CTables, c: Scan, interval: nat, mcus: seq<Mcu>)
    requires ScanOk(c) && AreMcus(c, mcus)
    decreases |mcus|
  {
    if OneSegment(interval, mcus) then IntervalPasses(gather, t, c, mcus)
    else IntervalPasses(gather, t, c, mcus[..interval]) && Passes(gather, t, c, interval, mcus[interval..])
  }

  lemma {:induction false} PassesIs(gather: bool, t: CTables, c: Scan, interval: nat, mcus: seq<Mcu>)
    requires ScanOk(c) && AreMcus(c, mcus)
    ensures Passes(gather, t, c, interval, mcus)
       <==> if gather then ScanInRange(c, interval, mcus) else Encodable(c, t, interval, mcus)
    decreases |mcus|
  {
    hide IntervalInRange, IntervalItems, AllHaveCodes, IsMcu;
    if !OneSegment(interval, mcus) {
      PassesIs(gather, t, c, interval, mcus[interval..]);
    }
  }

  lemma IntervalPassesIffClosed(gather: bool, t: CTables, c: Scan, cur: seq<Mcu>)
    requires ScanOk(c) && AreMcus(c, cur)
    ensures IntervalPasses(gather, t, c, cur) <==> PartPasses(gather, t, c, cur) && Codes(gather, t, ClosingItems(c, cur))
  {
    hide IntervalInRange, IntervalItems, Codes, PartialItems, ClosingItems;
    IntervalIsPartial(c, cur);
    CodesConcat(gather, t, PartialItems(c, cur), ClosingItems(c, cur));
  }

  lemma InRangeSnoc(c: Scan, cur: seq<Mcu>, m: Mcu)
    requires ScanOk(c) && AreMcus(c, cur) && IsMcu(c, m)
    ensures AreMcus(c, cur + [m])
    ensures IntervalInRange(c, cur + [m]) <==> IntervalInRange(c, cur) && McuInRange(c, cur, m)
  {
    hide McusInRange, InRange, UnitsInRange, McusItems, UnitsItems;
    McusSnoc(c, cur, m, NO_DC);
    if c.kind == AcScan {
      assert FirstBlocks(cur + [m]) == FirstBlocks(cur) + [m[0]];
      var a, b := FirstBlocks(cur), FirstBlocks(cur + [m]);
      assert b[|cur|] == m[0] && forall i :: 0 <= i < |a| ==> b[i] == a[i];
    }
  }

  lemma PartPassesSnoc(gather: bool, t: CTables, c: Scan, cur: seq<Mcu>, m: Mcu)
    requires ScanOk(c) && AreMcus(c, cur) && IsMcu(c, m)
    ensures AreMcus(c, cur + [m])
    ensures PartPasses(gather, t, c, cur + [m])
       <==> PartPasses(gather, t, c, cur) && McuInRange(c, cur, m) && Codes(gather, t, McuItems(c, cur, m))
  {
    hide IntervalInRange, Codes, PartialItems, McuItems, McuInRange, IsMcu;
    InRangeSnoc(c, cur, m);
    OneMore(c, cur, m);
    CodesConcat(gather, t, PartialItems(c, cur), McuItems(c, cur, m));
  }

  lemma NothingPasses(gather: bool, t: CTables, c: Scan)
    requires ScanOk(c)
    ensures PartPasses(gather, t, c, [])
  {
    NoneYet(c);
    assert FirstBlocks([]) == [];
  }

  lemma {:induction false} PartPassesPrefix(gather: bool, t: CTables, c: Scan, cur: seq<Mcu>, more: seq<Mcu>)
    requires ScanOk(c) && AreMcus(c, cur) && AreMcus(c, more)
    ensures AreMcus(c, cur + more)
    ensures PartPasses(gather, t, c, cur + more) ==> PartPasses(gather, t, c, cur)
    decreases |more|
  {
    hide PartPasses, IsMcu;
    JoinMcus(c, cur, more);
    if more == [] {
      assert cur + more == cur;
    } else {
      var n := |more| - 1;
      PartPassesPrefix(gather, t, c, cur, more[..n]);
      PartPassesSnoc(gather, t, c, cur + more[..n], more[n]);
      assert cur + more == (cur + more[..n]) + [more[n]];
    }
  }

  /** What is coded so far of the current interval is no obstacle if the scan passes. */
  lemma PassesSoFar(gather: bool, t: CTables, c: Scan, interval: nat, cur: seq<Mcu>, rest: seq<Mcu>)
    requires ScanOk(c) && AreMcus(c, cur) && AreMcus(c, rest) && OneSegment(interval, cur)
    ensures AreMcus(c, cur + rest)
    ensures Passes(gather, t, c, interval, cur + rest) ==> PartPasses(gather, t, c, cur)
  {
    hide PartPasses, IntervalPasses, IsMcu, Codes;
    JoinMcus(c, cur, rest);
    if OneSegment(interval, cur + rest) {
      IntervalPassesIffClosed(gather, t, c, cur + rest);
      PartPassesPrefix(gather, t, c, cur, rest);
    } else {
      var k := interval - |cur|;
      assert (cur + rest)[..interval] == cur + rest[..k];
      IntervalPassesIffClosed(gather, t, c, cur + rest[..k]);
      PartPassesPrefix(gather, t, c, cur, rest[..k]);
    }
  }

  /** A full interval is closed. */
  lemma PassesBeyond(gather: bool, t: CTables, c: Scan, interval: nat, cur: seq<Mcu>, rest: seq<Mcu>)
    requires ScanOk(c) && AreMcus(c, cur) && AreMcus(c, rest) && interval == |cur| > 0 && rest != []
    ensures AreMcus(c, cur + rest)
    ensures Passes(gather, t, c, interval, cur + rest)
       <==> IntervalPasses(gather, t, c, cur) && Passes(gather, t, c, interval, rest)
  {
    hide IntervalPasses, IsMcu;
    JoinMcus(c, cur, rest);
    assert (cur + rest)[..interval] == cur && (cur + rest)[interval..] == rest;
  }

  /** One call of the encoder, whether or not a restart comes first, in terms of the whole scan. */
  lemma OneCall(gather: bool, t: CTables, c: Scan, interval: nat, cur: seq<Mcu>, m: Mcu, rest: seq<Mcu>)
    requires ScanOk(c) && AreMcus(c, cur) && IsMcu(c, m) && AreMcus(c, rest) && OneSegment(interval, cur)
    requires PartPasses(gather, t, c, cur)
    ensures var due := interval != 0 && |cur| == interval;
      var before, closing := if due then [] else cur, if due then ClosingItems(c, cur) else [];
      var ok := McuInRange(c, before, m) && Codes(gather, t, closing + McuItems(c, before, m));
      && AreMcus(c, cur + [m] + rest) && AreMcus(c, before + [m] + rest) && AreMcus(c, before + [m])
      && (ok ==> PartPasses(gather, t, c, before + [m]))
      && (Passes(gather, t, c, interval, cur + [m] + rest)
          <==> ok && Passes(gather, t, c, interval, before + [m] + rest))
  {
    hide PartPasses, IntervalPasses, Passes, IsMcu, Codes, McuInRange, McuItems, ClosingItems, PartialItems;
    var due := interval != 0 && |cur| == interval;
    var before, closing := if due then [] else cur, if due then ClosingItems(c, cur) else [];
    assert AreMcus(c, [m]) && AreMcus(c, before);
    JoinMcus(c, [m], rest);
    JoinMcus(c, cur, [m] + rest);
    JoinMcus(c, before, [m]);
    assert cur + [m] + rest == cur + ([m] + rest) && before + [m] + rest == before + ([m] + rest);
    CodesConcat(gather, t, closing, McuItems(c, before, m));
    NothingPasses(gather, t, c);
    PartPassesSnoc(gather, t, c, before, m);
    PassesSoFar(gather, t, c, interval, before + [m], rest);
    NoCodes(gather, t);
    if due {
      assert [] + ([m] + rest) == [m] + rest;
      PassesBeyond(gather, t, c, interval, cur, [m] + rest);
      IntervalPassesIffClosed(gather, t, c, cur);
    }
  }

  lemma NoCodes(gather: bool, t: CTables)
    ensures Codes(gather, t, [])
  {
  }

  /** The encoder has coded i MCUs of a scan, cur of them in the current interval, and nothing is wrong so far. */
  ghost predicate Ahead(gather: bool, t: CTables, c: Scan, interval: nat, mcus: seq<Mcu>, cur: seq<Mcu>, i: nat) {
    && ScanOk(c) && AreMcus(c, mcus) && i <= |mcus| && AreMcus(c, cur) && OneSegment(interval, cur)
    && PartPasses(gather, t, c, cur) && AreMcus(c, cur + mcus[i..])
    && (Passes(gather, t, c, interval, mcus) <==> Passes(gather, t, c, interval, cur + mcus[i..]))
  }

  lemma AheadStart(gather: bool, t: CTables, c: Scan, interval: nat, mcus: seq<Mcu>)
    requires ScanOk(c) && AreMcus(c, mcus)
    ensures Ahead(gather, t, c, interval, mcus, [], 0)
  {
    hide PartPasses, Passes, IsMcu;
    NothingPasses(gather, t, c);
    assert [] + mcus[0..] == mcus;
  }

  lemma AheadStep(gather: bool, t: CTables, c: Scan, interval: nat, mcus: seq<Mcu>, cur: seq<Mcu>, i: nat)
    requires Ahead(gather, t, c, interval, mcus, cur, i) && i < |mcus|
    ensures var due := interval != 0 && |cur| == interval;
      var before, closing := if due then [] else cur, if due then ClosingItems(c, cur) else [];
      if McuInRange(c, before, mcus[i]) && Codes(gather, t, closing + McuItems(c, before, mcus[i]))
      then Ahead(gather, t, c, interval, mcus, before + [mcus[i]], i + 1)
      else !Passes(gather, t, c, interval, mcus)
  {
    hide PartPasses, Passes, IsMcu, Codes, McuInRange, McuItems, ClosingItems;
    OneCall(gather, t, c, interval, cur, mcus[i], mcus[i + 1..]);
    assert cur + mcus[i..] == cur + [mcus[i]] + mcus[i + 1..];
  }

  lemma AheadEnd(gather: bool, t: CTables, c: Scan, interval: nat, mcus: seq<Mcu>, cur: seq<Mcu>)
    requires Ahead(gather, t, c, interval, mcus, cur, |mcus|)
    ensures Passes(gather, t, c, interval, mcus) <==> Codes(gather, t, ClosingItems(c, cur))
  {
    hide PartPasses, IntervalPasses, IsMcu, Codes, ClosingItems;
    IntervalPassesIffClosed(gather, t, c, cur);
    assert cur + mcus[|mcus|..] == cur;
  }

  // ----- The encoder

  predicate SizesOk(c: Scan, grid: seq<seq<array<Coef>>>) {
    forall i :: 0 <= i < |grid| ==>
      |grid[i]| == |c.membership| && forall j :: 0 <= j < |grid[i]| ==> grid[i][j].Length == DCTSIZE2
  }

  function Arrays(grid: seq<seq<array<Coef>>>): set<array<Coef>> {
    set i, j | 0 <= i < |grid| && 0 <= j < |grid[i]| :: grid[i][j]
  }

  /** The MCUs of a scan, as they are stored. */
  function StoredMcus(c: Scan, grid: seq<seq<array<Coef>>>): (mcus: seq<Mcu>)
    requires SizesOk(c, grid)
    reads Arrays(grid)
    ensures |mcus| == |grid| && AreMcus(c, mcus)
  {
    seq(|grid|, i requires 0 <= i < |grid| reads Arrays(grid) => Stored(grid[i]))
  }

  lemma CodesAreCodable(em: Emitter, items: seq<Item>)
    ensures Codable(em, items) <==> Codes(em.gather, em.tables, items)
    ensures em.gather ==> Codable(em, items)
  {
  }

  ghost predicate AllAhead(enc: ScanEncoder, mcus: seq<Mcu>, i: nat)
    reads enc, enc.em, enc.ac, enc.ac.bitBuffer
  {
    && enc.Valid() && i <= |mcus| && enc.All() == mcus[..i]
    && Ahead(enc.em.gather, enc.em.tables, enc.c, enc.interval, mcus, enc.cur, i)
  }

  /** MCU i of the scan; if it is refused, so is the scan. */
  method EncodeNext(enc: ScanEncoder, blocks: seq<array<Coef>>, ghost mcus: seq<Mcu>, ghost i: nat) returns (st: Status)
    requires AllAhead(enc, mcus, i) && i < |mcus| && AreMcus(enc.c, mcus)
    requires |blocks| == |enc.c.membership| && (forall j :: 0 <= j < |blocks| ==> blocks[j].Length == DCTSIZE2)
    requires Stored(blocks) == mcus[i]
    modifies enc, enc.em, enc.ac, enc.ac.bitBuffer
    ensures st.Good? ==> AllAhead(enc, mcus, i + 1)
    ensures st.Bad? ==> ScanOk(enc.c) && !Passes(enc.em.gather, enc.em.tables, enc.c, enc.interval, mcus)
    ensures st.Bad? && enc.em.gather ==> st.error == BadDctCoef
  {
    hide Stored, Passes, ClosingItems, McuItems, McuInRange, IsMcu, ScanEncoder.Coded, Concat, Codes, Codable, Ahead;
    enc.CodedMcus();
    AheadStep(enc.em.gather, enc.em.tables, enc.c, enc.interval, mcus, enc.cur, i);
    ghost var closing, before := if enc.Due() then ClosingItems(enc.c, enc.cur) else [], if enc.Due() then [] else enc.cur;
    CodesAreCodable(enc.em, closing + McuItems(enc.c, before, mcus[i]));
    st := enc.EncodeMcu(blocks);
  }

  /**
   A whole scan from start_pass to finish_pass.  The pass succeeds exactly if every value is in range and, unless
   statistics are gathered, every symbol has a code.
   */
  method EncodeScan(c: Scan, interval: nat, gather: bool, tables: CTables, grid: seq<seq<array<Coef>>>)
    returns (st: Status, out: seq<byte>, counts: seq<seq<nat>>)
    requires ScanOk(c) && SizesFit(tables) && SizesOk(c, grid)
    ensures var mcus := StoredMcus(c, grid);
      && (gather ==> (st.Good? <==> ScanInRange(c, interval, mcus)) && (st.Bad? ==> st.error == BadDctCoef))
      && (!gather ==> (st.Good? <==> Encodable(c, tables, interval, mcus)))
      && (st.Good? && gather ==> CountsOf(counts, ScanItems(c, interval, mcus)))
      && (st.Good? && !gather ==> out == ScanBytes(c, tables, interval, mcus, 0))
  {
    hide ScanInRange, Encodable, CountsOf, ScanItems, ScanBytes, Stored, Passes, ClosingItems, IsMcu,
         ScanEncoder.Valid, ScanEncoder.All, Codes, Codable, Ahead, AllAhead;
    ghost var mcus := StoredMcus(c, grid);
    PassesIs(gather, tables, c, interval, mcus);
    var enc := new ScanEncoder(c, interval, gather, tables);
    out, counts := [], [];
    Started(enc, mcus);
    for i := 0 to |grid|
      invariant fresh(enc) && fresh(enc.em) && fresh(enc.ac) && fresh(enc.ac.bitBuffer)
      invariant enc.c == c && enc.interval == interval && enc.em.gather == gather && enc.em.tables == tables
      invariant mcus == StoredMcus(c, grid) && AllAhead(enc, mcus, i)
    {
      assert Stored(grid[i]) == mcus[i];
      st := EncodeNext(enc, grid[i], mcus, i);
      assert mcus == StoredMcus(c, grid);
      if st.Bad? {
        return;
      }
    }
    Ended(enc, mcus);
    CodesAreCodable(enc.em, ClosingItems(c, enc.cur));
    st := enc.FinishPass();
    assert mcus == StoredMcus(c, grid);
    out, counts := enc.em.out, enc.em.counts;
  }

  /** MCU i of the scan, as far as the destination has room; when it is refused for that reason, it is still the next. */
  method TryNext(enc: ScanEncoder, blocks: seq<array<Coef>>, room: nat, ghost mcus: seq<Mcu>, ghost i: nat)
    returns (st: Status, done: bool)
    requires AllAhead(enc, mcus, i) && i < |mcus| && AreMcus(enc.c, mcus) && enc.c.kind == Sequential && !enc.em.gather
    requires |blocks| == |enc.c.membership| && (forall j :: 0 <= j < |blocks| ==> blocks[j].Length == DCTSIZE2)
    requires Stored(blocks) == mcus[i]
    modifies enc, enc.em, enc.ac, enc.ac.bitBuffer
    ensures !done ==> AllAhead(enc, mcus, i)
    ensures done && st.Good? ==> AllAhead(enc, mcus, i + 1)
    ensures done && st.Bad? ==> ScanOk(enc.c) && !Passes(enc.em.gather, enc.em.tables, enc.c, enc.interval, mcus)
  {
    hide Stored, Passes, ClosingItems, McuItems, McuInRange, IsMcu, ScanEncoder.Coded, Concat, Codes, Codable, Ahead;
    enc.CodedMcus();
    AheadStep(enc.em.gather, enc.em.tables, enc.c, enc.interval, mcus, enc.cur, i);
    ghost var closing, before := if enc.Due() then ClosingItems(enc.c, enc.cur) else [], if enc.Due() then [] else enc.cur;
    CodesAreCodable(enc.em, closing + McuItems(enc.c, before, mcus[i]));
    st, done := enc.TryMcu(blocks, room);
  }

  /**
   A sequential scan with a destination that may refuse: rooms[k] is what it takes in attempt k, and a refused MCU is passed
   in again.  Once all MCUs are through, the bytes are the same as without refusals.
   */
  method EncodeScanRefused(c: Scan, interval: nat, tables: CTables, grid: seq<seq<array<Coef>>>, rooms: seq<nat>)
    returns (st: Status, out: seq<byte>, complete: bool)
    requires ScanOk(c) && c.kind == Sequential && SizesFit(tables) && SizesOk(c, grid)
    ensures var mcus := StoredMcus(c, grid);
      && (complete ==> (st.Good? <==> Encodable(c, tables, interval, mcus)))
      && (complete && st.Good? ==> out == ScanBytes(c, tables, interval, mcus, 0))
      && (!complete ==> st.Good?)
  {
    hide ScanInRange, Encodable, CountsOf, ScanItems, ScanBytes, Stored, Passes, ClosingItems, IsMcu,
         ScanEncoder.Valid, ScanEncoder.All, Codes, Codable, Ahead, AllAhead;
    ghost var mcus := StoredMcus(c, grid);
    PassesIs(false, tables, c, interval, mcus);
    var enc := new ScanEncoder(c, interval, false, tables);
    out, complete := [], true;
    Started(enc, mcus);
    var i, k := 0, 0;
    while i < |grid|
      invariant fresh(enc) && fresh(enc.em) && fresh(enc.ac) && fresh(enc.ac.bitBuffer)
      invariant enc.c == c && enc.interval == interval && !enc.em.gather && enc.em.tables == tables
      invariant i <= |grid| && k <= |rooms| && mcus == StoredMcus(c, grid) && AllAhead(enc, mcus, i)
      decreases |rooms| - k
    {
      if k == |rooms| {
        return Good, [], false;
      }
      assert Stored(grid[i]) == mcus[i];
      var done;
      st, done := TryNext(enc, grid[i], rooms[k], mcus, i);
      assert mcus == StoredMcus(c, grid);
      k := k + 1;
      if done {
        if st.Bad? {
          return;
        }
        i := i + 1;
      }
    }
    Ended(enc, mcus);
    CodesAreCodable(enc.em, ClosingItems(c, enc.cur));
    st := enc.FinishPass();
    assert mcus == StoredMcus(c, grid);
    out := enc.em.out;
  }

  lemma Started(enc: ScanEncoder, mcus: seq<Mcu>)
    requires enc.Valid() && enc.All() == [] && AreMcus(enc.c, mcus)
    ensures AllAhead(enc, mcus, 0)
  {
    hide Ahead, Concat;
    assert |enc.All()| == |Concat(enc.segs)| + |enc.cur|;
    enc.CodedMcus();
    AheadStart(enc.em.gather, enc.em.tables, enc.c, enc.interval, mcus);
  }

  lemma Ended(enc: ScanEncoder, mcus: seq<Mcu>)
    requires AllAhead(enc, mcus, |mcus|)
    ensures enc.Valid() && enc.All() == mcus && ScanOk(enc.c) && AreMcus(enc.c, mcus) && AreMcus(enc.c, enc.cur)
    ensures Passes(enc.em.gather, enc.em.tables, enc.c, enc.interval, mcus)
       <==> Codes(enc.em.gather, enc.em.tables, ClosingItems(enc.c, enc.cur))
  {
    hide Passes, Codes, ClosingItems, Concat, PartPasses;
    assert mcus[..|mcus|] == mcus;
    enc.CodedMcus();
    AheadEnd(enc.em.gather, enc.em.tables, enc.c, enc.interval, mcus, enc.cur);
  }

  // ----- The decoder

  /** Where the decoder puts the MCUs: no block twice. */
  predicate AreTargets(c: Scan, grid: seq<seq<array<Coef>>>) {
    && (forall i :: 0 <= i < |grid| ==> AreBlocks(c, grid[i]))
    && (forall i, j, m, n :: 0 <= i < j < |grid| && 0 <= m < |grid[i]| && 0 <= n < |grid[j]| ==> grid[i][m] != grid[j][n])
  }

  lemma DriveStep(c: Scan, hs: DTables, interval: nat, st: State, mcus: seq<Mcu>, i: nat, chunks: seq<seq<byte>>, k: nat)
    requires ScanOk(c) && AreMcus(c, mcus) && i < |mcus| && k <= |chunks|
    ensures var whole := PrependMcus(mcus[..i], Drive(c, hs, interval, st, mcus[i..], chunks[k..]));
      var r := Step(c, hs, interval, st, mcus[i]);
      var mcus' := mcus[i := r.mcu];
      && AreMcus(c, mcus')
      && match r
         case Stepped(st', _) => whole == PrependMcus(mcus'[..i + 1], Drive(c, hs, interval, st', mcus'[i + 1..], chunks[k..]))
         case Paused(st', _) =>
           if k == |chunks| then whole == None
           else whole == PrependMcus(mcus'[..i],
                                     Drive(c, hs, interval, ExtendState(st', chunks[k]), mcus'[i..], chunks[k + 1..]))
  {
    hide Step, IsMcu;
    StepKeepsMcu(c, hs, interval, st, mcus[i]);
    var r := Step(c, hs, interval, st, mcus[i]);
    var mcus' := mcus[i := r.mcu];
    assert mcus[i..][1..] == mcus[i + 1..] == mcus'[i + 1..] && mcus'[..i] == mcus[..i];
    match r
    case Stepped(st', m) =>
      PrependAll(mcus[..i], [m], Drive(c, hs, interval, st', mcus[i + 1..], chunks[k..]));
      assert mcus'[..i + 1] == mcus[..i] + [m];
    case Paused(st', m) =>
      if k < |chunks| {
        assert chunks[k..][1..] == chunks[k + 1..];
        assert mcus'[i..] == [m] + mcus[i + 1..];
      }
  }

  lemma DriveEnds(c: Scan, hs: DTables, interval: nat, st: State, mcus: seq<Mcu>, chunks: seq<seq<byte>>)
    requires ScanOk(c) && AreMcus(c, mcus)
    ensures PrependMcus(mcus[..0], Drive(c, hs, interval, st, mcus[0..], chunks[0..])) == Drive(c, hs, interval, st, mcus, chunks)
    ensures PrependMcus(mcus, Drive(c, hs, interval, st, [], chunks)) == Some((ExtendState(st, Concat(chunks)), mcus))
  {
    hide Step, IsMcu;
    PrependAll([], [], Drive(c, hs, interval, st, mcus, chunks));
    assert mcus[0..] == mcus && mcus[..0] == [] && chunks[0..] == chunks && mcus + [] == mcus;
  }

  lemma HasScan(dec: ScanDecoder)
    requires dec.Valid()
    ensures ScanOk(dec.c)
  {
  }

  /**
   The application's loop: decode MCU by MCU, and whenever the decoder suspends, supply the next chunk of input and try
   again; false if the input does not suffice.
   */
  method DecodeFed(dec: ScanDecoder, grid: seq<seq<array<Coef>>>, chunks: seq<seq<byte>>) returns (ok: bool, used: nat)
    requires dec.Valid() && AreTargets(dec.c, grid) && SizesOk(dec.c, grid)
    modifies dec, Arrays(grid)
    ensures dec.Valid() && used <= |chunks|
    ensures Drive(dec.c, Pubs(dec.tables), dec.interval, old(dec.St()), old(StoredMcus(dec.c, grid)), chunks)
         == if ok then Some((ExtendState(dec.St(), Concat(chunks[used..])), StoredMcus(dec.c, grid))) else None
  {
    hide Step, ScanDecoder.Valid, Stored, IsMcu, Drive;
    ghost var c, hs, interval := dec.c, Pubs(dec.tables), dec.interval;
    HasScan(dec);
    DriveEnds(c, hs, interval, dec.St(), StoredMcus(c, grid), chunks);
    ghost var total := Drive(c, hs, interval, dec.St(), StoredMcus(c, grid), chunks);
    var i := 0;
    used := 0;
    while i < |grid|
      invariant dec.Valid() && i <= |grid| && used <= |chunks|
      invariant total == PrependMcus(StoredMcus(c, grid)[..i],
                                     Drive(c, hs, interval, dec.St(), StoredMcus(c, grid)[i..], chunks[used..]))
      decreases |grid| - i + |chunks| - used
    {
      ghost var before := StoredMcus(c, grid);
      DriveStep(c, hs, interval, dec.St(), before, i, chunks, used);
      ok := dec.DecodeNextMcu(grid[i]);
      assert StoredMcus(c, grid) == before[i := Stored(grid[i])];
      if ok {
        i := i + 1;
      } else if used == |chunks| {
        return;
      } else {
        dec.Supply(chunks[used]);
        assert StoredMcus(c, grid) == before[i := Stored(grid[i])];
        used := used + 1;
      }
    }
    DriveEnds(c, hs, interval, dec.St(), StoredMcus(c, grid), chunks[used..]);
    assert StoredMcus(c, grid)[..i] == StoredMcus(c, grid) && StoredMcus(c, grid)[i..] == [];
    ok := true;
  }

  // ----- There and back

  /** The input in pieces, as a data source delivers it: the sizes of the buffers, as far as they are given. */
  function Pieces(bytes: seq<byte>, sizes: seq<nat>): seq<seq<byte>>
    decreases |sizes|
  {
    if sizes == [] then [bytes]
    else if |bytes| <= sizes[0] then [bytes] + Pieces([], sizes[1..])
    else [bytes[..sizes[0]]] + Pieces(bytes[sizes[0]..], sizes[1..])
  }

  lemma {:induction false} PiecesConcat(bytes: seq<byte>, sizes: seq<nat>)
    ensures Concat(Pieces(bytes, sizes)) == bytes
    decreases |sizes|
  {
    if sizes == [] {
      assert bytes + [] == bytes;
    } else if |bytes| <= sizes[0] {
      PiecesConcat([], sizes[1..]);
    } else {
      PiecesConcat(bytes[sizes[0]..], sizes[1..]);
      assert bytes[..sizes[0]] + bytes[sizes[0]..] == bytes;
    }
  }

  lemma LinkedSizes(hs: DTables, t: CTables)
    requires AllLinked(hs, t)
    ensures SizesFit(t)
  {
    forall i, s | 0 <= i < 8 && 0 <= s < 256
      ensures t[i].ehufsi[s] <= 16
    {
      assert Linked(hs[i], t[i]);
    }
  }

  /** What the decoder makes of the encoder's output, in whatever pieces it comes. */
  lemma FedRoundTrip(c: Scan, hs: DTables, t: CTables, interval: nat, mcus: seq<Mcu>, hist: seq<Mcu>, m: byte,
                     more: seq<byte>, sizes: seq<nat>) returns (st': State)
    requires ScanOk(c) && AllLinked(hs, t) && AreMcus(c, mcus) && AreMcuHistories(c, mcus, hist)
    requires Encodable(c, t, interval, mcus) && m != 0 && m != 0xFF
    ensures AreMcus(c, hist)
    ensures var file := ScanBytes(c, t, interval, mcus, 0) + [0xFF, m] + more;
      var st := State(Core(Source([], [], 0, false, 0), NO_DC, 0), 0, 0, interval);
      Drive(c, hs, interval, st, hist, Pieces(file, sizes)) == Some((st', McuGoals(c, mcus, hist)))
    ensures st'.core.src.warnings == 0 && !st'.core.src.starved && AtEnd(st', m, more)
  {
    hide AllLinked, ScanBytes, Encodable, McuGoals, AreMcuHistories, Lookahead, DecodeScan, Drive;
    var file := ScanBytes(c, t, interval, mcus, 0) + [0xFF, m] + more;
    var st := State(Core(Source([], [], 0, false, 0), NO_DC, 0), 0, 0, interval);
    PiecesConcat(file, sizes);
    assert [] + file == file;
    st' := ScanRoundTrip.ScanRoundTrip(c, hs, t, interval, ExtendState(st, file), mcus, hist, m, more);
    SuspensionIsTransparent(c, hs, interval, st, hist, Pieces(file, sizes));
  }

  /**
   A scan is coded, followed by a marker and more, and decoded into blocks that hold what the earlier scans left: it is
   restored exactly if it could be coded, however the input is cut into pieces.
   */
  method TransmitScan(c: Scan, interval: nat, t: CTables, ts: DerivedTables, source: seq<seq<array<Coef>>>,
                      target: seq<seq<array<Coef>>>, m: byte, more: seq<byte>, sizes: seq<nat>)
    returns (st: Status, warnings: int)
    requires ScanOk(c) && AllDerived(ts) && AllLinked(Pubs(ts), t) && m != 0 && m != 0xFF
    requires SizesOk(c, source) && SizesOk(c, target) && AreTargets(c, target)
    requires AreMcuHistories(c, StoredMcus(c, source), StoredMcus(c, target))
    modifies Arrays(target)
    ensures st.Good? <==> Encodable(c, t, interval, old(StoredMcus(c, source)))
    ensures st.Good? ==> warnings == 0
    ensures |source| == |target|
    ensures StoredMcus(c, target) ==
      if st.Good? then McuGoals(c, old(StoredMcus(c, source)), old(StoredMcus(c, target))) else old(StoredMcus(c, target))
  {
    hide AllDerived, AllLinked, Encodable, ScanBytes, AreMcuHistories, McuGoals, Drive, Stored, IsMcu, AreTargets;
    ghost var mcus, hist := StoredMcus(c, source), StoredMcus(c, target);
    LinkedSizes(Pubs(ts), t);
    SameLength(c, mcus, hist);
    var out, counts;
    st, out, counts := EncodeScan(c, interval, false, t, source);
    assert mcus == StoredMcus(c, source) && hist == StoredMcus(c, target);
    warnings := 0;
    if st.Bad? {
      return;
    }
    ghost var last := FedRoundTrip(c, Pubs(ts), t, interval, mcus, hist, m, more, sizes);
    var dec := new ScanDecoder(c, interval, ts, []);
    assert hist == StoredMcus(c, target);
    var ok, used := DecodeFed(dec, target, Pieces(out + [0xFF, m] + more, sizes));
    warnings := dec.warnings;
  }
}
