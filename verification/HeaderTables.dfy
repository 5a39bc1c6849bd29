/**
 Headers and coders: the Huffman tables that a scan header sends and names are those whose symbols the entropy coder emits
 in the scan, and the scans that get no gathering pass are those that emit no symbol.
 */
module HeaderTables {
  import opened Bits
  import opened Wrappers
  import opened HuffmanTables
  import opened Symbols
  import opened Coefficients
  import opened SequentialCodec
  import opened AcBand
  import opened AcSegment
  import opened AcRoundTrip
  import opened McuCodec
  import opened GatheredTables
  import opened ScanStatistics
  import S = MarkerSegments
  import P = MarkerParsing
  import B = MarkerBytes
  import W = MarkerWriter
  import R = MarkerRoundTrip
  import Script = ScanScript
  import T = ScriptRoundTrip
  import PassControl

  /** c is what the entropy coder makes of the frame and the scan: its routines, and the tables of each component. */
  ghost predicate CoderOf(e: W.Enc, s: W.ScanSpec, c: Scan) {
    && ScanOk(c) && W.ScanOk(e, s)
    && c.kind == (if !e.progressive then Sequential else if s.ss != 0 then AcScan else if s.ah == 0 then DcFirst else DcRefine)
    && (forall j :: 0 <= j < |s.comps| ==> c.dcTbl[j] == e.comps[s.comps[j]].dcTbl && c.acTbl[j] == e.comps[s.comps[j]].acTbl)
    && (c.kind == AcScan ==> c.band.tbl == e.comps[s.comps[0]].acTbl)
    && (forall n :: 0 <= n < |c.membership| ==> c.membership[n] < |s.comps|)
    && (forall j :: 0 <= j < |s.comps| ==> j in c.membership)
  }

  /** The decompressor has the table that the symbol belongs to, and some component of the scan names that table. */
  ghost predicate Served(e: W.Enc, s: W.ScanSpec, g: S.Fields, ac: bool, tbl: nat)
    requires W.ScanOk(e, s)
  {
    && (ac, tbl) in e.huff && B.HuffIn(g, ac, tbl, e.huff[(ac, tbl)].d)
    && exists j :: 0 <= j < |s.comps| && R.Has(g, if ac then S.AcTblNo(s.comps[j]) else S.DcTblNo(s.comps[j]), tbl)
  }

  /** Every symbol of the scan's data is served. */
  ghost predicate AllServed(e: W.Enc, s: W.ScanSpec, g: S.Fields, items: seq<Item>)
    requires W.ScanOk(e, s)
  {
    forall i :: 0 <= i < |items| && items[i].Sym? ==> Served(e, s, g, items[i].ac, items[i].tbl)
  }

  lemma ServedByHeader(e: W.Enc, s: W.ScanSpec, c: Scan, g: S.Fields, it: Item)
    requires CoderOf(e, s, c) && R.ScanIn(e, s, g) && R.ScanTablesIn(e, s, g)
    requires it.Sym? && Regular(TablesOf(c), it)
    ensures Served(e, s, g, it.ac, it.tbl)
  {
    hide B.HuffIn;
    if c.kind == AcScan {
      assert R.Has(g, S.AcTblNo(s.comps[0]), it.tbl);
    } else {
      var n :| 0 <= n < |c.membership| && it.tbl == if it.ac then c.acTbl[c.membership[n]] else c.dcTbl[c.membership[n]];
      var j := c.membership[n];
      assert R.Has(g, if it.ac then S.AcTblNo(s.comps[j]) else S.DcTblNo(s.comps[j]), it.tbl);
    }
  }

  /** The symbols of one block belong to the tables that the decompressor finds under the block's component. */
  lemma UnitServed(e: W.Enc, s: W.ScanSpec, c: Scan, g: S.Fields, b: Block, n: nat, last: LastDc)
    requires CoderOf(e, s, c) && R.ScanIn(e, s, g) && n < |c.membership| && c.kind != AcScan
    requires UnitInRange(c, b, c.membership[n], last)
    ensures var ci, items := s.comps[c.membership[n]], UnitItems(c, b, c.membership[n], last);
      forall i :: 0 <= i < |items| && items[i].Sym? ==>
        R.Has(g, if items[i].ac then S.AcTblNo(ci) else S.DcTblNo(ci), items[i].tbl)
  {
    hide UnitInRange, UnitItems;
    var j := c.membership[n];
    OwnTables(c, b, j, last);
    assert R.Has(g, S.CurComp(j), s.comps[j]);
  }

  lemma OwnTables(c: Scan, b: Block, ci: nat, last: LastDc)
    requires ScanOk(c) && c.kind != AcScan && ci in c.membership && UnitInRange(c, b, ci, last)
    ensures var items := UnitItems(c, b, ci, last);
      forall i :: 0 <= i < |items| && items[i].Sym? ==>
        items[i].tbl == (if items[i].ac then c.acTbl[ci] else c.dcTbl[ci])
        && (items[i].ac ==> c.kind == Sequential) && c.kind != DcRefine
  {
    hide NBits, AcItems, Shr, AllRegular;
    if c.kind == Sequential {
      var u := ScanTables({}, {c.acTbl[ci]});
      AcItemsRegular(u, b, 1, 0, c.acTbl[ci]);
      var x, y := DcItems(b[0] - last[ci], c.dcTbl[ci]), AcItems(b, 1, 0, c.acTbl[ci]);
      RegularTables(u, y);
      forall i | 0 <= i < |x + y| && (x + y)[i].Sym?
        ensures (x + y)[i].tbl == if (x + y)[i].ac then c.acTbl[ci] else c.dcTbl[ci]
      {
        if i >= |x| {
          assert (x + y)[i] == y[i - |x|];
        }
      }
    }
  }

  lemma RegularTables(u: ScanTables, items: seq<Item>)
    requires AllRegular(u, items)
    ensures forall i :: 0 <= i < |items| && items[i].Sym? ==> items[i].tbl in if items[i].ac then u.ac else u.dc
  {
    forall i | 0 <= i < |items| ensures Regular(u, items[i]) {}
  }

  // ----- Nothing but what is needed

  /** Some symbol of the class occurs. */
  ghost predicate AnySymbol(items: seq<Item>, ac: bool) {
    exists i :: 0 <= i < |items| && items[i].Sym? && items[i].ac == ac
  }

  /** Where the scan's data has no symbol of a class, the header names table 0 of that class. */
  ghost predicate NamesNoOther(s: W.ScanSpec, g: S.Fields, items: seq<Item>) {
    forall ac: bool, j :: !AnySymbol(items, ac) && 0 <= j < |s.comps| ==>
      R.Has(g, if ac then S.AcTblNo(s.comps[j]) else S.DcTblNo(s.comps[j]), 0)
  }

  lemma NoOtherNamed(e: W.Enc, s: W.ScanSpec, c: Scan, g: S.Fields, mcus: seq<Mcu>)
    requires CoderOf(e, s, c) && R.ScanIn(e, s, g) && AreMcus(c, mcus) && mcus != []
    ensures NamesNoOther(s, g, IntervalItems(c, mcus))
  {
    hide IntervalItems, Named, R.Has, AnySymbol;
    forall ac: bool, j | !AnySymbol(IntervalItems(c, mcus), ac) && 0 <= j < |s.comps|
      ensures R.Has(g, if ac then S.AcTblNo(s.comps[j]) else S.DcTblNo(s.comps[j]), 0)
    {
      var t := if ac then c.acTbl[j] else c.dcTbl[j];
      IntervalNamed(c, mcus, if c.kind == AcScan then c.band.tbl else t);
      NamedIsAny(IntervalItems(c, mcus), ac, if c.kind == AcScan then c.band.tbl else t);
      assert j in c.membership;
      var n :| 0 <= n < |c.membership| && c.membership[n] == j;
      assert c.dcTbl[c.membership[n]] == c.dcTbl[j] && c.acTbl[c.membership[n]] == c.acTbl[j];
      assert R.Has(g, S.CurComp(j), s.comps[j]);
    }
  }

  lemma NamedIsAny(items: seq<Item>, ac: bool, tbl: nat)
    ensures Named(items, ac, tbl) ==> AnySymbol(items, ac)
  {
  }

  /** A table that the header sends is needed for a component of the scan. */
  lemma {:induction false} OnlyNeededSent(e: W.Enc, s: W.ScanSpec, n: nat, t: (bool, nat))
    requires W.ScanOk(e, s) && n <= |s.comps| && W.DhtsOf(e, s, n).Ok? && t in e.huff && !e.huff[t].sent
    ensures var g := W.DhtsOf(e, s, n).value.e;
      t in g.huff && (g.huff[t].sent ==> exists j :: 0 <= j < n && NeededFor(e, s, j, t))
    decreases n
  {
    hide W.DhtOf;
    if n > 0 {
      OnlyNeededSent(e, s, n - 1, t);
      var h := W.DhtsOf(e, s, n - 1).value.e;
      R.HuffTablesSent(e, s, n - 1);
      if !h.huff[t].sent {
        SentByComponent(h, s, h.comps[s.comps[n - 1]], t);
        assert W.DhtsOf(e, s, n).value.e.huff[t].sent ==> NeededFor(e, s, n - 1, t);
      } else {
        R.TablesSend(h, s, h.comps[s.comps[n - 1]]);
      }
    }
  }

  predicate NeededFor(e: W.Enc, s: W.ScanSpec, j: nat, t: (bool, nat))
    requires W.ScanOk(e, s) && j < |s.comps|
  {
    var c := e.comps[s.comps[j]];
    if t.0 then W.NeedsAc(e, s) && t.1 == c.acTbl else W.NeedsDc(e, s) && t.1 == c.dcTbl
  }

  lemma SentByComponent(h: W.Enc, s: W.ScanSpec, c: B.Comp, t: (bool, nat))
    requires W.TablesOf(h, s, c).Ok? && t in h.huff && !h.huff[t].sent
    ensures var g := W.TablesOf(h, s, c).value.e;
      t in g.huff && (g.huff[t].sent ==> if t.0 then W.NeedsAc(h, s) && t.1 == c.acTbl else W.NeedsDc(h, s) && t.1 == c.dcTbl)
  {
    hide B.DhtBody;
  }

  /** Every table that the header sends has symbols in the scan's data. */
  ghost predicate SendsNoOther(e: W.Enc, e1: W.Enc, items: seq<Item>) {
    forall t :: t in e.huff && !e.huff[t].sent && t in e1.huff && e1.huff[t].sent ==> Named(items, t.0, t.1)
  }

  lemma NoOtherSent(e: W.Enc, s: W.ScanSpec, c: Scan, mcus: seq<Mcu>)
    requires CoderOf(e, s, c) && W.EncOk(e) && W.ScanHeader(e, s).Ok? && AreMcus(c, mcus) && mcus != []
    ensures SendsNoOther(e, W.ScanHeader(e, s).value.e, IntervalItems(c, mcus))
  {
    hide IntervalItems, Named, W.DhtsOf;
    var e1 := W.ScanHeader(e, s).value.e;
    forall t | t in e.huff && !e.huff[t].sent && t in e1.huff && e1.huff[t].sent
      ensures Named(IntervalItems(c, mcus), t.0, t.1)
    {
      OnlyNeededSent(e, s, |s.comps|, t);
      var j :| 0 <= j < |s.comps| && NeededFor(e, s, j, t);
      assert j in c.membership;
      var n :| 0 <= n < |c.membership| && c.membership[n] == j;
      assert c.dcTbl[c.membership[n]] == c.dcTbl[j] && c.acTbl[c.membership[n]] == c.acTbl[j];
      if c.kind == AcScan {
        assert c.membership == [c.membership[0]];
        OneComponent(e, s, c);
      }
      IntervalNamed(c, mcus, t.1);
    }
  }

  /** An AC scan is of one component. */
  lemma OneComponent(e: W.Enc, s: W.ScanSpec, c: Scan)
    requires CoderOf(e, s, c) && c.kind == AcScan
    ensures |s.comps| == 1
  {
    assert c.membership == [c.membership[0]];
    assert 1 < |s.comps| ==> 0 in c.membership && 1 in c.membership;
  }

  /** All tables of the first n components of the scan have been sent. */
  predicate AllSent(e: W.Enc, s: W.ScanSpec, n: nat)
    requires W.ScanOk(e, s) && n <= |s.comps|
  {
    forall i :: 0 <= i < n ==>
      var c := e.comps[s.comps[i]];
      && (false, c.dcTbl) in e.huff && e.huff[(false, c.dcTbl)].sent
      && (true, c.acTbl) in e.huff && e.huff[(true, c.acTbl)].sent
  }

  lemma {:induction false} NoTableTwice(e: W.Enc, s: W.ScanSpec, n: nat)
    requires W.ScanOk(e, s) && n <= |s.comps| && AllSent(e, s, n)
    ensures W.DhtsOf(e, s, n) == Ok(W.Emitted(e, []))
    decreases n
  {
    hide W.TablesOf;
    if n > 0 {
      NoTableTwice(e, s, n - 1);
      NoTableOf(e, s, e.comps[s.comps[n - 1]]);
      NoBytes();
    }
  }

  lemma NoTableOf(e: W.Enc, s: W.ScanSpec, c: B.Comp)
    requires (false, c.dcTbl) in e.huff && e.huff[(false, c.dcTbl)].sent
    requires (true, c.acTbl) in e.huff && e.huff[(true, c.acTbl)].sent
    ensures W.TablesOf(e, s, c) == Ok(W.Emitted(e, []))
  {
    NoBytes();
  }

  lemma NoBytes()
    ensures var none: seq<byte> := []; none + none == []
  {
  }

  /** Once all tables have been sent, with the restart interval as it was, a scan header is its SOS segment only. */
  lemma NothingSentTwice(e: W.Enc, s: W.ScanSpec)
    requires W.EncOk(e) && W.ScanOk(e, s) && AllSent(e, s, |s.comps|) && e.interval == e.lastInterval
    ensures W.ScanHeader(e, s).Ok? && W.ScanHeader(e, s).value.e == e
    ensures var b := W.ScanHeader(e, s).value.bytes; |b| == 2 * |s.comps| + 8 && b[..2] == [0xFF, 0xDA]
  {
    hide W.Specs, B.SpecBytes, W.DhtsOf, AllSent;
    NoTableTwice(e, s, |s.comps|);
    SpecSize(W.Specs(e, s, |s.comps|));
  }

  lemma {:induction false} SpecSize(ss: seq<B.Spec>)
    ensures |B.SpecBytes(ss)| == 2 * |ss|
  {
    if ss != [] {
      SpecSize(ss[1..]);
    }
  }

  /** A changed restart interval, and only that, is sent with the next scan. */
  lemma IntervalSentOnChange(e: W.Enc, s: W.ScanSpec)
    requires W.EncOk(e) && W.ScanOk(e, s) && W.ScanHeader(e, s).Ok?
    ensures var x, tables := W.ScanHeader(e, s).value, W.DhtsOf(e, s, |s.comps|);
      && tables.Ok? && x.e.lastInterval == e.interval
      && |x.bytes| == |tables.value.bytes| + (if e.interval != e.lastInterval then 6 else 0) + 2 * |s.comps| + 8
      && (e.interval != e.lastInterval ==>
          x.bytes[|tables.value.bytes|..][..6] == [0xFF, 0xDD, 0, 4, e.interval / 256, e.interval % 256])
  {
    hide W.Specs, B.SpecBytes, W.DhtsOf;
    SpecSize(W.Specs(e, s, |s.comps|));
    var x := W.DhtsOf(e, s, |s.comps|).value;
    var tail := W.DriOf(x.e).bytes + W.SosOf(e, s);
    assert (x.bytes + tail)[|x.bytes|..] == tail;
  }

  // ----- A header and its scan

  /**
   The decompressor reads the header of a scan, and is then ready for the scan's data: of every symbol that the entropy
   coder emits, sequential or progressive, it has the table, and a component of the scan names that table.  No other table
   is sent, and no other named.
   */
  lemma HeaderServesScan(st: P.State, e: W.Enc, s: W.ScanSpec, tail: seq<byte>, limits: P.Limits, c: Scan, mcus: seq<Mcu>)
    returns (g: S.Fields)
    requires R.Between(st) && st.sawSof && W.EncOk(e) && CoderOf(e, s, c) && R.InSync(e, st.f) && R.FrameIn(e, st.f)
    requires W.ScanHeader(e, s).Ok? && st.input == W.ScanHeader(e, s).value.bytes + tail
    requires AreMcus(c, mcus) && mcus != [] && IntervalInRange(c, mcus)
    ensures P.ReadMarkers(st, limits) == P.ReachedSos(st.(f := g, input := tail, scans := st.scans + 1))
    ensures AllServed(e, s, g, IntervalItems(c, mcus)) && NamesNoOther(s, g, IntervalItems(c, mcus))
    ensures SendsNoOther(e, W.ScanHeader(e, s).value.e, IntervalItems(c, mcus))
  {
    hide R.InSync, R.FrameIn, R.ScanIn, R.ScanTablesIn, CoderOf, W.ScanHeader, P.ReadMarkers, NamesNoOther, SendsNoOther,
         IntervalItems, IntervalInRange, Served, Regular;
    CoderFits(e, s, c);
    g := R.ScanHeaderRoundTrip(st, e, s, tail, limits);
    NoOtherNamed(e, s, c, g, mcus);
    NoOtherSent(e, s, c, mcus);
    IntervalRegular(c, mcus);
    var items := IntervalItems(c, mcus);
    forall i | 0 <= i < |items| && items[i].Sym?
      ensures Served(e, s, g, items[i].ac, items[i].tbl)
    {
      ServedByHeader(e, s, c, g, items[i]);
    }
  }

  lemma CoderFits(e: W.Enc, s: W.ScanSpec, c: Scan)
    requires CoderOf(e, s, c)
    ensures ScanOk(c) && W.ScanOk(e, s)
  {
  }

  // ----- Scans without a gathering pass

  /** The scans that need no gathering pass are those whose data has no symbol. */
  lemma ExemptScansHaveNoSymbol(info: Script.ScanInfo, c: Scan, mcus: seq<Mcu>)
    requires ScanOk(c) && T.IsKind(info, c) && c.membership != [] && AreMcus(c, mcus) && mcus != [] && IntervalInRange(c, mcus)
    requires Script.ProgressionOk(info) || (info.ss == 0 && info.se == 63 && info.ah == 0 && info.al == 0)
    ensures PassControl.NeedsTable(info) <==> exists i :: 0 <= i < |IntervalItems(c, mcus)| && IntervalItems(c, mcus)[i].Sym?
  {
    hide IntervalItems, IntervalInRange, IsMcu;
    var items := IntervalItems(c, mcus);
    if c.kind == DcRefine {
      IntervalRegular(c, mcus);
      RegularTables(TablesOf(c), items);
    } else {
      var tbl := if c.kind == AcScan then c.band.tbl else c.dcTbl[c.membership[0]];
      IntervalNamed(c, mcus, tbl);
      assert tbl in if c.kind == AcScan then TablesOf(c).ac else TablesOf(c).dc;
      assert Named(items, c.kind == AcScan, tbl);
      var i :| 0 <= i < |items| && items[i].Sym? && items[i].ac == (c.kind == AcScan) && items[i].tbl == tbl;
    }
  }

  // ----- The frame header

  /** No entry of a component's quantization table exceeds 255. */
  predicate AllNarrow(e: W.Enc) {
    forall i, k :: 0 <= i < |e.comps| && e.comps[i].tq in e.quant && 0 <= k < 64 ==> e.quant[e.comps[i].tq].q[k] <= 255
  }

  /** SOF0 is written exactly for a baseline frame, SOF2 exactly for a progressive one. */
  lemma FrameType(e: W.Enc)
    ensures W.SofCode(e) == 0xC2 <==> e.progressive
    ensures W.SofCode(e) == 0xC0 <==>
      && !e.progressive && e.precision == 8 && AllNarrow(e)
      && forall i :: 0 <= i < |e.comps| ==> e.comps[i].dcTbl <= 1 && e.comps[i].acTbl <= 1
    ensures W.SofCode(e) in {0xC0, 0xC1, 0xC2}
  {
    if W.AnyWide(e, e.comps) {
      var i :| 0 <= i < |e.comps| && e.comps[i].tq in e.quant && B.Wide(e.quant[e.comps[i].tq].q);
      var k :| 0 <= k < 64 && e.quant[e.comps[i].tq].q[k] > 255;
      assert !AllNarrow(e);
    } else {
      forall i, k | 0 <= i < |e.comps| && e.comps[i].tq in e.quant && 0 <= k < 64
        ensures e.quant[e.comps[i].tq].q[k] <= 255
      {
        assert !B.Wide(e.quant[e.comps[i].tq].q);
      }
    }
  }

  /** The frame header ends with that marker, behind the tables, and with its parameters. */
  lemma FrameTypeWritten(e: W.Enc) returns (tables: seq<byte>, rest: seq<byte>)
    requires W.EncOk(e) && W.FrameHeader(e).Ok?
    ensures W.FrameHeader(e).value.bytes == tables + [0xFF, W.SofCode(e)] + rest
    ensures tables == W.DqtsOf(e, e.comps).value.bytes && |rest| == 8 + 3 * |e.comps|
  {
    hide W.DqtsOf, W.AnyWide;
    tables := W.DqtsOf(e, e.comps).value.bytes;
    rest := B.SofBody(e.precision, e.height, e.width, e.comps);
    CompSize(e.comps);
    assert tables + ([0xFF, W.SofCode(e)] + rest) == tables + [0xFF, W.SofCode(e)] + rest;
  }

  lemma {:induction false} CompSize(cs: seq<B.Comp>)
    ensures |B.CompBytes(cs)| == 3 * |cs|
  {
    if cs != [] {
      CompSize(cs[1..]);
    }
  }

  /** A quantization table is written with 16-bit entries exactly if it needs them. */
  lemma TablePrecision(n: nat, q: B.QuantTbl)
    requires n < 4
    ensures B.DqtBody(n, q)[2] == n + (if forall k :: 0 <= k < 64 ==> q[k] <= 255 then 0 else 16)
  {
    hide B.QuantBytes;
  }
}
