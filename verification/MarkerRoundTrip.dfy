/**
 What the compressor writes in its headers is what the decompressor has after reading them: tables that have been sent
 stay in agreement, header after header, and so does the restart interval.
 */
module MarkerRoundTrip {
  import opened Bits
  import opened Wrappers
  import opened Coefficients
  import opened NaturalOrder
  import opened MarkerSegments
  import opened MarkerParsing
  import opened MarkerBytes
  import opened MarkerWriter
  import opened MarkerChunks
  import RestartMarkers

  /** The reader is between markers. */
  predicate Between(st: State) {
    st.unread == 0 && st.sawSoi && st.discarded == 0 && st.skip == 0 && st.cur.None?
  }

  lemma SegmentRead(st: State, m: byte, more: seq<byte>, limits: Limits)
    requires Between(st) && m != 0 && m != 0xFF && st.input == [0xFF, m] + more
    ensures ReadMarkers(st, limits) == ReadMarkers(st.(input := more, unread := m), limits)
  {
    hide Process;
    assert st.input[1..] == [m] + more;
    assert ([m] + more)[1..] == more;
    assert FindMarker(st) == Go(st.(input := more, unread := m));
  }

  lemma SegmentParsed(st: State, m: byte, body: seq<byte>, tail: seq<byte>, g: Fields, limits: Limits)
    requires Between(st) && m in {M_DQT, M_DHT, M_DRI} && st.input == Segment(m, body) + tail
    requires Done(g, |body|) == if m == M_DQT then GetDqt(st.f, body + tail)
                                else if m == M_DHT then GetDht(st.f, body + tail) else GetDri(st.f, body + tail)
    ensures ReadMarkers(st, limits) == ReadMarkers(st.(f := g, input := tail), limits)
  {
    hide GetDqt, GetDht, GetDri;
    assert st.input == [0xFF, m] + (body + tail);
    SegmentRead(st, m, body + tail, limits);
    assert (body + tail)[|body|..] == tail;
    var s := st.(input := body + tail, unread := m);
    assert Step(s, limits) == Go(st.(f := g, input := tail));
  }

  // ----- Agreement on tables

  ghost predicate QuantIn(f: Fields, n: nat, q: QuantTbl) {
    forall k: nat :: k < DCTSIZE2 ==> QuantVal(n, k) in f && f[QuantVal(n, k)] == q[k]
  }

  /** The decompressor has every table that the compressor has sent, and its restart interval. */
  ghost predicate InSync(e: Enc, f: Fields) {
    && (forall n :: n in e.quant && e.quant[n].sent ==> QuantIn(f, n, e.quant[n].q))
    && (forall t :: t in e.huff && e.huff[t].sent ==> HuffIn(f, t.0, t.1, e.huff[t].d))
    && RestartInterval in f && f[RestartInterval] == e.lastInterval
  }

  predicate IsTableCell(c: Cell) {
    c.QuantVal? || c.HuffCount? || c.HuffValue? || c.RestartInterval?
  }

  /** The cells of tables, or the others, are the same. */
  ghost predicate Same(f: Fields, g: Fields, tables: bool) {
    forall c: Cell :: IsTableCell(c) == tables ==> (c in g <==> c in f) && (c in f ==> g[c] == f[c])
  }

  lemma SyncKept(e: Enc, f: Fields, g: Fields)
    requires InSync(e, f) && Same(f, g, true)
    ensures InSync(e, g)
  {
  }

  lemma DqtSync(e: Enc, f: Fields, n: nat)
    requires InSync(e, f) && n in e.quant
    ensures var g := f + QuantCells(n, e.quant[n].q, 0);
      InSync(e.(quant := e.quant[n := e.quant[n].(sent := true)]), g) && Same(f, g, false)
  {
    hide QuantCells;
    var q := e.quant[n].q;
    var g := f + QuantCells(n, q, 0);
    forall c: Cell
      ensures if c.QuantVal? && c.n == n && c.k < DCTSIZE2 then c in g && g[c] == q[c.k]
              else (c in g <==> c in f) && (c in f ==> g[c] == f[c])
    {
      QuantCellIn(n, q, 0, c);
    }
  }

  lemma DhtSync(e: Enc, f: Fields, ac: bool, n: nat)
    requires InSync(e, f) && (ac, n) in e.huff
    ensures var d := e.huff[(ac, n)].d;
      var g := StoreHuff(f, ac, n, d.bits, d.vals);
      InSync(e.(huff := e.huff[(ac, n) := e.huff[(ac, n)].(sent := true)]), g) && Same(f, g, false)
  {
    hide StoreHuff, SumBytes;
    var d := e.huff[(ac, n)].d;
    var g := StoreHuff(f, ac, n, d.bits, d.vals);
    HuffStored(f, ac, n, d, RestartInterval);
    forall c: Cell
      ensures !IsHuffCell(c, ac, n) ==> (c in g <==> c in f) && (c in f ==> g[c] == f[c])
    {
      HuffStored(f, ac, n, d, c);
    }
  }

  // ----- Reading what one routine emits

  lemma DqtReadBack(st: State, e: Enc, n: nat, tail: seq<byte>, limits: Limits) returns (g: Fields)
    requires Between(st) && InSync(e, st.f) && n < NUM_TBLS && DqtOf(e, n).Ok?
    requires st.input == DqtOf(e, n).value.bytes + tail
    ensures ReadMarkers(st, limits) == ReadMarkers(st.(f := g, input := tail), limits)
    ensures InSync(DqtOf(e, n).value.e, g) && Same(st.f, g, false)
  {
    hide InSync, QuantCells, DqtBody, ReadMarkers;
    if e.quant[n].sent {
      g := st.f;
      assert [] + tail == tail;
    } else {
      var q := e.quant[n].q;
      g := st.f + QuantCells(n, q, 0);
      DqtRead(st.f, n, q, tail);
      SegmentParsed(st, M_DQT, DqtBody(n, q), tail, g, limits);
      DqtSync(e, st.f, n);
    }
  }

  lemma DhtReadBack(st: State, e: Enc, ac: bool, n: nat, tail: seq<byte>, limits: Limits) returns (g: Fields)
    requires Between(st) && InSync(e, st.f) && n < NUM_TBLS && DhtOf(e, ac, n).Ok?
    requires st.input == DhtOf(e, ac, n).value.bytes + tail
    ensures ReadMarkers(st, limits) == ReadMarkers(st.(f := g, input := tail), limits)
    ensures InSync(DhtOf(e, ac, n).value.e, g) && Same(st.f, g, false)
  {
    hide InSync, StoreHuff, DhtBody, ReadMarkers, SumBytes;
    if e.huff[(ac, n)].sent {
      g := st.f;
      assert [] + tail == tail;
    } else {
      var d := e.huff[(ac, n)].d;
      g := StoreHuff(st.f, ac, n, d.bits, d.vals);
      DhtRead(st.f, ac, n, d, tail);
      SegmentParsed(st, M_DHT, DhtBody(ac, n, d), tail, g, limits);
      DhtSync(e, st.f, ac, n);
    }
  }

  lemma SameTwice(f: Fields, g: Fields, h: Fields, tables: bool)
    requires Same(f, g, tables) && Same(g, h, tables)
    ensures Same(f, h, tables)
  {
  }

  lemma {:induction false} DqtsReadBack(st: State, e: Enc, cs: seq<Comp>, tail: seq<byte>, limits: Limits) returns (g: Fields)
    requires Between(st) && InSync(e, st.f) && DqtsOf(e, cs).Ok? && st.input == DqtsOf(e, cs).value.bytes + tail
    ensures ReadMarkers(st, limits) == ReadMarkers(st.(f := g, input := tail), limits)
    ensures InSync(DqtsOf(e, cs).value.e, g) && Same(st.f, g, false)
    decreases |cs|
  {
    hide InSync, DqtOf, Same, ReadMarkers;
    if cs == [] {
      g := st.f;
      assert [] + tail == tail;
      SameSelf(st.f);
    } else {
      var x := DqtsOf(e, cs[..|cs| - 1]).value;
      var y := DqtOf(x.e, cs[|cs| - 1].tq).value;
      assert st.input == x.bytes + (y.bytes + tail);
      var f1 := DqtsReadBack(st, e, cs[..|cs| - 1], y.bytes + tail, limits);
      g := DqtReadBack(st.(f := f1, input := y.bytes + tail), x.e, cs[|cs| - 1].tq, tail, limits);
      SameTwice(st.f, f1, g, false);
    }
  }

  lemma SameSelf(f: Fields)
    ensures Same(f, f, false)
  {
  }

  lemma TablesReadBack(st: State, e: Enc, s: ScanSpec, c: Comp, tail: seq<byte>, limits: Limits) returns (g: Fields)
    requires Between(st) && InSync(e, st.f) && TablesOf(e, s, c).Ok? && st.input == TablesOf(e, s, c).value.bytes + tail
    ensures ReadMarkers(st, limits) == ReadMarkers(st.(f := g, input := tail), limits)
    ensures InSync(TablesOf(e, s, c).value.e, g) && Same(st.f, g, false)
  {
    hide InSync, DhtOf, Same, ReadMarkers;
    var x := if NeedsDc(e, s) then DhtOf(e, false, c.dcTbl).value else Emitted(e, []);
    var y := if NeedsAc(e, s) then DhtOf(x.e, true, c.acTbl).value else Emitted(x.e, []);
    assert st.input == x.bytes + (y.bytes + tail);
    var f1 := st.f;
    SameSelf(st.f);
    if NeedsDc(e, s) {
      f1 := DhtReadBack(st, e, false, c.dcTbl, y.bytes + tail, limits);
    } else {
      assert [] + (y.bytes + tail) == y.bytes + tail;
    }
    g := f1;
    if NeedsAc(e, s) {
      g := DhtReadBack(st.(f := f1, input := y.bytes + tail), x.e, true, c.acTbl, tail, limits);
      SameTwice(st.f, f1, g, false);
    } else {
      assert [] + tail == tail;
    }
  }

  lemma {:induction false} DhtsReadBack(st: State, e: Enc, s: ScanSpec, n: nat, tail: seq<byte>, limits: Limits)
    returns (g: Fields)
    requires Between(st) && InSync(e, st.f) && ScanOk(e, s) && n <= |s.comps| && DhtsOf(e, s, n).Ok?
    requires st.input == DhtsOf(e, s, n).value.bytes + tail
    ensures ReadMarkers(st, limits) == ReadMarkers(st.(f := g, input := tail), limits)
    ensures InSync(DhtsOf(e, s, n).value.e, g) && Same(st.f, g, false)
    decreases n
  {
    hide InSync, TablesOf, Same, ReadMarkers;
    if n == 0 {
      g := st.f;
      assert [] + tail == tail;
      SameSelf(st.f);
    } else {
      var x := DhtsOf(e, s, n - 1).value;
      var y := TablesOf(x.e, s, x.e.comps[s.comps[n - 1]]).value;
      assert st.input == x.bytes + (y.bytes + tail);
      var f1 := DhtsReadBack(st, e, s, n - 1, y.bytes + tail, limits);
      g := TablesReadBack(st.(f := f1, input := y.bytes + tail), x.e, s, x.e.comps[s.comps[n - 1]], tail, limits);
      SameTwice(st.f, f1, g, false);
    }
  }

  lemma DriReadBack(st: State, e: Enc, tail: seq<byte>, limits: Limits) returns (g: Fields)
    requires Between(st) && InSync(e, st.f) && e.interval < 65536 && st.input == DriOf(e).bytes + tail
    ensures ReadMarkers(st, limits) == ReadMarkers(st.(f := g, input := tail), limits)
    ensures InSync(DriOf(e).e, g) && Same(st.f, g, false) && g[RestartInterval] == e.interval
  {
    hide DriBody, ReadMarkers;
    if e.interval != e.lastInterval {
      g := st.f[RestartInterval := e.interval];
      DriRead(st.f, e.interval, tail);
      SegmentParsed(st, M_DRI, DriBody(e.interval), tail, g, limits);
    } else {
      g := st.f;
      assert [] + tail == tail;
    }
  }

  // ----- The frame header

  /** The fields that the frame header gives */
  ghost predicate FrameIn(e: Enc, f: Fields) {
    && Has(f, NumComponents, |e.comps|) && Has(f, Height, e.height) && Has(f, Width, e.width)
    && Has(f, Precision, e.precision) && Has(f, Progressive, ToInt(e.progressive)) && Has(f, Arith, 0)
    && forall ci: nat :: ci < |e.comps| ==>
      && Has(f, CompId(ci), e.comps[ci].id) && Has(f, HSamp(ci), e.comps[ci].h)
      && Has(f, VSamp(ci), e.comps[ci].v) && Has(f, QuantNo(ci), e.comps[ci].tq)
  }

  predicate Has(f: Fields, c: Cell, v: int) {
    c in f && f[c] == v
  }

  /** The component that a cell of CompCells belongs to */
  function CompOf(c: Cell): Option<nat> {
    if c.CompId? || c.HSamp? || c.VSamp? || c.QuantNo? then Some(c.ci) else None
  }

  function CompField(k: Comp, c: Cell): int {
    if c.CompId? then k.id else if c.HSamp? then k.h else if c.VSamp? then k.v else k.tq
  }

  lemma {:induction false} CompCellIn(f: Fields, cs: seq<Comp>, ci: nat, c: Cell)
    ensures var g := CompCells(f, cs, ci);
      if CompOf(c).Some? && ci <= CompOf(c).value < ci + |cs| then Has(g, c, CompField(cs[CompOf(c).value - ci], c))
      else (c in g <==> c in f) && (c in f ==> g[c] == f[c])
    decreases |cs|
  {
    if cs != [] {
      var f1 := f[CompId(ci) := cs[0].id][HSamp(ci) := cs[0].h][VSamp(ci) := cs[0].v][QuantNo(ci) := cs[0].tq];
      CompCellIn(f1, cs[1..], ci + 1, c);
    }
  }

  lemma SofStored(e: Enc, f: Fields)
    requires EncOk(e)
    ensures var g := SofCells(f, e.progressive, e.precision, e.height, e.width, e.comps);
      FrameIn(e, g) && Same(f, g, true)
  {
    hide CompCells;
    var f1 := f[Progressive := ToInt(e.progressive)][Arith := 0][Precision := e.precision][Height := e.height]
               [Width := e.width][NumComponents := |e.comps|];
    var g := SofCells(f, e.progressive, e.precision, e.height, e.width, e.comps);
    forall c: Cell | IsTableCell(c)
      ensures (c in g <==> c in f) && (c in f ==> g[c] == f[c])
    {
      CompCellIn(f1, e.comps, 0, c);
    }
    SofFrame(e, f1);
  }

  lemma SofFrame(e: Enc, f: Fields)
    requires Has(f, Progressive, ToInt(e.progressive)) && Has(f, Arith, 0) && Has(f, Precision, e.precision)
    requires Has(f, Height, e.height) && Has(f, Width, e.width) && Has(f, NumComponents, |e.comps|)
    ensures FrameIn(e, CompCells(f, e.comps, 0))
  {
    hide CompCells;
    var g := CompCells(f, e.comps, 0);
    CompCellIn(f, e.comps, 0, Progressive);
    CompCellIn(f, e.comps, 0, Arith);
    CompCellIn(f, e.comps, 0, Precision);
    CompCellIn(f, e.comps, 0, Height);
    CompCellIn(f, e.comps, 0, Width);
    CompCellIn(f, e.comps, 0, NumComponents);
    forall ci: nat | ci < |e.comps|
      ensures Has(g, CompId(ci), e.comps[ci].id) && Has(g, HSamp(ci), e.comps[ci].h)
      ensures Has(g, VSamp(ci), e.comps[ci].v) && Has(g, QuantNo(ci), e.comps[ci].tq)
    {
      CompCellIn(f, e.comps, 0, CompId(ci));
      CompCellIn(f, e.comps, 0, HSamp(ci));
      CompCellIn(f, e.comps, 0, VSamp(ci));
      CompCellIn(f, e.comps, 0, QuantNo(ci));
    }
  }

  /** Tables are as they were, but more of them are sent. */
  predicate SentMore(e: Enc, g: Enc) {
    SameTables(e, g) && forall n :: n in e.quant && e.quant[n].sent ==> g.quant[n].sent
  }

  lemma DqtSends(e: Enc, n: nat)
    requires n < NUM_TBLS && DqtOf(e, n).Ok?
    ensures SentMore(e, DqtOf(e, n).value.e) && n in e.quant && DqtOf(e, n).value.e.quant[n].sent
  {
    hide DqtBody;
  }

  lemma SentMoreTwice(e: Enc, g: Enc, h: Enc)
    requires SentMore(e, g) && SentMore(g, h)
    ensures SentMore(e, h)
  {
  }

  /** Every quantization table that a component names has been sent when the frame header has. */
  lemma {:induction false} QuantTablesSent(e: Enc, cs: seq<Comp>)
    requires DqtsOf(e, cs).Ok?
    ensures var g := DqtsOf(e, cs).value.e;
      SentMore(e, g) && forall i :: 0 <= i < |cs| ==> cs[i].tq in g.quant && g.quant[cs[i].tq].sent
    decreases |cs|
  {
    hide DqtOf;
    if cs != [] {
      var h := DqtsOf(e, cs[..|cs| - 1]).value.e;
      QuantTablesSent(e, cs[..|cs| - 1]);
      DqtSends(h, cs[|cs| - 1].tq);
      SentMoreTwice(e, h, DqtsOf(e, cs).value.e);
      assert forall i :: 0 <= i < |cs| - 1 ==> cs[..|cs| - 1][i] == cs[i];
    }
  }

  /**
   The decompressor reads a frame header: it has the frame's fields, and every table that has been sent, among them the
   quantization table of each component.
   */
  lemma FrameHeaderRoundTrip(st: State, e: Enc, tail: seq<byte>, limits: Limits) returns (g: Fields)
    requires Between(st) && !st.sawSof && EncOk(e) && InSync(e, st.f) && FrameHeader(e).Ok?
    requires st.input == FrameHeader(e).value.bytes + tail
    ensures ReadMarkers(st, limits) == ReadMarkers(st.(f := g, input := tail, sawSof := true), limits)
    ensures var e1 := FrameHeader(e).value.e;
      && InSync(e1, g) && FrameIn(e, g) && FrameIn(e1, g) && SameTables(e, e1)
      && forall i :: 0 <= i < |e.comps| ==> e.comps[i].tq in e.quant && QuantIn(g, e.comps[i].tq, e.quant[e.comps[i].tq].q)
  {
    hide InSync, DqtsOf, ReadMarkers, SofBody, SofCells, Same, FrameIn, QuantIn, SofCode;
    var x := DqtsOf(e, e.comps).value;
    var body, m := SofBody(e.precision, e.height, e.width, e.comps), SofCode(e);
    QuantTablesSent(e, e.comps);
    assert st.input == x.bytes + (Segment(m, body) + tail);
    var f1 := DqtsReadBack(st, e, e.comps, Segment(m, body) + tail, limits);
    g := SofCells(f1, e.progressive, e.precision, e.height, e.width, e.comps);
    SofParsing(st.(f := f1, input := Segment(m, body) + tail), e, tail, limits);
    SofStored(e, f1);
    SyncKept(x.e, f1, g);
    FrameOfTables(e, x.e, g);
    SentMeansIn(x.e, g);
  }

  lemma FrameOfTables(e: Enc, e1: Enc, f: Fields)
    requires FrameIn(e, f) && SameTables(e, e1)
    ensures FrameIn(e1, f)
  {
  }

  lemma SentMeansIn(e: Enc, f: Fields)
    requires InSync(e, f)
    ensures forall n :: n in e.quant && e.quant[n].sent ==> QuantIn(f, n, e.quant[n].q)
    ensures forall t :: t in e.huff && e.huff[t].sent ==> HuffIn(f, t.0, t.1, e.huff[t].d)
    ensures RestartInterval in f && f[RestartInterval] == e.lastInterval
  {
  }

  lemma SofParsing(st: State, e: Enc, tail: seq<byte>, limits: Limits)
    requires Between(st) && !st.sawSof && EncOk(e) && e.height < 65536 && e.width < 65536
    requires st.input == Segment(SofCode(e), SofBody(e.precision, e.height, e.width, e.comps)) + tail
    ensures var g := SofCells(st.f, e.progressive, e.precision, e.height, e.width, e.comps);
      ReadMarkers(st, limits) == ReadMarkers(st.(f := g, input := tail, sawSof := true), limits)
  {
    hide GetSof, SofCells, SofBody, AnyWide;
    var body, m := SofBody(e.precision, e.height, e.width, e.comps), SofCode(e);
    assert st.input == [0xFF, m] + (body + tail);
    SegmentRead(st, m, body + tail, limits);
    SofRead(st.f, e.progressive, e.precision, e.height, e.width, e.comps, tail);
    assert (body + tail)[|body|..] == tail;
    var s := st.(input := body + tail, unread := m);
    var g := SofCells(st.f, e.progressive, e.precision, e.height, e.width, e.comps);
    assert Step(s, limits) == Go(st.(f := g, input := tail, sawSof := true));
  }

  // ----- The scan header

  /** The fields that the scan header gives, with the numbers of the tables that the scan uses, and zero for others */
  ghost predicate ScanIn(e: Enc, s: ScanSpec, f: Fields)
    requires ScanOk(e, s)
  {
    && Has(f, CompsInScan, |s.comps|) && Has(f, Ss, s.ss) && Has(f, Se, s.se) && Has(f, Ah, s.ah) && Has(f, Al, s.al)
    && Has(f, NextRestartNum, 0)
    && forall i: nat :: i < |s.comps| ==>
      var ci := s.comps[i];
      && Has(f, CurComp(i), ci) && Has(f, DcTblNo(ci), if NeedsDc(e, s) then e.comps[ci].dcTbl else 0)
      && Has(f, AcTblNo(ci), if NeedsAc(e, s) then e.comps[ci].acTbl else 0)
  }

  predicate Consistent(ss: seq<Spec>) {
    forall i, j :: 0 <= i < |ss| && 0 <= j < |ss| && ss[i].ci == ss[j].ci ==> ss[i] == ss[j]
  }

  predicate IsSpecCell(c: Cell) {
    c.CurComp? || c.DcTblNo? || c.AcTblNo?
  }

  lemma {:induction false} SpecCellsElse(f: Fields, ss: seq<Spec>, i: nat, c: Cell)
    ensures var g := SpecCells(f, ss, i);
      || ((c in g <==> c in f) && (c in f ==> g[c] == f[c]))
      || (c.CurComp? && i <= c.i < i + |ss|)
      || ((c.DcTblNo? || c.AcTblNo?) && exists j :: 0 <= j < |ss| && ss[j].ci == c.ci)
    decreases |ss|
  {
    if ss != [] {
      var f1 := f[CurComp(i) := ss[0].ci][DcTblNo(ss[0].ci) := ss[0].td][AcTblNo(ss[0].ci) := ss[0].ta];
      SpecCellsElse(f1, ss[1..], i + 1, c);
      if (c.DcTblNo? || c.AcTblNo?) && exists j :: 0 <= j < |ss[1..]| && ss[1..][j].ci == c.ci {
        var j :| 0 <= j < |ss[1..]| && ss[1..][j].ci == c.ci;
        assert ss[j + 1].ci == c.ci;
      }
    }
  }

  lemma {:induction false} SpecsStored(f: Fields, ss: seq<Spec>, i: nat, k: nat)
    requires Consistent(ss) && k < |ss|
    ensures var g := SpecCells(f, ss, i);
      Has(g, CurComp(i + k), ss[k].ci) && Has(g, DcTblNo(ss[k].ci), ss[k].td) && Has(g, AcTblNo(ss[k].ci), ss[k].ta)
    decreases |ss|
  {
    var s, rest := ss[0], ss[1..];
    var f1 := f[CurComp(i) := s.ci][DcTblNo(s.ci) := s.td][AcTblNo(s.ci) := s.ta];
    if k > 0 {
      SpecsStored(f1, rest, i + 1, k - 1);
    } else {
      SpecCellsElse(f1, rest, i + 1, CurComp(i));
      if j :| 0 <= j < |rest| && rest[j].ci == s.ci {
        SpecsStored(f1, rest, i + 1, j);
      } else {
        SpecCellsElse(f1, rest, i + 1, DcTblNo(s.ci));
        SpecCellsElse(f1, rest, i + 1, AcTblNo(s.ci));
      }
    }
  }

  predicate IsScanCell(c: Cell) {
    IsSpecCell(c) || c.CompsInScan? || c.Ss? || c.Se? || c.Ah? || c.Al? || c.NextRestartNum?
  }

  lemma SosElse(f: Fields, ss: seq<Spec>, from: byte, to: byte, ah: nat, al: nat, c: Cell)
    requires !IsScanCell(c)
    ensures var g := SosCells(f, ss, from, to, ah, al); (c in g <==> c in f) && (c in f ==> g[c] == f[c])
  {
    hide SpecCells;
    SpecCellsElse(f[CompsInScan := |ss|], ss, 0, c);
  }

  lemma SosScan(f: Fields, ss: seq<Spec>, from: byte, to: byte, ah: nat, al: nat)
    requires Consistent(ss)
    ensures var g := SosCells(f, ss, from, to, ah, al);
      && Has(g, CompsInScan, |ss|) && Has(g, Ss, from) && Has(g, Se, to) && Has(g, Ah, ah) && Has(g, Al, al)
      && Has(g, NextRestartNum, 0)
      && forall k :: 0 <= k < |ss| ==>
        Has(g, CurComp(k), ss[k].ci) && Has(g, DcTblNo(ss[k].ci), ss[k].td) && Has(g, AcTblNo(ss[k].ci), ss[k].ta)
  {
    hide SpecCells, Consistent;
    var f1 := f[CompsInScan := |ss|];
    SpecCellsElse(f1, ss, 0, CompsInScan);
    forall k | 0 <= k < |ss|
      ensures var g := SosCells(f, ss, from, to, ah, al);
        Has(g, CurComp(k), ss[k].ci) && Has(g, DcTblNo(ss[k].ci), ss[k].td) && Has(g, AcTblNo(ss[k].ci), ss[k].ta)
    {
      SpecsStored(f1, ss, 0, k);
    }
  }

  lemma FrameKeptBySos(e: Enc, f: Fields, g: Fields)
    requires FrameIn(e, f) && forall c: Cell :: !IsScanCell(c) ==> (c in g <==> c in f) && (c in f ==> g[c] == f[c])
    ensures FrameIn(e, g)
  {
  }

  lemma SosStored(e: Enc, s: ScanSpec, f: Fields)
    requires ScanOk(e, s)
    ensures var g := SosCells(f, Specs(e, s, |s.comps|), s.ss, s.se, s.ah, s.al);
      && ScanIn(e, s, g) && Same(f, g, true) && (FrameIn(e, f) ==> FrameIn(e, g))
  {
    hide SosCells, FrameIn, ScanIn;
    var ss := Specs(e, s, |s.comps|);
    var g := SosCells(f, ss, s.ss, s.se, s.ah, s.al);
    forall c: Cell | !IsScanCell(c)
      ensures (c in g <==> c in f) && (c in f ==> g[c] == f[c])
    {
      SosElse(f, ss, s.ss, s.se, s.ah, s.al, c);
    }
    if FrameIn(e, f) {
      FrameKeptBySos(e, f, g);
    }
    SosMeansScan(e, s, f);
  }

  lemma SosMeansScan(e: Enc, s: ScanSpec, f: Fields)
    requires ScanOk(e, s)
    ensures ScanIn(e, s, SosCells(f, Specs(e, s, |s.comps|), s.ss, s.se, s.ah, s.al))
  {
    hide SosCells, Has;
    var ss := Specs(e, s, |s.comps|);
    var g := SosCells(f, ss, s.ss, s.se, s.ah, s.al);
    SosScan(f, ss, s.ss, s.se, s.ah, s.al);
    SpecsMeanScan(e, s, g);
  }

  lemma SpecsMeanScan(e: Enc, s: ScanSpec, g: Fields)
    requires ScanOk(e, s)
    requires var ss := Specs(e, s, |s.comps|);
      forall k :: 0 <= k < |ss| ==>
        Has(g, CurComp(k), ss[k].ci) && Has(g, DcTblNo(ss[k].ci), ss[k].td) && Has(g, AcTblNo(ss[k].ci), ss[k].ta)
    ensures forall i: nat :: i < |s.comps| ==>
      var ci := s.comps[i];
      && Has(g, CurComp(i), ci) && Has(g, DcTblNo(ci), if NeedsDc(e, s) then e.comps[ci].dcTbl else 0)
      && Has(g, AcTblNo(ci), if NeedsAc(e, s) then e.comps[ci].acTbl else 0)
  {
    hide Has;
    var ss := Specs(e, s, |s.comps|);
    forall i: nat | i < |s.comps|
      ensures ss[i].ci == s.comps[i] && ss[i] == SpecOf(e, s, s.comps[i])
    {
    }
  }

  /** With distinct ids, an id leads to its component. */
  lemma NamesFound(e: Enc, s: ScanSpec, f: Fields)
    requires EncOk(e) && ScanOk(e, s) && FrameIn(e, f)
    ensures SpecsNamed(Ids(f), Specs(e, s, |s.comps|))
  {
    var ids, ss := Ids(f), Specs(e, s, |s.comps|);
    assert |ids| == |e.comps|;
    forall ci: nat | ci < |e.comps|
      ensures ids[ci] == e.comps[ci].id
    {
      assert Has(f, CompId(ci), e.comps[ci].id);
    }
    forall i | 0 <= i < |ss|
      ensures ss[i].ci < |ids| && FindId(ids, ss[i].id, 0) == ss[i].ci
    {
      var r := FindId(ids, ss[i].id, 0);
      assert ids[ss[i].ci] == ss[i].id;
    }
  }

  /** Every Huffman table that the scan uses has been sent when its header has. */
  lemma {:induction false} HuffTablesSent(e: Enc, s: ScanSpec, n: nat)
    requires ScanOk(e, s) && n <= |s.comps| && DhtsOf(e, s, n).Ok?
    ensures var g := DhtsOf(e, s, n).value.e;
      SameHuffs(e, g) && forall i :: 0 <= i < n ==> TablesSent(e, s, e.comps[s.comps[i]], g)
    decreases n
  {
    hide TablesOf, TablesSent, SameHuffs;
    if n == 0 {
      SameHuffsSelf(e);
    } else {
      var h := DhtsOf(e, s, n - 1).value.e;
      HuffTablesSent(e, s, n - 1);
      TablesSend(h, s, e.comps[s.comps[n - 1]]);
      var g := DhtsOf(e, s, n).value.e;
      forall i | 0 <= i < n
        ensures TablesSent(e, s, e.comps[s.comps[i]], g)
      {
        SentOn(e, h, g, s, e.comps[s.comps[i]]);
      }
      SentOn(e, h, g, s, e.comps[s.comps[n - 1]]);
    }
  }

  /** Huffman tables are as they were, but more of them are sent. */
  predicate SameHuffs(e: Enc, g: Enc) {
    && g == e.(huff := g.huff) && g.huff.Keys == e.huff.Keys
    && forall t :: t in e.huff ==> g.huff[t].d == e.huff[t].d && (e.huff[t].sent ==> g.huff[t].sent)
  }

  /** The tables that a component needs in the scan are sent. */
  predicate TablesSent(e: Enc, s: ScanSpec, c: Comp, g: Enc) {
    && (NeedsDc(e, s) ==> (false, c.dcTbl) in g.huff && g.huff[(false, c.dcTbl)].sent)
    && (NeedsAc(e, s) ==> (true, c.acTbl) in g.huff && g.huff[(true, c.acTbl)].sent)
  }

  lemma SameHuffsSelf(e: Enc)
    ensures SameHuffs(e, e)
  {
  }

  lemma TablesSend(e: Enc, s: ScanSpec, c: Comp)
    requires TablesOf(e, s, c).Ok?
    ensures SameHuffs(e, TablesOf(e, s, c).value.e) && TablesSent(e, s, c, TablesOf(e, s, c).value.e)
  {
    hide DhtBody;
  }

  lemma SentOn(e: Enc, h: Enc, g: Enc, s: ScanSpec, c: Comp)
    requires SameHuffs(e, h) && SameHuffs(h, g)
    ensures SameHuffs(e, g) && (TablesSent(e, s, c, h) || TablesSent(h, s, c, g) ==> TablesSent(e, s, c, g))
  {
  }

  /** The tables of a scan's components, as the decompressor has them */
  ghost predicate ScanTablesIn(e: Enc, s: ScanSpec, f: Fields)
    requires ScanOk(e, s)
  {
    forall i :: 0 <= i < |s.comps| ==>
      var c := e.comps[s.comps[i]];
      && (NeedsDc(e, s) ==> (false, c.dcTbl) in e.huff && HuffIn(f, false, c.dcTbl, e.huff[(false, c.dcTbl)].d))
      && (NeedsAc(e, s) ==> (true, c.acTbl) in e.huff && HuffIn(f, true, c.acTbl, e.huff[(true, c.acTbl)].d))
  }

  /**
   The decompressor reads a scan header and stops behind it: it has the scan's fields, the restart interval and the
   Huffman tables that the scan uses, and agrees with the compressor on every table that has been sent.
   */
  lemma ScanHeaderRoundTrip(st: State, e: Enc, s: ScanSpec, tail: seq<byte>, limits: Limits) returns (g: Fields)
    requires Between(st) && st.sawSof && EncOk(e) && ScanOk(e, s) && InSync(e, st.f) && FrameIn(e, st.f)
    requires ScanHeader(e, s).Ok? && st.input == ScanHeader(e, s).value.bytes + tail
    ensures ReadMarkers(st, limits) == ReachedSos(st.(f := g, input := tail, scans := st.scans + 1))
    ensures InSync(ScanHeader(e, s).value.e, g) && FrameIn(ScanHeader(e, s).value.e, g)
    ensures ScanIn(e, s, g) && ScanTablesIn(e, s, g) && g[RestartInterval] == e.interval
  {
    hide InSync, DhtsOf, ReadMarkers, SosBody, SosCells, Same, FrameIn, ScanIn, SosOf, DriOf, HuffIn;
    var x := DhtsOf(e, s, |s.comps|).value;
    var y := DriOf(x.e);
    HuffTablesSent(e, s, |s.comps|);
    assert st.input == x.bytes + (y.bytes + (SosOf(e, s) + tail));
    var f1 := DhtsReadBack(st, e, s, |s.comps|, y.bytes + (SosOf(e, s) + tail), limits);
    var f2 := DriReadBack(st.(f := f1, input := y.bytes + (SosOf(e, s) + tail)), x.e, SosOf(e, s) + tail, limits);
    g := SosCells(f2, Specs(e, s, |s.comps|), s.ss, s.se, s.ah, s.al);
    SameTwice(st.f, f1, f2, false);
    FrameKept(e, st.f, f2);
    SosParsing(st.(f := f2, input := SosOf(e, s) + tail), e, s, tail, limits);
    SosStored(e, s, f2);
    SyncKept(y.e, f2, g);
    SentMeansIn(y.e, g);
    DriKeeps(x.e);
    FrameOfEncoder(e, y.e, g);
  }

  lemma DriKeeps(e: Enc)
    requires e.interval < 65536
    ensures DriOf(e).e == e.(lastInterval := e.interval)
  {
  }

  lemma FrameKept(e: Enc, f: Fields, g: Fields)
    requires FrameIn(e, f) && Same(f, g, false)
    ensures FrameIn(e, g)
  {
  }

  lemma FrameOfEncoder(e: Enc, e1: Enc, f: Fields)
    requires FrameIn(e, f) && e1 == e.(huff := e1.huff, lastInterval := e1.lastInterval)
    ensures FrameIn(e1, f)
  {
  }

  lemma SosParsing(st: State, e: Enc, s: ScanSpec, tail: seq<byte>, limits: Limits)
    requires Between(st) && st.sawSof && EncOk(e) && ScanOk(e, s) && FrameIn(e, st.f) && st.input == SosOf(e, s) + tail
    ensures var g := SosCells(st.f, Specs(e, s, |s.comps|), s.ss, s.se, s.ah, s.al);
      ReadMarkers(st, limits) == ReachedSos(st.(f := g, input := tail, scans := st.scans + 1))
  {
    hide GetSos, SosCells, SosBody, Ids, FrameIn;
    var ss := Specs(e, s, |s.comps|);
    var body := SosBody(ss, s.ss, s.se, s.ah, s.al);
    assert st.input == [0xFF, M_SOS] + (body + tail);
    SegmentRead(st, M_SOS, body + tail, limits);
    NamesFound(e, s, st.f);
    SosRead(st.f, Ids(st.f), ss, s.ss, s.se, s.ah, s.al, tail);
    assert (body + tail)[|body|..] == tail;
    var q := st.(input := body + tail, unread := M_SOS);
    var g := SosCells(st.f, ss, s.ss, s.se, s.ah, s.al);
    assert Step(q, limits) == Stop(ReachedSos(st.(f := g, input := tail, scans := st.scans + 1)));
  }

  // ----- In any pieces

  /** An empty reader between markers, with what it is then fed */
  lemma FedFromEmpty(st: State, b: seq<byte>)
    requires Between(st) && st.input == []
    ensures Wf(st) && Feed(st, b) == st.(input := b)
  {
    assert [] + b[0..] == b;
  }

  /** The frame header and the first scan header, in any pieces */
  lemma HeadersInPieces(st: State, e: Enc, s: ScanSpec, tail: seq<byte>, chunks: seq<seq<byte>>, limits: Limits)
    returns (g: Fields)
    requires Between(st) && !st.sawSof && st.input == [] && EncOk(e) && InSync(e, st.f) && FrameHeader(e).Ok?
    requires ScanOk(e, s) && ScanHeader(FrameHeader(e).value.e, s).Ok?
    requires Concat(chunks) == FrameHeader(e).value.bytes + (ScanHeader(FrameHeader(e).value.e, s).value.bytes + tail)
    ensures Drive(st, chunks, limits)
         == ReachedSos(st.(f := g, input := tail, sawSof := true, scans := st.scans + 1))
    ensures var e1 := FrameHeader(e).value.e;
      && InSync(ScanHeader(e1, s).value.e, g) && FrameIn(e1, g) && ScanIn(e1, s, g) && ScanTablesIn(e1, s, g)
      && g[RestartInterval] == e.interval
  {
    hide InSync, FrameIn, ReadMarkers, FrameHeader, ScanHeader, ScanIn, ScanTablesIn, Drive;
    var e1 := FrameHeader(e).value.e;
    var more := ScanHeader(e1, s).value.bytes + tail;
    ChunkingIsTransparent(st, chunks, limits);
    FedFromEmpty(st, Concat(chunks));
    var g1 := FrameHeaderRoundTrip(st.(input := Concat(chunks)), e, more, limits);
    g := ScanHeaderRoundTrip(st.(f := g1, input := more, sawSof := true), e1, s, tail, limits);
    FrameBack(e1, ScanHeader(e1, s).value.e, s, g);
  }

  lemma FrameBack(e: Enc, e1: Enc, s: ScanSpec, g: Fields)
    requires EncOk(e) && ScanOk(e, s) && ScanHeader(e, s).Ok? && e1 == ScanHeader(e, s).value.e && FrameIn(e1, g)
    ensures FrameIn(e, g)
  {
    HuffTablesSent(e, s, |s.comps|);
    DriKeeps(DhtsOf(e, s, |s.comps|).value.e);
  }

  /** Of a marker that is to be saved, exactly the first limit bytes are kept, or all of it if it is shorter. */
  lemma SavedInPieces(st: State, m: byte, data: seq<byte>, tail: seq<byte>, chunks: seq<seq<byte>>, limits: Limits)
    requires Between(st) && st.input == [] && (M_APP0 <= m <= M_APP15 || m == M_COM) && m in limits && |data| < 65534
    requires Concat(chunks) == [0xFF, m] + (Be(|data| + 2) + (data + tail))
    ensures var kept := data[..Least(|data|, limits[m])];
      Drive(st, chunks, limits)
      == ReadMarkers(st.(input := tail, saved := st.saved + [Saved(m, |data|, kept)]), limits)
  {
    hide ReadMarkers, Drive;
    var b := Be(|data| + 2) + (data + tail);
    ChunkingIsTransparent(st, chunks, limits);
    FedFromEmpty(st, Concat(chunks));
    SegmentRead(st.(input := Concat(chunks)), m, b, limits);
    SaveStep(st, m, data, tail, limits);
    var limit := Least(|data|, limits[m]);
    var done := st.(input := tail, saved := st.saved + [Saved(m, |data|, data[..limit])]);
    StepThenRead(st.(input := b, unread := m), done, limits);
  }

  lemma SaveStep(st: State, m: byte, data: seq<byte>, tail: seq<byte>, limits: Limits)
    requires Between(st) && (M_APP0 <= m <= M_APP15 || m == M_COM) && m in limits && |data| < 65534
    ensures Step(st.(input := Be(|data| + 2) + (data + tail), unread := m), limits)
         == Go(st.(input := tail, saved := st.saved + [Saved(m, |data|, data[..Least(|data|, limits[m])])]))
  {
    var b, limit := Be(|data| + 2) + (data + tail), Least(|data|, limits[m]);
    assert b[0..] == b;
    BeAt(b, 0, |data| + 2, data + tail);
    KeepAndSkip(st.(input := data + tail, unread := m), data, tail, limit);
  }

  lemma KeepAndSkip(st: State, data: seq<byte>, tail: seq<byte>, limit: nat)
    requires st.skip == 0 && st.cur.None? && limit <= |data| && st.input == data + tail
    ensures SaveData(st, Partial(|data|, limit, []))
         == Go(st.(input := tail, saved := st.saved + [Saved(st.unread, |data|, data[..limit])], unread := 0))
  {
    assert st.input[..limit] == data[..limit] && [] + data[..limit] == data[..limit];
    assert st.input[limit..] == data[limit..] + tail;
    assert (data[limit..] + tail)[|data| - limit..] == tail;
  }

  /** A marker that is not to be saved, APPn, COM, DAC or DNL, is passed over, whatever it holds; nothing else changes. */
  lemma UnsavedInPieces(st: State, m: byte, data: seq<byte>, tail: seq<byte>, chunks: seq<seq<byte>>, limits: Limits)
    requires Between(st) && st.input == [] && (0xE0 <= m <= 0xEF || m == 0xFE || m == 0xCC || m == 0xDC)
    requires m !in limits && |data| < 65534
    requires Concat(chunks) == [0xFF, m] + (Be(|data| + 2) + (data + tail))
    ensures Drive(st, chunks, limits) == ReadMarkers(st.(input := tail), limits)
  {
    hide ReadMarkers, Drive;
    var b := Be(|data| + 2) + (data + tail);
    ChunkingIsTransparent(st, chunks, limits);
    FedFromEmpty(st, Concat(chunks));
    SegmentRead(st.(input := Concat(chunks)), m, b, limits);
    SkipStep(st, m, data, tail, limits);
    StepThenRead(st.(input := b, unread := m), st.(input := tail), limits);
  }

  lemma SkipStep(st: State, m: byte, data: seq<byte>, tail: seq<byte>, limits: Limits)
    requires Between(st) && (0xE0 <= m <= 0xEF || m == 0xFE || m == 0xCC || m == 0xDC) && m !in limits && |data| < 65534
    ensures Step(st.(input := Be(|data| + 2) + (data + tail), unread := m), limits) == Go(st.(input := tail))
  {
    hide GetSof, GetSos, GetDht, GetDqt, GetDri, Parsed, SofParsed, SosParsed, SaveMarker, GetSoi, GetInterestingAppn,
         SkipVariable;
    SkipsAll(st, m, data, tail);
    AppnSkipsAll(st, m, data, tail);
  }

  lemma SkipsAll(st: State, m: byte, data: seq<byte>, tail: seq<byte>)
    requires Between(st) && |data| < 65534
    ensures SkipVariable(st.(input := Be(|data| + 2) + (data + tail), unread := m)) == Go(st.(input := tail))
  {
    var b := Be(|data| + 2) + (data + tail);
    assert b[0..] == b;
    BeAt(b, 0, |data| + 2, data + tail);
    assert b[2..] == data + tail && (data + tail)[|data|..] == tail;
  }

  lemma AppnSkipsAll(st: State, m: byte, data: seq<byte>, tail: seq<byte>)
    requires Between(st) && |data| < 65534
    ensures GetInterestingAppn(st.(input := Be(|data| + 2) + (data + tail), unread := m)) == Go(st.(input := tail))
  {
    var b := Be(|data| + 2) + (data + tail);
    assert b[0..] == b;
    BeAt(b, 0, |data| + 2, data + tail);
    var read := Least(14, |data|);
    assert b[2 + read..] == data[read..] + tail;
    assert (data[read..] + tail)[|data| - read..] == tail;
  }

  lemma StepThenRead(s: State, t: State, limits: Limits)
    requires Step(s, limits) == Go(t)
    ensures ReadMarkers(s, limits) == ReadMarkers(t, limits)
  {
  }
}
