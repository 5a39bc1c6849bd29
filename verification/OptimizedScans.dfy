/**
 Two passes over a scan, as with optimize_coding: statistics are gathered, tables are made of them, and the scan is
 coded with these.  The second pass never lacks a code, and the tables are those of Huffman's procedure.
 */
module ScanStatistics {
  import opened Bits
  import opened Wrappers
  import opened HuffmanTables
  import opened Symbols
  import opened Emitters
  import opened Coefficients
  import opened SequentialCodec
  import opened AcBand
  import opened AcSegment
  import opened AcRoundTrip
  import opened McuCodec
  import opened ScanRoundTrip
  import opened EncoderSpec
  import opened HuffmanProcedure
  import opened GatheredTables

  lemma {:induction false} ScanRegular(c: Scan, interval: nat, mcus: seq<Mcu>)
    requires ScanOk(c) && AreMcus(c, mcus) && ScanInRange(c, interval, mcus)
    ensures AllRegular(TablesOf(c), ScanItems(c, interval, mcus))
    decreases |mcus|
  {
    hide AllRegular, IntervalItems, IntervalInRange, IsMcu, TablesOf;
    if OneSegment(interval, mcus) {
      IntervalRegular(c, mcus);
    } else {
      IntervalRegular(c, mcus[..interval]);
      ScanRegular(c, interval, mcus[interval..]);
      ConcatRegular(TablesOf(c), IntervalItems(c, mcus[..interval]), ScanItems(c, interval, mcus[interval..]));
    }
  }

  // ----- Every table that the scan uses has a symbol

  /** A symbol of the table occurs among the items. */
  ghost predicate Named(items: seq<Item>, ac: bool, tbl: nat) {
    exists i :: 0 <= i < |items| && items[i].Sym? && items[i].ac == ac && items[i].tbl == tbl
  }

  lemma NamedConcat(a: seq<Item>, b: seq<Item>, ac: bool, tbl: nat)
    ensures Named(a, ac, tbl) || Named(b, ac, tbl) ==> Named(a + b, ac, tbl)
  {
    if Named(a, ac, tbl) {
      var i :| 0 <= i < |a| && a[i].Sym? && a[i].ac == ac && a[i].tbl == tbl;
      assert (a + b)[i] == a[i];
    } else if Named(b, ac, tbl) {
      var i :| 0 <= i < |b| && b[i].Sym? && b[i].ac == ac && b[i].tbl == tbl;
      assert (a + b)[|a| + i] == b[i];
    }
  }

  lemma NamedFirst(it: Item, more: seq<Item>)
    requires it.Sym?
    ensures Named([it] + more, it.ac, it.tbl)
  {
    assert ([it] + more)[0] == it;
  }

  lemma RunNamed(v: int, r: nat, tbl: nat)
    ensures Named(RunItems(v, r, tbl), true, tbl)
  {
    hide Zrls, NBits;
    var last := Sym(true, tbl, 16 * (r % 16) + NBits(Abs(v)));
    NamedFirst(last, [Raw(Appended(v), NBits(Abs(v)))]);
    assert [last] + [Raw(Appended(v), NBits(Abs(v)))] == [last, Raw(Appended(v), NBits(Abs(v)))];
    NamedConcat(Zrls(r, tbl), [last, Raw(Appended(v), NBits(Abs(v)))], true, tbl);
  }

  lemma {:induction false} AcNamed(b: Block, k: nat, r: nat, tbl: nat)
    requires k <= DCTSIZE2 && (k < DCTSIZE2 || r > 0)
    ensures Named(AcItems(b, k, r, tbl), true, tbl)
    decreases DCTSIZE2 - k
  {
    hide RunItems;
    if k == DCTSIZE2 {
      NamedFirst(Sym(true, tbl, 0), []);
    } else if b[k] == 0 {
      AcNamed(b, k + 1, r + 1, tbl);
    } else {
      RunNamed(b[k], r, tbl);
      NamedConcat(RunItems(b[k], r, tbl), AcItems(b, k + 1, 0, tbl), true, tbl);
    }
  }

  lemma UnitNamed(c: Scan, b: Block, ci: nat, last: LastDc)
    requires ScanOk(c) && ci < MAX_COMPS_IN_SCAN
    ensures c.kind == Sequential || c.kind == DcFirst ==> Named(UnitItems(c, b, ci, last), false, c.dcTbl[ci])
    ensures c.kind == Sequential ==> Named(UnitItems(c, b, ci, last), true, c.acTbl[ci])
  {
    hide AcItems, NBits, Shr, Named;
    var diff, tbl := Level(c, b) - last[ci], c.dcTbl[ci];
    var n := NBits(Abs(diff));
    NamedFirst(Sym(false, tbl, n), if n == 0 then [] else [Raw(Appended(diff), n)]);
    if c.kind == Sequential {
      AcNamed(b, 1, 0, c.acTbl[ci]);
      NamedConcat(DcItems(diff, tbl), AcItems(b, 1, 0, c.acTbl[ci]), false, tbl);
      NamedConcat(DcItems(diff, tbl), AcItems(b, 1, 0, c.acTbl[ci]), true, c.acTbl[ci]);
    }
  }

  lemma {:induction false} UnitsNamed(c: Scan, mcu: Mcu, i: nat, j: nat, last: LastDc)
    requires ScanOk(c) && IsMcu(c, mcu) && i <= j < |mcu|
    ensures var ci := c.membership[j];
      && (c.kind == Sequential || c.kind == DcFirst ==> Named(UnitsItems(c, mcu, i, last), false, c.dcTbl[ci]))
      && (c.kind == Sequential ==> Named(UnitsItems(c, mcu, i, last), true, c.acTbl[ci]))
    decreases j - i
  {
    hide UnitItems, Named;
    var ci, last1 := c.membership[j], NextLast(c, mcu, i, last);
    if i == j {
      UnitNamed(c, mcu[i], ci, last);
    } else {
      UnitsNamed(c, mcu, i + 1, j, last1);
    }
    NamedConcat(UnitItems(c, mcu[i], c.membership[i], last), UnitsItems(c, mcu, i + 1, last1), false, c.dcTbl[ci]);
    NamedConcat(UnitItems(c, mcu[i], c.membership[i], last), UnitsItems(c, mcu, i + 1, last1), true, c.acTbl[ci]);
  }

  lemma FlushNamed(tbl: nat, n: nat, be: seq<bool>)
    requires n > 0
    ensures Named(Flush(tbl, n, be), true, tbl)
  {
    hide BitItems;
    assert NBits(n) >= 1;
    var it := Sym(true, tbl, 16 * (NBits(n) - 1));
    NamedFirst(it, if NBits(n) - 1 > 0 then [Raw(n, NBits(n) - 1)] else []);
    NamedConcat(EobItems(tbl, n), BitItems(be), true, tbl);
  }

  /** A block of which anything is left, or behind a run, gives a symbol or goes on in a run. */
  lemma {:induction false} CoefsNamed(c: Band, b: Block, k: nat, eob: nat, st: Run)
    requires BandOk(c) && (k <= c.se || st.n > 0 || st.r > 0 || st.br != [])
    ensures var (items, p) := EncodeCoefs(c, b, k, eob, st);
      Named(items, true, c.tbl) || p.n > 0
    decreases DCTSIZE2 - k
  {
    hide Flush, Mag, ZrlLoop, BitItems, Named;
    if k > c.se {
      if st.r > 0 || st.br != [] {
        FlushNamed(c.tbl, st.n + 1, st.be + st.br);
      }
    } else if Mag(c, b, k) == 0 {
      CoefsNamed(c, b, k + 1, eob, st.(r := st.r + 1));
    } else {
      var (zrls, st1) := if k <= eob then ZrlLoop(c.tbl, st) else ([], st);
      if IsCorrection(c, b, k) {
        var next := st1.(br := st1.br + [Mag(c, b, k) % 2 == 1]);
        CoefsNamed(c, b, k + 1, eob, next);
        NamedConcat(zrls, EncodeCoefs(c, b, k + 1, eob, next).0, true, c.tbl);
      } else {
        var x, n := zrls + Flush(c.tbl, st1.n, st1.be), NewItems(c, b, k, st1.r);
        assert n == [n[0]] + n[1..];
        NamedFirst(n[0], n[1..]);
        NamedConcat(x, n, true, c.tbl);
        NamedConcat(x + n, BitItems(st1.br), true, c.tbl);
        NamedConcat(x + n + BitItems(st1.br), EncodeCoefs(c, b, k + 1, eob, Run(0, [], 0, [])).0, true, c.tbl);
      }
    }
  }

  lemma {:induction false} SegNamed(c: Band, bs: seq<Block>, p: Pending)
    requires BandOk(c) && (bs != [] || p.n > 0)
    ensures Named(SegItems(c, bs, p), true, c.tbl)
  {
    hide EncodeCoefs, Flush, Named;
    if bs == [] {
      FlushNamed(c.tbl, p.n, p.be);
    } else {
      CoefsNamed(c, bs[0], c.ss, LastNew(c, bs[0], c.se + 1), Run(p.n, p.be, 0, []));
      var (items, p') := EncodeBlock(c, bs[0], p);
      if p'.n > 0 || |bs| > 1 {
        SegNamed(c, bs[1..], p');
      }
      NamedConcat(items, SegItems(c, bs[1..], p'), true, c.tbl);
    }
  }

  lemma IntervalNamed(c: Scan, mcus: seq<Mcu>, tbl: nat)
    requires ScanOk(c) && AreMcus(c, mcus) && mcus != []
    ensures tbl in TablesOf(c).dc ==> Named(IntervalItems(c, mcus), false, tbl)
    ensures tbl in TablesOf(c).ac ==> Named(IntervalItems(c, mcus), true, tbl)
  {
    hide SegItems, Named, UnitsItems, LastAfter;
    if c.kind == AcScan {
      SegNamed(c.band, FirstBlocks(mcus), Pending(0, []));
    } else {
      var x, y := UnitsItems(c, mcus[0], 0, NO_DC), McusItems(c, mcus[1..], LastAfter(c, mcus[0], 0, NO_DC));
      NamedConcat(x, y, false, tbl);
      NamedConcat(x, y, true, tbl);
      if tbl in TablesOf(c).dc {
        var j :| 0 <= j < |c.membership| && c.dcTbl[c.membership[j]] == tbl;
        UnitsNamed(c, mcus[0], 0, j, NO_DC);
      }
      if tbl in TablesOf(c).ac {
        var j :| 0 <= j < |c.membership| && c.acTbl[c.membership[j]] == tbl;
        UnitsNamed(c, mcus[0], 0, j, NO_DC);
      }
    }
  }

  lemma ScanNamed(c: Scan, interval: nat, mcus: seq<Mcu>, tbl: nat)
    requires ScanOk(c) && AreMcus(c, mcus) && mcus != []
    ensures tbl in TablesOf(c).dc ==> Named(ScanItems(c, interval, mcus), false, tbl)
    ensures tbl in TablesOf(c).ac ==> Named(ScanItems(c, interval, mcus), true, tbl)
  {
    hide IntervalItems, Named, IsMcu, TablesOf;
    if OneSegment(interval, mcus) {
      IntervalNamed(c, mcus, tbl);
    } else {
      IntervalNamed(c, mcus[..interval], tbl);
      NamedConcat(IntervalItems(c, mcus[..interval]), ScanItems(c, interval, mcus[interval..]), false, tbl);
      NamedConcat(IntervalItems(c, mcus[..interval]), ScanItems(c, interval, mcus[interval..]), true, tbl);
    }
  }

  // ----- Counts

  /** How often any symbol of the table occurs. */
  function SymbolsOf(items: seq<Item>, ac: bool, tbl: nat): nat {
    if items == [] then 0
    else
      var it := items[|items| - 1];
      SymbolsOf(items[..|items| - 1], ac, tbl) + if it.Sym? && it.ac == ac && it.tbl == tbl then 1 else 0
  }

  function CountsFor(items: seq<Item>, ac: bool, tbl: nat): (f: seq<nat>)
    ensures |f| == 256
  {
    seq(256, s requires 0 <= s < 256 => Count(items, Sym(ac, tbl, s)))
  }

  lemma {:induction false} TotalCount(u: ScanTables, items: seq<Item>, ac: bool, tbl: nat)
    requires AllRegular(u, items)
    ensures Sum(CountsFor(items, ac, tbl), 256) == SymbolsOf(items, ac, tbl)
  {
    hide Sum, Used;
    var f := CountsFor(items, ac, tbl);
    if items == [] {
      NoneCounted(f, 256);
    } else {
      var n := |items| - 1;
      var it, g := items[n], CountsFor(items[..n], ac, tbl);
      TotalCount(u, items[..n], ac, tbl);
      assert Regular(u, it);
      if it.Sym? && it.ac == ac && it.tbl == tbl {
        assert it == Sym(ac, tbl, it.sym);
        assert f == g[it.sym := g[it.sym] + 1];
        SumUpdate(g, it.sym, g[it.sym] + 1, 256);
      } else {
        assert f == g;
      }
    }
  }

  lemma {:induction false} NoneCounted(f: seq<nat>, n: nat)
    requires n <= |f| && forall i :: 0 <= i < |f| ==> f[i] == 0
    ensures Sum(f, n) == 0 && Used(f, n) == 0
  {
    if n > 0 {
      NoneCounted(f, n - 1);
    }
  }

  lemma {:induction false} SumPrefix(f: seq<nat>, g: seq<nat>, n: nat)
    requires n <= |f| && n <= |g| && forall i :: 0 <= i < n ==> f[i] == g[i]
    ensures Sum(f, n) == Sum(g, n) && Used(f, n) == Used(g, n)
  {
    if n > 0 {
      SumPrefix(f, g, n - 1);
    }
  }

  /** Few symbols are ever used: the low four bits are at most 11. */
  lemma {:induction false} FewUsed(f: seq<nat>, n: nat)
    requires n <= 256 <= |f| && forall s :: 0 <= s < 256 && f[s] > 0 ==> s % 16 <= MAX_COEF_BITS + 1
    ensures Used(f, n) <= 12 * (n / 16) + if n % 16 <= 12 then n % 16 else 12
  {
    if n > 0 {
      FewUsed(f, n - 1);
    }
  }

  /** What jpeg_gen_optimal_table needs of the counts of a table that the scan uses. */
  lemma CountsAreFit(c: Scan, interval: nat, mcus: seq<Mcu>, counts: seq<seq<nat>>, ac: bool, tbl: nat)
    requires ScanOk(c) && AreMcus(c, mcus) && mcus != [] && ScanInRange(c, interval, mcus)
    requires CountsOf(counts, ScanItems(c, interval, mcus)) && tbl < NUM_HUFF_TBLS
    requires tbl in if ac then TablesOf(c).ac else TablesOf(c).dc
    ensures var f := counts[TableIndex(ac, tbl)];
      && 1 <= Used(f, 256) <= 192
      && Sum(f[256 := 1], SYMBOLS) == SymbolsOf(ScanItems(c, interval, mcus), ac, tbl) + 1
      && (!ac ==> forall s :: 0 <= s < 256 && f[s] > 0 ==> s <= 15)
  {
    hide ScanItems, ScanInRange, TablesOf, Sum, Used, Named, IsMcu;
    var items, f := ScanItems(c, interval, mcus), counts[TableIndex(ac, tbl)];
    ScanRegular(c, interval, mcus);
    ScanNamed(c, interval, mcus, tbl);
    TotalCount(TablesOf(c), items, ac, tbl);
    SumPrefix(f[256 := 1], CountsFor(items, ac, tbl), 256);
    LastOfSum(f[256 := 1]);
    forall s | 0 <= s < 256 && f[s] > 0
      ensures s % 16 <= MAX_COEF_BITS + 1 && (!ac ==> s <= MAX_COEF_BITS + 1)
    {
      CountedIffPresent(items, Sym(ac, tbl, s));
    }
    FewUsed(f, 256);
    SomeUsed(TablesOf(c), items, ac, tbl, f);
  }

  lemma LastOfSum(f: seq<nat>)
    requires |f| == SYMBOLS
    ensures Sum(f, SYMBOLS) == Sum(f, 256) + f[256]
  {
  }

  lemma SomeUsed(u: ScanTables, items: seq<Item>, ac: bool, tbl: nat, f: seq<nat>)
    requires AllRegular(u, items) && Named(items, ac, tbl) && |f| >= 256
    requires forall s :: 0 <= s < 256 ==> f[s] == Count(items, Sym(ac, tbl, s))
    ensures Used(f, 256) >= 1
  {
    hide Used, Count;
    var i :| 0 <= i < |items| && items[i].Sym? && items[i].ac == ac && items[i].tbl == tbl;
    var it := items[i];
    assert Regular(u, it) && it == Sym(ac, tbl, it.sym);
    CountedIffPresent(items, it);
    AtMostSum(f, it.sym, 256);
  }
}

module OptimizedScans {
  import opened Bits
  import opened Wrappers
  import opened HuffmanTables
  import opened Symbols
  import opened Emitters
  import opened Feeding
  import opened Coefficients
  import opened NaturalOrder
  import opened SequentialCodec
  import opened McuCodec
  import opened ScanCodec
  import opened ScanRoundTrip
  import opened EncoderSpec
  import opened ScanDecoders
  import opened HuffmanProcedure
  import opened LimitedTable
  import opened GatheredTables
  import opened ScanStatistics
  import opened CodecRoundTrip

  // ----- The tables of a scan, by their index in CTables

  /** The tables of component ci of the scan. */
  function TableNos(c: Scan, ci: nat): (s: seq<nat>)
    requires ScanOk(c) && ci < MAX_COMPS_IN_SCAN
    ensures forall k :: 0 <= k < |s| ==> s[k] < 8
  {
    match c.kind
    case Sequential => [c.dcTbl[ci], NUM_HUFF_TBLS + c.acTbl[ci]]
    case DcFirst => [c.dcTbl[ci]]
    case DcRefine => []
    case AcScan => [NUM_HUFF_TBLS + c.band.tbl]
  }

  predicate UsesTable(c: Scan, i: nat)
    requires ScanOk(c)
  {
    if i < NUM_HUFF_TBLS then i in TablesOf(c).dc else i - NUM_HUFF_TBLS in TablesOf(c).ac
  }

  /** comps is comps_in_scan. */
  predicate CompsOk(c: Scan, comps: nat) {
    && comps <= MAX_COMPS_IN_SCAN
    && (forall ci :: 0 <= ci < comps ==> ci in c.membership)
    && (forall ci :: ci in c.membership ==> ci < comps)
  }

  /** Table i is one of the first n components. */
  predicate UsedBy(c: Scan, n: nat, i: nat)
    requires ScanOk(c) && n <= MAX_COMPS_IN_SCAN
  {
    exists ci :: 0 <= ci < n && i in TableNos(c, ci)
  }

  lemma UsedByAll(c: Scan, comps: nat, i: nat)
    requires ScanOk(c) && CompsOk(c, comps) && i < 8
    ensures UsedBy(c, comps, i) <==> UsesTable(c, i)
  {
    if UsedBy(c, comps, i) {
      var ci :| 0 <= ci < comps && i in TableNos(c, ci);
      assert ci in c.membership;
    }
    if UsesTable(c, i) {
      var m :| 0 <= m < |c.membership| && (c.kind == AcScan || i in TableNos(c, c.membership[m]));
      assert c.membership[m] in c.membership;
      assert i in TableNos(c, c.membership[m]);
    }
  }

  // ----- The end of a gathering pass

  /** An optimal code that has a code word of more than 32 bits. */
  ghost predicate TooLong(f: seq<nat>, len: seq<nat>) {
    |f| == SYMBOLS && OptimalLengths(f[256 := 1], len) && exists s :: 0 <= s < SYMBOLS && len[s] > MAX_CLEN
  }

  ghost predicate FitForTable(f: seq<nat>) {
    |f| == SYMBOLS && 1 <= Used(f, 256) <= 254 && Sum(f[256 := 1], SYMBOLS) <= MAX_COUNT
  }

  /** The tables of the first ci components, and done of the next one, have been made. */
  ghost predicate Made(c: Scan, counts: seq<seq<nat>>, hs0: DTables, hs: DTables, did: seq<bool>) {
    && |counts| == |did| == 8
    && forall i :: 0 <= i < 8 ==>
      if did[i] then IsTableFor(counts[i], hs[i]) && IsBestTable(counts[i], hs[i]) else hs[i] == hs0[i]
  }

  ghost predicate Did(c: Scan, did: seq<bool>, ci: nat, k: nat)
    requires ScanOk(c) && ci <= MAX_COMPS_IN_SCAN
  {
    && |did| == 8
    && forall i :: 0 <= i < 8 ==>
      (did[i] <==> UsedBy(c, ci, i) || (ci < MAX_COMPS_IN_SCAN && k <= |TableNos(c, ci)| && i in TableNos(c, ci)[..k]))
  }

  lemma DidNext(c: Scan, did: seq<bool>, ci: nat, k: nat)
    requires ScanOk(c) && ci < MAX_COMPS_IN_SCAN && Did(c, did, ci, k)
    ensures k < |TableNos(c, ci)| ==> Did(c, did[TableNos(c, ci)[k] := true], ci, k + 1)
    ensures k == |TableNos(c, ci)| ==> Did(c, did, ci + 1, 0)
  {
    hide TableNos;
    var s := TableNos(c, ci);
    if k < |s| {
      assert s[..k + 1] == s[..k] + [s[k]];
    } else if k == |s| {
      assert s[..k] == s;
      forall i | 0 <= i < 8
        ensures UsedBy(c, ci + 1, i) <==> UsedBy(c, ci, i) || i in s
      {
        if UsedBy(c, ci + 1, i) {
          var cj :| 0 <= cj < ci + 1 && i in TableNos(c, cj);
        }
      }
    }
  }

  lemma DidNone(c: Scan)
    requires ScanOk(c)
    ensures Did(c, seq(8, _ => false), 0, 0)
  {
  }

  /** finish_pass_gather and finish_pass_gather_phuff: new tables for the scan, each made once. */
  method FinishPassGather(c: Scan, comps: nat, counts: seq<seq<nat>>, hs0: DTables)
    returns (st: Status, hs: DTables, ghost table: nat, ghost len: seq<nat>)
    requires ScanOk(c) && CompsOk(c, comps) && |counts| == 8
    requires forall i :: 0 <= i < 8 && UsesTable(c, i) ==> FitForTable(counts[i])
    ensures st.Good? ==>
      forall i :: 0 <= i < 8 ==>
        if UsesTable(c, i) then IsTableFor(counts[i], hs[i]) && IsBestTable(counts[i], hs[i]) else hs[i] == hs0[i]
    ensures st.Bad? ==> st.error == CodeLengthOverflow && table < 8 && UsesTable(c, table) && TooLong(counts[table], len)
  {
    hide IsTableFor, OptimalLengths, Did, Used, Sum, UsedBy, UsesTable, TableNos, Wraps, InOrder, NoneLonger, IsBestTable;
    var did: seq<bool> := seq(8, _ => false);
    hs := hs0;
    table, len := 0, [];
    DidNone(c);
    for ci := 0 to comps
      invariant Made(c, counts, hs0, hs, did) && Did(c, did, ci, 0)
    {
      var nos := TableNos(c, ci);
      for k := 0 to |nos|
        invariant Made(c, counts, hs0, hs, did) && Did(c, did, ci, k)
      {
        var i := nos[k];
        DidNext(c, did, ci, k);
        if !did[i] {
          UsedHere(c, comps, ci, k);
          var freq := new nat[SYMBOLS](j requires 0 <= j < SYMBOLS => counts[i][j]);
          assert freq[..] == counts[i];
          var r;
          r, len := GenOptimalTable(freq);
          NoWrap(counts[i], len);
          if r.Err? {
            table := i;
            return Bad(r.error), hs, table, len;
          }
          TableSizes(counts[i], len, r.value);
          BestTable(counts[i], len, r.value);
          hs, did := hs[i := r.value], did[i := true];
        } else {
          assert did[i := true] == did;
        }
      }
      DidNext(c, did, ci, |nos|);
    }
    AllDid(c, comps, did);
    st := Good;
  }

  lemma BestTable(f: seq<nat>, len: seq<nat>, h: HuffTbl)
    requires |f| == |len| == SYMBOLS && IsTableFor(f, h) && OptimalLengths(f[256 := 1], len) && Size(h.bits) <= 256
    requires InOrder(len, h.huffval[..Size(h.bits)])
    requires (forall i :: 0 <= i < SYMBOLS ==> len[i] <= 16) ==> NoneLonger(len, h)
    ensures IsBestTable(f, h)
  {
    hide OptimalLengths, InOrder, NoneLonger;
    assert FollowsLengths(f, len, h);
  }

  lemma TableSizes(f: seq<nat>, len: seq<nat>, h: HuffTbl)
    requires IsTableFor(f, h) && OptimalLengths(f[256 := 1], len)
    ensures |f| == |len| == SYMBOLS && Size(h.bits) <= 256
  {
  }

  lemma NoWrap(f: seq<nat>, len: seq<nat>)
    requires FitForTable(f) && OptimalLengths(f[256 := 1], len)
    ensures !Wraps(len)
  {
    hide OptimalLengths, Used, Sum;
    PseudoSymbol(f, 256);
    FewDoNotWrap(f[256 := 1], len);
  }

  lemma UsedHere(c: Scan, comps: nat, ci: nat, k: nat)
    requires ScanOk(c) && CompsOk(c, comps) && ci < comps && k < |TableNos(c, ci)|
    ensures UsesTable(c, TableNos(c, ci)[k])
  {
    hide UsesTable, TableNos;
    UsedByAll(c, comps, TableNos(c, ci)[k]);
  }

  lemma AllDid(c: Scan, comps: nat, did: seq<bool>)
    requires ScanOk(c) && CompsOk(c, comps) && Did(c, did, comps, 0)
    ensures forall i :: 0 <= i < 8 ==> (did[i] <==> UsesTable(c, i))
  {
    hide UsedBy, UsesTable, TableNos;
    forall i | 0 <= i < 8
      ensures did[i] <==> UsesTable(c, i)
    {
      UsedByAll(c, comps, i);
    }
  }

  // ----- The start of the output passes

  /** start_pass_huff and start_pass_phuff: the derived tables of the scan, for some of them more than once. */
  method DeriveForEncoder(c: Scan, comps: nat, hs: DTables, t0: CTables) returns (r: Result<CTables>)
    requires ScanOk(c) && CompsOk(c, comps)
    ensures r.Ok? <==> forall i :: 0 <= i < 8 && UsesTable(c, i) ==> AcceptedByEncoder(hs[i], i < NUM_HUFF_TBLS)
    ensures r.Err? ==> r.error == BadHuffTable
    ensures r.Ok? ==> forall i :: 0 <= i < 8 ==> if UsesTable(c, i) then IsCDerived(hs[i], r.value[i]) else r.value[i] == t0[i]
  {
    hide Did, UsedBy, UsesTable, TableNos, IsCDerived, AcceptedByEncoder;
    ghost var did: seq<bool> := seq(8, _ => false);
    var t := t0;
    DidNone(c);
    for ci := 0 to comps
      invariant Did(c, did, ci, 0) && |did| == 8
      invariant forall i :: 0 <= i < 8 ==> if did[i] then IsCDerived(hs[i], t[i]) else t[i] == t0[i]
      invariant forall i :: 0 <= i < 8 && did[i] ==> AcceptedByEncoder(hs[i], i < NUM_HUFF_TBLS)
    {
      var nos := TableNos(c, ci);
      for k := 0 to |nos|
        invariant Did(c, did, ci, k) && |did| == 8
        invariant forall i :: 0 <= i < 8 ==> if did[i] then IsCDerived(hs[i], t[i]) else t[i] == t0[i]
        invariant forall i :: 0 <= i < 8 && did[i] ==> AcceptedByEncoder(hs[i], i < NUM_HUFF_TBLS)
      {
        UsedHere(c, comps, ci, k);
        DidNext(c, did, ci, k);
        var d :- MakeCDerivedTbl(hs[nos[k]], nos[k] < NUM_HUFF_TBLS);
        t, did := t[nos[k] := d], did[nos[k] := true];
      }
      DidNext(c, did, ci, |nos|);
    }
    AllDid(c, comps, did);
    r := Ok(t);
  }

  /** start_pass_huff_decoder and start_pass_phuff_decoder: the same for the decoder. */
  method DeriveForDecoder(c: Scan, comps: nat, hs: DTables, ts0: DerivedTables) returns (r: Result<DerivedTables>)
    requires ScanOk(c) && CompsOk(c, comps) && AllDerived(ts0)
    ensures r.Ok? <==> forall i :: 0 <= i < 8 && UsesTable(c, i) ==> AcceptedByDecoder(hs[i], i < NUM_HUFF_TBLS)
    ensures r.Err? ==> r.error == BadHuffTable
    ensures r.Ok? ==> AllDerived(r.value)
    ensures r.Ok? ==> forall i :: 0 <= i < 8 ==> Pubs(r.value)[i] == if UsesTable(c, i) then hs[i] else Pubs(ts0)[i]
  {
    hide Did, UsedBy, UsesTable, TableNos, IsDDerived, AcceptedByDecoder;
    ghost var did: seq<bool> := seq(8, _ => false);
    var ts := ts0;
    DidNone(c);
    for ci := 0 to comps
      invariant Did(c, did, ci, 0) && |did| == 8 && AllDerived(ts)
      invariant forall i :: 0 <= i < 8 ==> ts[i].pub == if did[i] then hs[i] else ts0[i].pub
      invariant forall i :: 0 <= i < 8 && did[i] ==> AcceptedByDecoder(hs[i], i < NUM_HUFF_TBLS)
    {
      var nos := TableNos(c, ci);
      for k := 0 to |nos|
        invariant Did(c, did, ci, k) && |did| == 8 && AllDerived(ts)
        invariant forall i :: 0 <= i < 8 ==> ts[i].pub == if did[i] then hs[i] else ts0[i].pub
        invariant forall i :: 0 <= i < 8 && did[i] ==> AcceptedByDecoder(hs[i], i < NUM_HUFF_TBLS)
      {
        UsedHere(c, comps, ci, k);
        DidNext(c, did, ci, k);
        var d :- MakeDDerivedTbl(hs[nos[k]], nos[k] < NUM_HUFF_TBLS);
        PubOf(hs[nos[k]], d);
        ts, did := ts[nos[k] := d], did[nos[k] := true];
      }
      DidNext(c, did, ci, |nos|);
    }
    AllDid(c, comps, did);
    r := Ok(ts);
  }

  lemma PubOf(h: HuffTbl, d: DDerivedTbl)
    requires IsDDerived(h, d)
    ensures d.pub == h
  {
  }

  // ----- Two passes

  /** What the scan's own counts amount to: tables can be made for what it uses, and nothing else is counted. */
  lemma ScanCounts(c: Scan, interval: nat, mcus: seq<Mcu>, counts: seq<seq<nat>>, i: nat)
    requires ScanOk(c) && AreMcus(c, mcus) && mcus != [] && ScanInRange(c, interval, mcus) && i < 8
    requires CountsOf(counts, ScanItems(c, interval, mcus))
    requires forall ac, tbl :: 0 <= tbl < NUM_HUFF_TBLS ==> SymbolsOf(ScanItems(c, interval, mcus), ac, tbl) < MAX_COUNT
    ensures UsesTable(c, i) ==>
      FitForTable(counts[i]) && (i < NUM_HUFF_TBLS ==> forall s :: 0 <= s < 256 && counts[i][s] > 0 ==> s <= 15)
    ensures !UsesTable(c, i) ==> Used(counts[i], 256) == 0
  {
    hide ScanItems, ScanInRange, TablesOf, Sum, Used, IsMcu, Count, SymbolsOf;
    var items, ac := ScanItems(c, interval, mcus), i >= NUM_HUFF_TBLS;
    var tbl := if ac then i - NUM_HUFF_TBLS else i;
    assert TableIndex(ac, tbl) == i;
    if UsesTable(c, i) {
      CountsAreFit(c, interval, mcus, counts, ac, tbl);
    } else {
      ScanRegular(c, interval, mcus);
      forall s | 0 <= s < 256
        ensures counts[i][s] == 0
      {
        CountedIffPresent(items, Sym(ac, tbl, s));
        assert Sym(ac, tbl, s) in items ==> Regular(TablesOf(c), Sym(ac, tbl, s));
      }
      NoneCounted(counts[i][..256], 256);
      SumPrefix(counts[i][..256], counts[i], 256);
    }
  }

  /** With the tables of the gathering pass installed, both sides have what the scan needs. */
  lemma TablesInstalled(c: Scan, interval: nat, mcus: seq<Mcu>, counts: seq<seq<nat>>, hs: DTables, ts0: DerivedTables,
                        t0: CTables, ts: DerivedTables, t: CTables)
    requires ScanOk(c) && AreMcus(c, mcus) && mcus != [] && ScanInRange(c, interval, mcus)
    requires CountsOf(counts, ScanItems(c, interval, mcus)) && AllLinked(Pubs(ts0), t0)
    requires forall i :: 0 <= i < 8 && !UsesTable(c, i) ==> Used(counts[i], 256) == 0
    requires forall i :: 0 <= i < 8 && UsesTable(c, i) ==> IsTableFor(counts[i], hs[i]) && IsCDerived(hs[i], t[i])
    requires forall i :: 0 <= i < 8 && !UsesTable(c, i) ==> t[i] == t0[i]
    requires forall i :: 0 <= i < 8 ==> Pubs(ts)[i] == if UsesTable(c, i) then hs[i] else Pubs(ts0)[i]
    ensures AllLinked(Pubs(ts), t) && Encodable(c, t, interval, mcus)
  {
    hide ScanItems, ScanInRange, UsesTable, Used, IsMcu, Encodable, IsCDerived;
    forall i | 0 <= i < 8
      ensures Linked(Pubs(ts)[i], t[i])
    {
      assert Linked(Pubs(ts0)[i], t0[i]);
    }
    assert MadeFrom(counts, Pubs(ts), t);
    GatheredTablesSuffice(c, interval, mcus, counts, Pubs(ts), t);
  }

  /**
   A scan with optimize_coding, from the coefficients to the decoded coefficients: gathered, coded with the tables made
   of the counts, and decoded with the same tables.  It fails for a value out of range, or for a code that Huffman's
   procedure makes longer than 32 bits, and for no other reason: no table is ever rejected, and no code is missing.
   */
  method TransmitOptimized(c: Scan, comps: nat, interval: nat, t0: CTables, ts0: DerivedTables,
                           source: seq<seq<array<Coef>>>, target: seq<seq<array<Coef>>>, m: byte, more: seq<byte>,
                           sizes: seq<nat>)
    returns (st: Status, warnings: int, ghost counts: seq<seq<nat>>, ghost table: nat, ghost len: seq<nat>)
    requires ScanOk(c) && CompsOk(c, comps) && AllDerived(ts0) && AllLinked(Pubs(ts0), t0) && m != 0 && m != 0xFF
    requires source != [] && SizesOk(c, source) && SizesOk(c, target) && AreTargets(c, target)
    requires AreMcuHistories(c, StoredMcus(c, source), StoredMcus(c, target))
    requires forall ac, tbl :: 0 <= tbl < NUM_HUFF_TBLS ==>
      SymbolsOf(ScanItems(c, interval, StoredMcus(c, source)), ac, tbl) < MAX_COUNT
    modifies Arrays(target)
    ensures st == Bad(BadDctCoef) <==> !ScanInRange(c, interval, old(StoredMcus(c, source)))
    ensures st.Bad? && st.error != BadDctCoef ==>
      && st.error == CodeLengthOverflow && CountsOf(counts, ScanItems(c, interval, old(StoredMcus(c, source))))
      && table < 8 && UsesTable(c, table) && TooLong(counts[table], len)
    ensures st.Good? ==> warnings == 0
    ensures |source| == |target|
    ensures StoredMcus(c, target) ==
      if st.Good? then McuGoals(c, old(StoredMcus(c, source)), old(StoredMcus(c, target))) else old(StoredMcus(c, target))
  {
    hide AllDerived, AllLinked, Encodable, ScanInRange, ScanItems, AreMcuHistories, McuGoals, Stored, IsMcu, AreTargets, CompsOk,
         UsesTable, TooLong, CountsOf, SymbolsOf, FitForTable, IsTableFor, IsCDerived, Used, AcceptedByEncoder,
         AcceptedByDecoder;
    ghost var mcus, hist := StoredMcus(c, source), StoredMcus(c, target);
    LinkedSizes(Pubs(ts0), t0);
    SameLength(c, mcus, hist);
    warnings, table, len := 0, 0, [];
    var out, gathered;
    st, out, gathered := EncodeScan(c, interval, true, t0, source);
    counts := gathered;
    assert mcus == StoredMcus(c, source) && hist == StoredMcus(c, target);
    if st.Bad? {
      return;
    }
    EightCounts(gathered, ScanItems(c, interval, mcus));
    forall i | 0 <= i < 8
      ensures UsesTable(c, i) ==>
        FitForTable(counts[i]) && (i < NUM_HUFF_TBLS ==> forall s :: 0 <= s < 256 && counts[i][s] > 0 ==> s <= 15)
      ensures !UsesTable(c, i) ==> Used(counts[i], 256) == 0
    {
      ScanCounts(c, interval, mcus, counts, i);
    }
    var hs;
    st, hs, table, len := FinishPassGather(c, comps, gathered, Pubs(ts0));
    assert mcus == StoredMcus(c, source) && hist == StoredMcus(c, target);
    if st.Bad? {
      return;
    }
    forall i | 0 <= i < 8 && UsesTable(c, i)
      ensures AcceptedByEncoder(hs[i], i < NUM_HUFF_TBLS) && AcceptedByDecoder(hs[i], i < NUM_HUFF_TBLS)
    {
      Accepted(counts[i], hs[i], i < NUM_HUFF_TBLS);
    }
    var t := DeriveForEncoder(c, comps, hs, t0);
    var ts := DeriveForDecoder(c, comps, hs, ts0);
    TablesInstalled(c, interval, mcus, counts, hs, ts0, t0, ts.value, t.value);
    assert mcus == StoredMcus(c, source) && hist == StoredMcus(c, target);
    st, warnings := TransmitScan(c, interval, t.value, ts.value, source, target, m, more, sizes);
  }

  lemma EightCounts(counts: seq<seq<nat>>, items: seq<Item>)
    requires CountsOf(counts, items)
    ensures |counts| == 8 && forall i :: 0 <= i < 8 ==> |counts[i]| == SYMBOLS
  {
  }

  lemma Accepted(f: seq<nat>, h: HuffTbl, isDC: bool)
    requires FitForTable(f) && IsTableFor(f, h) && (isDC ==> forall s :: 0 <= s < 256 && f[s] > 0 ==> s <= 15)
    ensures AcceptedByEncoder(h, isDC) && AcceptedByDecoder(h, isDC)
  {
    TableIsAccepted(f, h, isDC);
  }
}
