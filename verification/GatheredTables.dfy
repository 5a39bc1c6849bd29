/**
 The gathering pass and the output pass: tables made from the counts of a scan have a code for every symbol that the
 scan emits, so the output pass never ends with JERR_HUFF_MISSING_CODE.
 */
module GatheredTables {
  import opened Bits
  import opened Wrappers
  import opened HuffmanTables
  import opened Symbols
  import opened Emitters
  import opened Feeding
  import opened Coefficients
  import opened SequentialCodec
  import opened AcBand
  import opened AcSegment
  import opened AcRoundTrip
  import opened AcEncoders
  import opened McuCodec
  import opened ScanRoundTrip
  import opened EncoderSpec
  import opened HuffmanProcedure
  import opened LimitedTable

  // ----- Every item that the encoders emit is a symbol to be expected, or bits of a legal number

  /** The tables that a scan uses. */
  datatype ScanTables = ScanTables(dc: set<nat>, ac: set<nat>)

  function TablesOf(c: Scan): ScanTables
    requires ScanOk(c)
  {
    var dc := set i | 0 <= i < |c.membership| :: c.dcTbl[c.membership[i]];
    var ac := set i | 0 <= i < |c.membership| :: c.acTbl[c.membership[i]];
    match c.kind
    case Sequential => ScanTables(dc, ac)
    case DcFirst => ScanTables(dc, {})
    case DcRefine => ScanTables({}, {})
    case AcScan => ScanTables({}, {c.band.tbl})
  }

  /** Symbols of one of the tables u: DC categories, and AC symbols with at most 10 appended bits. */
  predicate Regular(u: ScanTables, it: Item) {
    && WellFormed(it)
    && match it
       case Sym(ac, tbl, sym) =>
         if ac then tbl in u.ac && sym % 16 <= MAX_COEF_BITS else tbl in u.dc && sym <= MAX_COEF_BITS + 1
       case Raw(_, _) => true
  }

  predicate AllRegular(u: ScanTables, items: seq<Item>) {
    forall i :: 0 <= i < |items| ==> Regular(u, items[i])
  }

  lemma ConcatRegular(u: ScanTables, a: seq<Item>, b: seq<Item>)
    ensures AllRegular(u, a) && AllRegular(u, b) ==> AllRegular(u, a + b)
  {
    hide Regular;
  }

  lemma {:induction false} ZrlsRegular(u: ScanTables, r: nat, tbl: nat)
    requires tbl < NUM_HUFF_TBLS && tbl in u.ac
    ensures AllRegular(u, Zrls(r, tbl))
    decreases r
  {
    if r > 15 {
      ZrlsRegular(u, r - 16, tbl);
    }
  }

  lemma {:induction false} AcItemsRegular(u: ScanTables, b: Block, k: nat, r: nat, tbl: nat)
    requires 1 <= k <= DCTSIZE2 && tbl < NUM_HUFF_TBLS && tbl in u.ac && AcInRange(b)
    ensures AllRegular(u, AcItems(b, k, r, tbl))
    decreases DCTSIZE2 - k
  {
    hide Zrls, NBits, AllRegular;
    NoneRegular(u);
    if k == DCTSIZE2 {
      OneRegular(u, Sym(true, tbl, 0));
    } else {
      if b[k] == 0 {
        AcItemsRegular(u, b, k + 1, r + 1, tbl);
      } else {
        AcItemsRegular(u, b, k + 1, 0, tbl);
        ZrlsRegular(u, r, tbl);
        NBitsBounds(Abs(b[k]));
        var last := [Sym(true, tbl, 16 * (r % 16) + NBits(Abs(b[k]))), Raw(Appended(b[k]), NBits(Abs(b[k])))];
        TwoRegular(u, last[0], last[1]);
        ConcatRegular(u, Zrls(r, tbl), last);
        ConcatRegular(u, Zrls(r, tbl) + last, AcItems(b, k + 1, 0, tbl));
      }
    }
  }

  lemma UnitItemsRegular(c: Scan, b: Block, ci: nat, last: LastDc)
    requires ScanOk(c) && c.kind != AcScan && ci in c.membership && UnitInRange(c, b, ci, last)
    ensures AllRegular(TablesOf(c), UnitItems(c, b, ci, last))
  {
    hide NBits, AcItems, Shr;
    var i :| 0 <= i < |c.membership| && c.membership[i] == ci;
    if c.kind == Sequential {
      AcItemsRegular(TablesOf(c), b, 1, 0, c.acTbl[ci]);
      ConcatRegular(TablesOf(c), DcItems(b[0] - last[ci], c.dcTbl[ci]), AcItems(b, 1, 0, c.acTbl[ci]));
    }
  }

  lemma {:induction false} UnitsItemsRegular(c: Scan, mcu: Mcu, i: nat, last: LastDc)
    requires ScanOk(c) && c.kind != AcScan && IsMcu(c, mcu) && i <= |mcu| && UnitsInRange(c, mcu, i, last)
    ensures AllRegular(TablesOf(c), UnitsItems(c, mcu, i, last))
    decreases |mcu| - i
  {
    hide UnitItems, UnitInRange, AllRegular;
    if i < |mcu| {
      UnitItemsRegular(c, mcu[i], c.membership[i], last);
      UnitsItemsRegular(c, mcu, i + 1, NextLast(c, mcu, i, last));
      ConcatRegular(TablesOf(c), UnitItems(c, mcu[i], c.membership[i], last), UnitsItems(c, mcu, i + 1, NextLast(c, mcu, i, last)));
    } else {
      assert AllRegular(TablesOf(c), []) by { NoneRegular(TablesOf(c)); }
    }
  }

  lemma NoneRegular(u: ScanTables)
    ensures AllRegular(u, [])
  {
  }

  lemma {:induction false} McusItemsRegular(c: Scan, mcus: seq<Mcu>, last: LastDc)
    requires ScanOk(c) && c.kind != AcScan && AreMcus(c, mcus) && McusInRange(c, mcus, last)
    ensures AllRegular(TablesOf(c), McusItems(c, mcus, last))
    decreases |mcus|
  {
    hide UnitsItems, UnitsInRange, AllRegular, LastAfter, IsMcu;
    NoneRegular(TablesOf(c));
    if mcus != [] {
      var last1 := LastAfter(c, mcus[0], 0, last);
      UnitsItemsRegular(c, mcus[0], 0, last);
      McusItemsRegular(c, mcus[1..], last1);
      ConcatRegular(TablesOf(c), UnitsItems(c, mcus[0], 0, last), McusItems(c, mcus[1..], last1));
    }
  }

  lemma {:induction false} BitItemsRegular(u: ScanTables, bs: seq<bool>)
    ensures AllRegular(u, BitItems(bs))
  {
    if bs != [] {
      BitItemsRegular(u, bs[1..]);
    }
  }

  lemma FlushRegular(u: ScanTables, tbl: nat, n: nat, be: seq<bool>)
    requires tbl < NUM_HUFF_TBLS && tbl in u.ac && n <= MAX_EOBRUN
    ensures AllRegular(u, Flush(tbl, n, be))
  {
    hide NBits;
    if n > 0 {
      RunLength(n);
      BitItemsRegular(u, be);
      ConcatRegular(u, EobItems(tbl, n), BitItems(be));
    }
  }

  lemma {:induction false} ZrlLoopRegular(u: ScanTables, tbl: nat, st: Run)
    requires tbl < NUM_HUFF_TBLS && tbl in u.ac && st.n <= MAX_EOBRUN
    ensures AllRegular(u, ZrlLoop(tbl, st).0) && ZrlLoop(tbl, st).1.n <= st.n
    decreases st.r
  {
    hide Flush, BitItems, AllRegular;
    NoneRegular(u);
    if st.r > 15 {
      var next := Run(0, [], st.r - 16, []);
      var f, zrl, br := Flush(tbl, st.n, st.be), [Sym(true, tbl, 0xF0)], BitItems(st.br);
      ZrlLoopRegular(u, tbl, next);
      FlushRegular(u, tbl, st.n, st.be);
      BitItemsRegular(u, st.br);
      OneRegular(u, zrl[0]);
      ConcatRegular(u, f, zrl);
      ConcatRegular(u, f + zrl, br);
      ConcatRegular(u, f + zrl + br, ZrlLoop(tbl, next).0);
    }
  }

  lemma TwoRegular(u: ScanTables, it: Item, it': Item)
    requires Regular(u, it) && Regular(u, it')
    ensures AllRegular(u, [it, it'])
  {
  }

  lemma OneRegular(u: ScanTables, it: Item)
    requires Regular(u, it)
    ensures AllRegular(u, [it])
  {
  }

  lemma NewItemsRegular(u: ScanTables, c: Band, b: Block, k: nat, r: nat)
    requires BandOk(c) && c.tbl in u.ac && c.ss <= k <= c.se && InRange(c, b) && IsNew(c, b, k) && r <= 15
    ensures AllRegular(u, NewItems(c, b, k, r))
  {
    hide Mag, NBits;
    var v := Signed(b[k] < 0, Mag(c, b, k));
    NBitsBounds(Abs(v));
  }

  lemma {:induction false} CoefsRegular(u: ScanTables, c: Band, b: Block, k: nat, st: Run)
    requires BandOk(c) && c.tbl in u.ac && c.ss <= k <= c.se + 1 && InRange(c, b) && st.n < MAX_EOBRUN
    ensures var (items, p) := EncodeCoefs(c, b, k, LastNew(c, b, c.se + 1), st);
      AllRegular(u, items) && p.n < MAX_EOBRUN
    decreases DCTSIZE2 - k
  {
    hide AllRegular, Flush, BitItems, NewItems, ZrlLoop, Mag, LastNew, InRange;
    var eob := LastNew(c, b, c.se + 1);
    NoneRegular(u);
    if k > c.se {
      FlushRegular(u, c.tbl, st.n + 1, st.be + st.br);
    } else if Mag(c, b, k) == 0 {
      CoefsRegular(u, c, b, k + 1, st.(r := st.r + 1));
    } else {
      var (zrls, st1) := if k <= eob then ZrlLoop(c.tbl, st) else ([], st);
      ZrlLoopRegular(u, c.tbl, st);
      if IsCorrection(c, b, k) {
        var next := st1.(br := st1.br + [Mag(c, b, k) % 2 == 1]);
        CoefsRegular(u, c, b, k + 1, next);
        ConcatRegular(u, zrls, EncodeCoefs(c, b, k + 1, eob, next).0);
      } else {
        NewIsNotLate(c, b, k, c.se + 1);
        ZrlLoopShort(c.tbl, st);
        CoefsRegular(u, c, b, k + 1, Run(0, [], 0, []));
        FlushRegular(u, c.tbl, st1.n, st1.be);
        NewItemsRegular(u, c, b, k, st1.r);
        BitItemsRegular(u, st1.br);
        var f, n, br := Flush(c.tbl, st1.n, st1.be), NewItems(c, b, k, st1.r), BitItems(st1.br);
        ConcatRegular(u, zrls, f);
        ConcatRegular(u, zrls + f, n);
        ConcatRegular(u, zrls + f + n, br);
        ConcatRegular(u, zrls + f + n + br, EncodeCoefs(c, b, k + 1, eob, Run(0, [], 0, [])).0);
      }
    }
  }

  lemma {:induction false} SegItemsRegular(u: ScanTables, c: Band, bs: seq<Block>, p: Pending)
    requires BandOk(c) && c.tbl in u.ac && AllInRange(c, bs) && p.n < MAX_EOBRUN
    ensures AllRegular(u, SegItems(c, bs, p))
  {
    hide AllRegular, Flush, EncodeCoefs, InRange;
    FlushRegular(u, c.tbl, p.n, p.be);
    if bs != [] {
      CoefsRegular(u, c, bs[0], c.ss, Run(p.n, p.be, 0, []));
      var (items, p') := EncodeBlock(c, bs[0], p);
      SegItemsRegular(u, c, bs[1..], p');
      ConcatRegular(u, items, SegItems(c, bs[1..], p'));
    }
  }

  lemma IntervalRegular(c: Scan, mcus: seq<Mcu>)
    requires ScanOk(c) && AreMcus(c, mcus) && IntervalInRange(c, mcus)
    ensures AllRegular(TablesOf(c), IntervalItems(c, mcus))
  {
    hide AllRegular, SegItems, McusItems, McusInRange, InRange;
    if c.kind == AcScan {
      SegItemsRegular(TablesOf(c), c.band, FirstBlocks(mcus), Pending(0, []));
    } else {
      McusItemsRegular(c, mcus, NO_DC);
    }
  }

  // ----- Tables from counts

  /** All coefficients of the scan are in range for the encoder. */
  ghost predicate ScanInRange(c: Scan, interval: nat, mcus: seq<Mcu>)
    requires ScanOk(c) && AreMcus(c, mcus)
    decreases |mcus|
  {
    if OneSegment(interval, mcus) then IntervalInRange(c, mcus)
    else IntervalInRange(c, mcus[..interval]) && ScanInRange(c, interval, mcus[interval..])
  }

  /** Every table for which a symbol was counted was made from its counts, and gave the encoder's table. */
  ghost predicate MadeFrom(counts: seq<seq<nat>>, hs: DTables, t: CTables)
    requires |counts| == 8
  {
    forall i :: 0 <= i < 8 ==>
      |counts[i]| == SYMBOLS && (Used(counts[i], 256) > 0 ==> IsTableFor(counts[i], hs[i]) && IsCDerived(hs[i], t[i]))
  }

  lemma CountedHasCode(counts: seq<seq<nat>>, hs: DTables, t: CTables, i: nat, s: nat)
    requires |counts| == 8 && MadeFrom(counts, hs, t) && i < 8 && s < 256 && counts[i][s] > 0
    ensures 1 <= t[i].ehufsi[s] <= 16
  {
    AtMostSum(counts[i], s, 256);
    var h := hs[i];
    var b: byte := s;
    assert b in h.huffval[..Size(h.bits)];
    var p :| 0 <= p < Size(h.bits) && h.huffval[p] == b;
    assert t[i].ehufsi[h.huffval[p]] == LenAt(h.bits, p);
  }

  lemma ItemsHaveCodes(u: ScanTables, counts: seq<seq<nat>>, hs: DTables, t: CTables, items: seq<Item>, all: seq<Item>)
    requires |counts| == 8 && MadeFrom(counts, hs, t) && CountsOf(counts, all) && AllRegular(u, items)
    requires forall i :: 0 <= i < |items| ==> items[i] in all
    ensures AllHaveCodes(t, items)
  {
    hide IsTableFor, IsCDerived, Used;
    forall i | 0 <= i < |items|
      ensures HasCode(t, items[i])
    {
      var it := items[i];
      if it.Sym? {
        CountedIffPresent(all, it);
        assert it == Sym(it.ac, it.tbl, it.sym);
        CountedHasCode(counts, hs, t, TableIndex(it.ac, it.tbl), it.sym);
      }
    }
  }

  lemma {:induction false} SegmentsHaveCodes(c: Scan, interval: nat, mcus: seq<Mcu>, counts: seq<seq<nat>>, hs: DTables,
                                             t: CTables, all: seq<Item>)
    requires ScanOk(c) && AreMcus(c, mcus) && ScanInRange(c, interval, mcus)
    requires |counts| == 8 && MadeFrom(counts, hs, t) && CountsOf(counts, all)
    requires forall i :: 0 <= i < |ScanItems(c, interval, mcus)| ==> ScanItems(c, interval, mcus)[i] in all
    ensures Encodable(c, t, interval, mcus)
    decreases |mcus|
  {
    hide MadeFrom, CountsOf, IntervalItems, IntervalInRange, AllHaveCodes, AllRegular, IsMcu;
    var scan := ScanItems(c, interval, mcus);
    if OneSegment(interval, mcus) {
      IntervalRegular(c, mcus);
      assert scan == IntervalItems(c, mcus);
      ItemsHaveCodes(TablesOf(c), counts, hs, t, IntervalItems(c, mcus), all);
    } else {
      var x, y := IntervalItems(c, mcus[..interval]), ScanItems(c, interval, mcus[interval..]);
      assert scan == x + y;
      forall i | 0 <= i < |x| ensures x[i] in all { assert x[i] == scan[i]; }
      forall i | 0 <= i < |y| ensures y[i] in all { assert y[i] == scan[|x| + i]; }
      IntervalRegular(c, mcus[..interval]);
      ItemsHaveCodes(TablesOf(c), counts, hs, t, x, all);
      SegmentsHaveCodes(c, interval, mcus[interval..], counts, hs, t, all);
    }
  }

  /** With tables made from the counts of a gathering pass over the same MCUs, the output pass is not short of a code. */
  lemma GatheredTablesSuffice(c: Scan, interval: nat, mcus: seq<Mcu>, counts: seq<seq<nat>>, hs: DTables, t: CTables)
    requires ScanOk(c) && AreMcus(c, mcus) && ScanInRange(c, interval, mcus)
    requires CountsOf(counts, ScanItems(c, interval, mcus)) && MadeFrom(counts, hs, t)
    ensures Encodable(c, t, interval, mcus)
  {
    SegmentsHaveCodes(c, interval, mcus, counts, hs, t, ScanItems(c, interval, mcus));
  }
}
