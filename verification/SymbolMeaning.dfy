/**
 The symbols of a block by their numbers: the category of a value in the low four bits of a symbol, the number of zeros in
 front of it in the high ones (sections F.1.2 and G.1.2 of ITU-T T.81), and what a DC value is predicted from.
 */
module SymbolMeaning {
  import opened Bits
  import opened Symbols
  import opened Coefficients
  import opened SequentialCodec
  import opened AcBand
  import opened AcSegment
  import opened AcRoundTrip
  import opened EobRuns
  import opened McuCodec

  /** n is the number of bits of the magnitude of v. */
  predicate IsCategory(v: int, n: nat) {
    if v == 0 then n == 0 else n >= 1 && Pow2(n - 1) <= (if v < 0 then -v else v) < Pow2(n)
  }

  /** The bits behind a symbol: v itself, or v - 1 if v is negative. */
  function ValueBits(v: int, n: nat): Item {
    Raw(if v < 0 then v - 1 else v, n)
  }

  lemma CategoryIs(v: int)
    ensures IsCategory(v, NBits(Abs(v)))
  {
    NBitsBounds(Abs(v));
  }

  // ----- Sequential scans

  /** A DC difference is the symbol of its category and, if it is not zero, its bits. */
  lemma DcSymbol(diff: int, tbl: nat)
    ensures exists n :: IsCategory(diff, n) && DcItems(diff, tbl) == [Sym(false, tbl, n)] + if diff == 0 then [] else [ValueBits(diff, n)]
  {
    CategoryIs(diff);
  }

  /** z symbols of 16 zeros each */
  function ZrlTimes(tbl: nat, z: nat): seq<Item> {
    seq(z, _ => Sym(true, tbl, 0xF0))
  }

  lemma {:induction false} ZrlsAreSixteens(r: nat, tbl: nat)
    ensures Zrls(r, tbl) == ZrlTimes(tbl, r / 16)
  {
    if r > 15 {
      ZrlsAreSixteens(r - 16, tbl);
      assert ZrlTimes(tbl, r / 16) == [Sym(true, tbl, 0xF0)] + ZrlTimes(tbl, r / 16 - 1);
    }
  }

  /**
   Where coefficient q is the next that is not zero: every 16 of the zeros in front of it are a ZRL symbol, and the number of
   the others is in the high four bits of the symbol whose low ones hold the category.
   */
  lemma {:induction false} NextCoefficient(b: Block, k: nat, q: nat, r: nat, tbl: nat)
    requires k <= q < 64 && b[q] != 0 && forall j :: k <= j < q ==> b[j] == 0
    ensures var zeros := r + q - k;
      exists n :: IsCategory(b[q], n) && AcItems(b, k, r, tbl)
        == ZrlTimes(tbl, zeros / 16) + [Sym(true, tbl, 16 * (zeros % 16) + n), ValueBits(b[q], n)] + AcItems(b, q + 1, 0, tbl)
    decreases q - k
  {
    hide Zrls, IsCategory, NBits, ZrlTimes;
    if k < q {
      NextCoefficient(b, k + 1, q, r + 1, tbl);
    } else {
      ZrlsAreSixteens(r, tbl);
      CategoryIs(b[q]);
    }
  }

  /** Where no coefficient is left that is not zero: an EOB symbol, unless coefficient 63 has just been coded. */
  lemma {:induction false} NoCoefficient(b: Block, k: nat, r: nat, tbl: nat)
    requires k <= 64 && forall j :: k <= j < 64 ==> b[j] == 0
    ensures AcItems(b, k, r, tbl) == if r + 64 - k > 0 then [Sym(true, tbl, 0x00)] else []
    decreases 64 - k
  {
    if k < 64 {
      NoCoefficient(b, k + 1, r + 1, tbl);
    }
  }

  // ----- First scans of an AC band

  lemma {:induction false} ZrlLoopIs(tbl: nat, n: nat, be: seq<bool>, r: nat)
    ensures var (items, st) := ZrlLoop(tbl, Run(n, be, r, []));
      && items + Flush(tbl, st.n, st.be) == Flush(tbl, n, be) + ZrlTimes(tbl, r / 16)
      && st.r == r % 16 && st.br == []
    decreases r
  {
    hide EobItems, BitItems;
    if r > 15 {
      ZrlLoopIs(tbl, 0, [], r - 16);
      assert BitItems([]) == [] by { NoBits(); }
      var (more, st) := ZrlLoop(tbl, Run(0, [], r - 16, []));
      var z := [Sym(true, tbl, 0xF0)];
      assert ZrlTimes(tbl, r / 16) == z + ZrlTimes(tbl, r / 16 - 1);
      var f := Flush(tbl, n, be);
      assert f + z + [] + more + Flush(tbl, st.n, st.be) == f + (z + (more + Flush(tbl, st.n, st.be)));
    } else {
      assert ZrlTimes(tbl, 0) == [];
    }
  }

  lemma NoBits()
    ensures BitItems([]) == []
  {
  }

  /** A coefficient of a first scan after the point transform: cut off towards zero. */
  function Cut(c: Band, b: Block, k: nat): int
    requires k < DCTSIZE2
  {
    Signed(b[k] < 0, Mag(c, b, k))
  }

  /**
   The same in a first scan of an AC band, where a run of n blocks that is pending is ended first, and the value is that
   after the point transform.
   */
  lemma {:induction false} NextInBand(c: Band, b: Block, k: nat, q: nat, n: nat, r: nat, bs: seq<Block>)
    requires BandOk(c) && !c.refine && c.ss <= k <= q <= c.se && Cut(c, b, q) != 0 && forall j :: k <= j < q ==> Cut(c, b, j) == 0
    ensures var zeros := r + q - k;
      exists m :: IsCategory(Cut(c, b, q), m) && ItemsFrom(c, b, k, Run(n, [], r, []), bs)
        == Flush(c.tbl, n, []) + ZrlTimes(c.tbl, zeros / 16)
           + [Sym(true, c.tbl, 16 * (zeros % 16) + m), ValueBits(Cut(c, b, q), m)]
           + ItemsFrom(c, b, q + 1, Run(0, [], 0, []), bs)
    decreases q - k
  {
    hide Mag, IsCategory, ItemsFrom, Flush, ZrlTimes, NBits, LastNew, BitItems, Signed;
    MagIsCut(c, b, k);
    var st := Run(n, [], r, []);
    if k < q {
      ItemsZero(c, b, k, st, bs);
      NextInBand(c, b, k + 1, q, n, r + 1, bs);
    } else {
      ItemsNew(c, b, k, st, bs);
      NewIsNotLate(c, b, k, c.se + 1);
      ZrlLoopIs(c.tbl, n, [], r);
      NoBits();
      var (zrls, st1) := ZrlLoop(c.tbl, st);
      CategoryIs(Cut(c, b, k));
      var f, s, more := Flush(c.tbl, st1.n, st1.be), NewItems(c, b, k, st1.r), ItemsFrom(c, b, k + 1, Run(0, [], 0, []), bs);
      assert zrls + (f + (s + ([] + more))) == zrls + f + s + more;
    }
  }

  lemma MagIsCut(c: Band, b: Block, k: nat)
    requires k < DCTSIZE2
    ensures Mag(c, b, k) == Abs(Cut(c, b, k))
  {
  }

  // ----- Symbols and the values behind them

  /** A symbol with n in its low four bits is followed by a value of n bits. */
  predicate WidthsFit(items: seq<Item>) {
    forall i :: 0 <= i < |items| && items[i].Sym? && items[i].ac && items[i].sym % 16 != 0 ==>
      i + 1 < |items| && items[i + 1].Raw? && items[i + 1].size == items[i].sym % 16
  }

  lemma FitConcat(a: seq<Item>, b: seq<Item>)
    requires WidthsFit(a) && WidthsFit(b)
    ensures WidthsFit(a + b)
  {
    forall i | 0 <= i < |a + b| && (a + b)[i].Sym? && (a + b)[i].ac && (a + b)[i].sym % 16 != 0
      ensures i + 1 < |a + b| && (a + b)[i + 1].Raw? && (a + b)[i + 1].size == (a + b)[i].sym % 16
    {
      if i >= |a| {
        assert (a + b)[i] == b[i - |a|];
      } else {
        assert (a + b)[i] == a[i];
      }
    }
  }

  lemma FlushFits(tbl: nat, n: nat, be: seq<bool>)
    ensures WidthsFit(Flush(tbl, n, be)) && WidthsFit(BitItems(be))
  {
    BitsAreRaw(be);
    if n > 0 {
      EobShape(tbl, n);
      FitConcat(EobItems(tbl, n), BitItems(be));
    }
  }

  lemma {:induction false} ZrlsFit(tbl: nat, st: Run)
    ensures WidthsFit(ZrlLoop(tbl, st).0)
    decreases st.r
  {
    hide WidthsFit, Flush, BitItems;
    if st.r <= 15 {
      NoneFit();
    } else {
      var next := Run(0, [], st.r - 16, []);
      ZrlsFit(tbl, next);
      FlushFits(tbl, st.n, st.be);
      FlushFits(tbl, 0, st.br);
      ZrlFits(tbl);
      FitConcat(Flush(tbl, st.n, st.be), [Sym(true, tbl, 0xF0)]);
      FitConcat(Flush(tbl, st.n, st.be) + [Sym(true, tbl, 0xF0)], BitItems(st.br));
      FitConcat(Flush(tbl, st.n, st.be) + [Sym(true, tbl, 0xF0)] + BitItems(st.br), ZrlLoop(tbl, next).0);
    }
  }

  lemma NoneFit()
    ensures WidthsFit([])
  {
  }

  lemma ZrlFits(tbl: nat)
    ensures WidthsFit([Sym(true, tbl, 0xF0)])
  {
  }

  lemma NewFits(c: Band, b: Block, k: nat, r: nat)
    requires BandOk(c) && InRange(c, b) && c.ss <= k <= c.se
    ensures WidthsFit(NewItems(c, b, k, r))
  {
    hide Mag;
    var v := Signed(b[k] < 0, Mag(c, b, k));
    assert Abs(v) == Mag(c, b, k);
  }

  lemma {:induction false} CoefsFit(c: Band, b: Block, k: nat, eob: nat, st: Run)
    requires BandOk(c) && InRange(c, b) && c.ss <= k
    ensures WidthsFit(EncodeCoefs(c, b, k, eob, st).0)
    decreases DCTSIZE2 - k
  {
    hide WidthsFit, Flush, BitItems, NewItems, ZrlLoop, Mag, InRange, IsCorrection;
    NoneFit();
    if k > c.se {
      FlushFits(c.tbl, st.n + 1, st.be + st.br);
    } else if Mag(c, b, k) == 0 {
      CoefsFit(c, b, k + 1, eob, st.(r := st.r + 1));
    } else {
      var (zrls, st1) := if k <= eob then ZrlLoop(c.tbl, st) else ([], st);
      ZrlsFit(c.tbl, st);
      if IsCorrection(c, b, k) {
        var next := st1.(br := st1.br + [Mag(c, b, k) % 2 == 1]);
        CoefsFit(c, b, k + 1, eob, next);
        FitConcat(zrls, EncodeCoefs(c, b, k + 1, eob, next).0);
      } else {
        CoefsFit(c, b, k + 1, eob, Run(0, [], 0, []));
        FlushFits(c.tbl, st1.n, st1.be);
        FlushFits(c.tbl, 0, st1.br);
        NewFits(c, b, k, st1.r);
        var f, n, bits := Flush(c.tbl, st1.n, st1.be), NewItems(c, b, k, st1.r), BitItems(st1.br);
        FitConcat(zrls, f);
        FitConcat(zrls + f, n);
        FitConcat(zrls + f + n, bits);
        FitConcat(zrls + f + n + bits, EncodeCoefs(c, b, k + 1, eob, Run(0, [], 0, [])).0);
      }
    }
  }

  /** In an AC scan of either kind, the low four bits of a symbol are the size of the value behind it. */
  lemma {:induction false} SizesAreTold(c: Band, bs: seq<Block>, p: Pending)
    requires BandOk(c) && AllInRange(c, bs)
    ensures WidthsFit(SegItems(c, bs, p))
    decreases |bs|
  {
    hide WidthsFit, EncodeCoefs, Flush, LastNew, InRange;
    if bs == [] {
      FlushFits(c.tbl, p.n, p.be);
    } else {
      assert AllInRange(c, bs[1..]) && InRange(c, bs[0]);
      CoefsFit(c, bs[0], c.ss, LastNew(c, bs[0], c.se + 1), Run(p.n, p.be, 0, []));
      var (items, p') := EncodeBlock(c, bs[0], p);
      SizesAreTold(c, bs[1..], p');
      FitConcat(items, SegItems(c, bs[1..], p'));
    }
  }

  // ----- DC prediction

  /** A block and the component that it belongs to. */
  datatype Unit = Unit(comp: nat, b: Block)

  function McuUnits(c: Scan, mcu: Mcu): (us: seq<Unit>)
    requires ScanOk(c) && IsMcu(c, mcu)
    ensures |us| == |mcu| && forall i :: 0 <= i < |us| ==> us[i].comp < MAX_COMPS_IN_SCAN
  {
    seq(|mcu|, i requires 0 <= i < |mcu| => Unit(c.membership[i], mcu[i]))
  }

  /** The blocks of an interval one by one. */
  function Units(c: Scan, mcus: seq<Mcu>): (us: seq<Unit>)
    requires ScanOk(c) && AreMcus(c, mcus)
    ensures forall i :: 0 <= i < |us| ==> us[i].comp < MAX_COMPS_IN_SCAN
  {
    if mcus == [] then [] else McuUnits(c, mcus[0]) + Units(c, mcus[1..])
  }

  /** The DC value of the last block of the component among these; 0 if there is none. */
  function Prediction(c: Scan, us: seq<Unit>, ci: nat): int {
    if us == [] then 0
    else if us[|us| - 1].comp == ci then Level(c, us[|us| - 1].b)
    else Prediction(c, us[..|us| - 1], ci)
  }

  /** What is emitted for a block whose DC value is predicted as dc. */
  function PredictedItems(c: Scan, u: Unit, dc: int): seq<Item>
    requires ScanOk(c) && u.comp < MAX_COMPS_IN_SCAN
  {
    match c.kind
    case Sequential => DcItems(Level(c, u.b) - dc, c.dcTbl[u.comp]) + AcItems(u.b, 1, 0, c.acTbl[u.comp])
    case DcFirst => DcItems(Level(c, u.b) - dc, c.dcTbl[u.comp])
    case _ => [Raw(Shr(u.b[0], c.al), 1)]
  }

  /** The first n blocks of an interval, each predicted from the one of its component in front of it. */
  function UnitwiseItems(c: Scan, us: seq<Unit>, n: nat): seq<Item>
    requires ScanOk(c) && n <= |us| && forall i :: 0 <= i < |us| ==> us[i].comp < MAX_COMPS_IN_SCAN
  {
    if n == 0 then []
    else UnitwiseItems(c, us, n - 1) + PredictedItems(c, us[n - 1], Prediction(c, us[..n - 1], us[n - 1].comp))
  }

  ghost predicate Predicts(c: Scan, us: seq<Unit>, last: LastDc) {
    forall ci :: 0 <= ci < MAX_COMPS_IN_SCAN ==> last[ci] == Prediction(c, us, ci)
  }

  lemma PredictsNext(c: Scan, us: seq<Unit>, u: Unit, last: LastDc)
    requires Predicts(c, us, last) && u.comp < MAX_COMPS_IN_SCAN
    ensures Predicts(c, us + [u], last[u.comp := Level(c, u.b)])
  {
    hide Level;
    var next := us + [u];
    assert next[..|next| - 1] == us && next[|next| - 1] == u;
  }

  lemma {:induction false} UnitsPredicted(c: Scan, us: seq<Unit>, k: nat, mcu: Mcu, i: nat, last: LastDc)
    requires ScanOk(c) && IsMcu(c, mcu) && i <= |mcu| && c.kind != AcScan
    requires forall j :: 0 <= j < |us| ==> us[j].comp < MAX_COMPS_IN_SCAN
    requires k + |mcu| <= |us| && us[k..k + |mcu|] == McuUnits(c, mcu) && Predicts(c, us[..k + i], last)
    ensures UnitwiseItems(c, us, k + i) + UnitsItems(c, mcu, i, last) == UnitwiseItems(c, us, k + |mcu|)
    ensures Predicts(c, us[..k + |mcu|], LastAfter(c, mcu, i, last))
    decreases |mcu| - i
  {
    hide Predicts, Prediction, PredictedItems, UnitItems, Level, McuUnits;
    if i < |mcu| {
      UnitAt(c, us, k, mcu, i);
      var u, next := us[k + i], NextLast(c, mcu, i, last);
      PredictsNext(c, us[..k + i], u, last);
      UnitsPredicted(c, us, k, mcu, i + 1, next);
      UnitPredicted(c, us[..k + i], u, last);
      OneMore(c, us, k + i);
      var x, y, z := UnitwiseItems(c, us, k + i), UnitItems(c, mcu[i], c.membership[i], last), UnitsItems(c, mcu, i + 1, next);
      hide UnitwiseItems, UnitsItems;
      assert x + (y + z) == x + y + z;
    }
  }

  lemma UnitAt(c: Scan, us: seq<Unit>, k: nat, mcu: Mcu, i: nat)
    requires ScanOk(c) && IsMcu(c, mcu) && i < |mcu| && k + |mcu| <= |us| && us[k..k + |mcu|] == McuUnits(c, mcu)
    ensures us[k + i] == Unit(c.membership[i], mcu[i]) && us[..k + i + 1] == us[..k + i] + [us[k + i]]
  {
    assert us[k + i] == us[k..k + |mcu|][i];
  }

  lemma OneMore(c: Scan, us: seq<Unit>, n: nat)
    requires ScanOk(c) && n < |us| && forall i :: 0 <= i < |us| ==> us[i].comp < MAX_COMPS_IN_SCAN
    ensures UnitwiseItems(c, us, n + 1)
         == UnitwiseItems(c, us, n) + PredictedItems(c, us[n], Prediction(c, us[..n], us[n].comp))
  {
    hide PredictedItems, Prediction;
  }

  lemma UnitPredicted(c: Scan, us: seq<Unit>, u: Unit, last: LastDc)
    requires ScanOk(c) && u.comp < MAX_COMPS_IN_SCAN && Predicts(c, us, last) && c.kind != AcScan
    ensures UnitItems(c, u.b, u.comp, last) == PredictedItems(c, u, Prediction(c, us, u.comp))
  {
    hide Prediction, DcItems, AcItems;
  }

  lemma {:induction false} McusPredicted(c: Scan, us: seq<Unit>, k: nat, mcus: seq<Mcu>, last: LastDc)
    requires ScanOk(c) && AreMcus(c, mcus) && c.kind != AcScan
    requires forall j :: 0 <= j < |us| ==> us[j].comp < MAX_COMPS_IN_SCAN
    requires k <= |us| && us[k..] == Units(c, mcus) && Predicts(c, us[..k], last)
    ensures UnitwiseItems(c, us, k) + McusItems(c, mcus, last) == UnitwiseItems(c, us, |us|)
    decreases |mcus|
  {
    hide Predicts, UnitsItems, LastAfter, UnitwiseItems;
    if mcus != [] {
      var mcu, n := mcus[0], |mcus[0]|;
      assert us[k..] == McuUnits(c, mcu) + Units(c, mcus[1..]);
      assert us[k..k + n] == us[k..][..n] == McuUnits(c, mcu);
      assert us[k + n..] == us[k..][n..] == Units(c, mcus[1..]);
      assert us[..k + 0] == us[..k];
      UnitsPredicted(c, us, k, mcu, 0, last);
      McusPredicted(c, us, k + n, mcus[1..], LastAfter(c, mcu, 0, last));
      var x, y, z := UnitwiseItems(c, us, k), UnitsItems(c, mcu, 0, last), McusItems(c, mcus[1..], LastAfter(c, mcu, 0, last));
      assert x + (y + z) == x + y + z;
    }
  }

  /** In a restart interval, DC values are predicted from the block of the same component in front, the first ones from 0. */
  lemma PredictedFromComponent(c: Scan, mcus: seq<Mcu>)
    requires ScanOk(c) && AreMcus(c, mcus) && c.kind != AcScan
    ensures IntervalItems(c, mcus) == UnitwiseItems(c, Units(c, mcus), |Units(c, mcus)|)
  {
    hide UnitwiseItems, McusItems, SegItems;
    var us := Units(c, mcus);
    assert us[0..] == us && us[..0] == [];
    McusPredicted(c, us, 0, mcus, NO_DC);
    assert UnitwiseItems(c, us, 0) == [] by { NoUnits(c, us); }
    assert [] + McusItems(c, mcus, NO_DC) == McusItems(c, mcus, NO_DC);
  }

  lemma NoUnits(c: Scan, us: seq<Unit>)
    requires ScanOk(c) && forall i :: 0 <= i < |us| ==> us[i].comp < MAX_COMPS_IN_SCAN
    ensures UnitwiseItems(c, us, 0) == []
  {
  }
}
