/**
 Where the blocks of an image are in a scan, by numbers, and what its dummy blocks cost: section A.2 of ITU-T T.81 as
 per_scan_setup (jcmaster.c) and the coefficient controllers carry it out.
 */
module McuContents {
  import opened Coefficients
  import opened McuGeometry
  import opened McuProducers
  import opened ScanLayouts

  // ----- Where a block is

  /** The size of component j's part of an MCU. */
  function PartSize(p: Picture, comps: seq<int>, j: nat): nat
    requires CompsIn(p, comps) && j < |comps|
  {
    if |comps| == 1 then 1 else p.comps[comps[j]].h * p.comps[comps[j]].v
  }

  function PartsBefore(p: Picture, comps: seq<int>, j: nat): nat
    requires CompsIn(p, comps) && j <= |comps|
  {
    if j == 0 then 0 else PartsBefore(p, comps, j - 1) + PartSize(p, comps, j - 1)
  }

  lemma {:induction false} SlotInRow(j: nat, w: nat, yi: nat, xi: nat, x: nat)
    requires xi <= x < w
    ensures |SlotRow(j, w, yi, xi)| == w - xi && SlotRow(j, w, yi, xi)[x - xi] == Slot(j, yi, x)
    decreases w - xi
  {
    if xi < x {
      SlotInRow(j, w, yi, xi + 1, x);
    } else if xi + 1 < w {
      SlotInRow(j, w, yi, xi + 1, xi + 1);
    }
  }

  lemma {:induction false} SlotInRows(j: nat, w: nat, h: nat, yi: nat, y: nat, x: nat)
    requires yi <= h && w > 0
    ensures |SlotRows(j, w, h, yi)| == (h - yi) * w
    ensures yi <= y < h && x < w ==>
      (y - yi) * w + x < |SlotRows(j, w, h, yi)| && SlotRows(j, w, h, yi)[(y - yi) * w + x] == Slot(j, y, x)
    decreases h - yi
  {
    hide SlotRow;
    if yi < h {
      var first, more := SlotRow(j, w, yi, 0), SlotRows(j, w, h, yi + 1);
      SlotInRows(j, w, h, yi + 1, y, x);
      SlotInRow(j, w, yi, 0, if x < w then x else 0);
      Distribute(h - yi - 1, 1, w);
      if yi < y < h && x < w {
        Distribute(y - yi - 1, 1, w);
        RowBehind(first, more, (y - yi - 1) * w + x);
      }
    }
  }

  lemma RowBehind(first: seq<Slot>, more: seq<Slot>, i: nat)
    requires i < |more|
    ensures (first + more)[|first| + i] == more[i]
  {
  }

  lemma {:induction false} SlotIndex(p: Picture, comps: seq<int>, i: nat, j: nat, yi: nat, xi: nat, n: nat)
    requires PictureOk(p) && CompsIn(p, comps) && i <= j < |comps|
    requires yi < CompHeight(p, comps, j) && xi < CompWidth(p, comps, j)
    requires n == yi * CompWidth(p, comps, j) + xi
    ensures PartsBefore(p, comps, i) <= PartsBefore(p, comps, j)
    ensures var m := PartsBefore(p, comps, j) - PartsBefore(p, comps, i) + n;
      m < |Slots(p, comps, i)| && Slots(p, comps, i)[m] == Slot(j, yi, xi)
    decreases j - i
  {
    hide SlotRows, PictureOk, CompWidth, CompHeight, PartSize;
    var w, h := CompWidth(p, comps, i), CompHeight(p, comps, i);
    PartIs(p, comps, i);
    SlotInRows(i, w, h, 0, yi, xi);
    if i < j {
      SlotIndex(p, comps, i + 1, j, yi, xi, n);
      var m := PartsBefore(p, comps, j) - PartsBefore(p, comps, i + 1) + n;
      RowBehind(SlotRows(i, w, h, 0), Slots(p, comps, i + 1), m);
    }
  }

  lemma PartIs(p: Picture, comps: seq<int>, j: nat)
    requires PictureOk(p) && CompsIn(p, comps) && j < |comps|
    ensures CompWidth(p, comps, j) > 0 && CompHeight(p, comps, j) * CompWidth(p, comps, j) == PartSize(p, comps, j)
  {
  }

  /**
   In an interleaved scan, MCU number row * MCUs_per_row + col holds, one component behind the other and row by row, the
   blocks of the h x v rectangle at (row * v, col * h) of each component.
   */
  lemma WhereBlocksAre(p: Picture, comps: seq<int>, row: nat, col: nat, j: nat, yi: nat, xi: nat, m: nat, n: nat, a: Place)
    requires PictureOk(p) && CompsIn(p, comps) && 1 < |comps| && j < |comps|
    requires row < McuLines(p, comps) && col < McuCols(p, comps) && yi < p.comps[comps[j]].v && xi < p.comps[comps[j]].h
    requires m == row * McuCols(p, comps) + col && n == yi * p.comps[comps[j]].h + xi
    requires a.comp == comps[j] && a.y == row * p.comps[comps[j]].v + yi && a.x == col * p.comps[comps[j]].h + xi
    ensures At(ScanPlaces(p, comps), m, PartsBefore(p, comps, j) + n, a)
  {
    SlotIndex(p, comps, 0, j, yi, xi, n);
    McuInLayout(p, comps, row, col);
    hide Slots, PictureOk, PartSize, McuCols, McuLines, PartsBefore, ScanPlaces;
  }

  /** A scan of one component is its blocks row by row. */
  lemma SingleBlocksAre(p: Picture, comps: seq<int>, row: nat, col: nat)
    requires PictureOk(p) && CompsIn(p, comps) && |comps| == 1 && row < McuLines(p, comps) && col < McuCols(p, comps)
    ensures At(ScanPlaces(p, comps), row * McuCols(p, comps) + col, 0, Place(comps[0], row, col))
  {
    SlotIndex(p, comps, 0, 0, 0, 0, 0);
    McuInLayout(p, comps, row, col);
    hide Slots, PictureOk, PartSize, McuCols;
  }

  lemma McuInLayout(p: Picture, comps: seq<int>, row: nat, col: nat)
    requires CompsIn(p, comps) && row < McuLines(p, comps) && col < McuCols(p, comps)
    ensures row * McuCols(p, comps) + col < |ScanPlaces(p, comps)|
    ensures ScanPlaces(p, comps)[row * McuCols(p, comps) + col] == McuPlaces(p, comps, row, col)
  {
    hide Layout, McuCols, McuLines, McuPlaces;
    LayoutAt(p, comps, McuLines(p, comps), row, col);
  }

  /** Every MCU has a real block of each component in its upper left corner: none is made of dummy blocks only. */
  lemma CornersAreReal(p: Picture, comps: seq<int>, row: nat, col: nat, j: nat)
    requires PictureOk(p) && CompsIn(p, comps) && j < |comps| && row < McuLines(p, comps) && col < McuCols(p, comps)
    ensures IsReal(p, PlaceOf(p, comps, row, col, Slot(j, 0, 0)))
  {
    hide WidthInBlocks, HeightInBlocks;
    if |comps| > 1 {
      var c := p.comps[comps[j]];
      TwoComponents(p, comps);
      ScaledCount(p.height, c.v, MaxV(p.comps) * DCTSIZE);
      ScaledCount(p.width, c.h, MaxH(p.comps) * DCTSIZE);
      MulMonotone(row, TotalRows(p) - 1, c.v);
      MulMonotone(col, McuCols(p, comps) - 1, c.h);
      CountsAre(p, comps[j]);
    }
  }

  lemma CountsAre(p: Picture, i: nat)
    requires PictureOk(p) && i < |p.comps|
    ensures WidthInBlocks(p, p.comps[i]) == CeilDiv(p.width * p.comps[i].h, MaxH(p.comps) * DCTSIZE)
    ensures HeightInBlocks(p, p.comps[i]) == CeilDiv(p.height * p.comps[i].v, MaxV(p.comps) * DCTSIZE)
  {
    hide CeilDiv;
  }

  lemma TwoComponents(p: Picture, comps: seq<int>)
    requires CompsIn(p, comps) && |comps| > 1
    ensures Interleaved(p)
  {
    assert comps[0] != comps[1];
  }

  // ----- Dummy blocks

  /**
   A dummy block is never the first of its component in an MCU: it has the DC value of the block in front of it and no
   other coefficient, so that it is coded as a DC difference of zero and an end of block.
   */
  lemma DummiesCostLeast(p: Picture, comps: seq<int>, row: nat, col: nat, j: nat, yi: nat, xi: nat)
    requires PictureOk(p) && CompsIn(p, comps) && j < |comps| && row < McuLines(p, comps) && col < McuCols(p, comps)
    requires yi < CompHeight(p, comps, j) && xi < CompWidth(p, comps, j)
    requires !IsReal(p, PlaceOf(p, comps, row, col, Slot(j, yi, xi)))
    ensures yi > 0 || xi > 0
    ensures var b := BlockAt(p, PlaceOf(p, comps, row, col, Slot(j, yi, xi)));
      var before := if xi > 0 then Slot(j, yi, xi - 1) else Slot(j, yi - 1, CompWidth(p, comps, j) - 1);
      && b[0] == BlockAt(p, PlaceOf(p, comps, row, col, before))[0]
      && forall k :: 1 <= k < DCTSIZE2 ==> b[k] == 0
  {
    hide BlockAt, WidthInBlocks, HeightInBlocks, TotalRows, McuCols, McuLines, LastColWidth, LastRowHeight, CanPad;
    CornersAreReal(p, comps, row, col, j);
    if |comps| > 1 {
      TwoComponents(p, comps);
      var s := Spot(row, 0, col, comps[j], yi);
      SameColumns(p, comps);
      RealTest(p, s);
      BlockIs(p, PlaceOf(p, comps, row, col, Slot(j, yi, xi)));
      if !RealRow(p, s) {
        BottomDummy(p, s, xi);
        if xi > 0 {
          BottomDummy(p, s, xi - 1);
          BlockIs(p, PlaceOf(p, comps, row, col, Slot(j, yi, xi - 1)));
        } else {
          BlockIs(p, PlaceOf(p, comps, row, col, Slot(j, yi - 1, CompWidth(p, comps, j) - 1)));
        }
      } else {
        if xi < BlockCount(p, s) {
          RealBlock(p, s, xi);
        }
        RightDummy(p, s, xi);
        BlockIs(p, PlaceOf(p, comps, row, col, Slot(j, yi, xi - 1)));
      }
    }
  }

  lemma SameColumns(p: Picture, comps: seq<int>)
    requires PictureOk(p) && CompsIn(p, comps) && |comps| > 1
    ensures McuCols(p, comps) == McusPerRow(p) && McuLines(p, comps) == TotalRows(p)
  {
    TwoComponents(p, comps);
  }
}
