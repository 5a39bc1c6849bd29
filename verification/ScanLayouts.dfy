/**
 The blocks of a scan of any components, MCU by MCU, as per_scan_setup (jcmaster.c) arranges them: every real block of
 the components once, and in an interleaved scan the dummy blocks that pad the image at its right and bottom edges.
 */
module ScanLayouts {
  import opened Coefficients
  import opened McuGeometry
  import opened CoefControllers

  // ----- The blocks of one MCU

  /** A block of an MCU: the component of the scan, and row and column within the component's part of the MCU. */
  datatype Slot = Slot(j: nat, yi: nat, xi: nat)

  function SlotRow(j: nat, w: nat, yi: nat, xi: nat): seq<Slot>
    decreases w - xi
  {
    if xi >= w then [] else [Slot(j, yi, xi)] + SlotRow(j, w, yi, xi + 1)
  }

  function SlotRows(j: nat, w: nat, h: nat, yi: nat): seq<Slot>
    decreases h - yi
  {
    if yi >= h then [] else SlotRow(j, w, yi, 0) + SlotRows(j, w, h, yi + 1)
  }

  /** Components of the scan, by their index in the image: comps_in_scan and cur_comp_info[]. */
  predicate CompsIn(p: Picture, comps: seq<int>) {
    && 0 < |comps| && (forall j :: 0 <= j < |comps| ==> 0 <= comps[j] < |p.comps|)
    && (forall i, j :: 0 <= i < j < |comps| ==> comps[i] != comps[j])
  }

  function CompWidth(p: Picture, comps: seq<int>, j: nat): nat
    requires CompsIn(p, comps) && j < |comps|
  {
    if |comps| == 1 then 1 else p.comps[comps[j]].h
  }

  function CompHeight(p: Picture, comps: seq<int>, j: nat): nat
    requires CompsIn(p, comps) && j < |comps|
  {
    if |comps| == 1 then 1 else p.comps[comps[j]].v
  }

  function Slots(p: Picture, comps: seq<int>, j: nat): seq<Slot>
    requires CompsIn(p, comps) && j <= |comps|
    decreases |comps| - j
  {
    if j == |comps| then [] else SlotRows(j, CompWidth(p, comps, j), CompHeight(p, comps, j), 0) + Slots(p, comps, j + 1)
  }

  /** MCU_membership[] */
  function Membership(p: Picture, comps: seq<int>): (m: seq<nat>)
    requires CompsIn(p, comps)
    ensures |m| == |Slots(p, comps, 0)|
  {
    seq(|Slots(p, comps, 0)|, n requires 0 <= n < |Slots(p, comps, 0)| => Slots(p, comps, 0)[n].j)
  }

  predicate Distinct<T(==)>(s: seq<T>) {
    forall m, n :: 0 <= m < n < |s| ==> s[m] != s[n]
  }

  lemma DistinctConcat<T>(a: seq<T>, b: seq<T>)
    requires Distinct(a) && Distinct(b) && forall i, j :: 0 <= i < |a| && 0 <= j < |b| ==> a[i] != b[j]
    ensures Distinct(a + b)
  {
  }

  lemma {:induction false} SlotsOfRow(j: nat, w: nat, yi: nat, xi: nat)
    ensures forall s :: s in SlotRow(j, w, yi, xi) <==> s.j == j && s.yi == yi && xi <= s.xi < w
    ensures Distinct(SlotRow(j, w, yi, xi))
    decreases w - xi
  {
    if xi < w {
      SlotsOfRow(j, w, yi, xi + 1);
      var more := SlotRow(j, w, yi, xi + 1);
      forall i | 0 <= i < |more| ensures more[i] != Slot(j, yi, xi) { assert more[i] in more; }
      DistinctConcat([Slot(j, yi, xi)], more);
    }
  }

  lemma {:induction false} SlotsOfRows(j: nat, w: nat, h: nat, yi: nat)
    ensures forall s :: s in SlotRows(j, w, h, yi) <==> s.j == j && yi <= s.yi < h && s.xi < w
    ensures Distinct(SlotRows(j, w, h, yi))
    decreases h - yi
  {
    hide SlotRow, Distinct;
    if yi < h {
      SlotsOfRow(j, w, yi, 0);
      SlotsOfRows(j, w, h, yi + 1);
      var a, b := SlotRow(j, w, yi, 0), SlotRows(j, w, h, yi + 1);
      forall m, n | 0 <= m < |a| && 0 <= n < |b| ensures a[m] != b[n] { assert a[m] in a && b[n] in b; }
      DistinctConcat(a, b);
    } else {
      assert Distinct<Slot>([]) by { NoneTwice<Slot>(); }
    }
  }

  lemma NoneTwice<T>()
    ensures Distinct<T>([])
  {
  }

  /** An MCU holds every block of every component's part, each once. */
  lemma {:induction false} SlotsOfMcu(p: Picture, comps: seq<int>, j: nat)
    requires CompsIn(p, comps) && j <= |comps|
    ensures forall s :: s in Slots(p, comps, j) <==>
      j <= s.j < |comps| && s.yi < CompHeight(p, comps, s.j) && s.xi < CompWidth(p, comps, s.j)
    ensures Distinct(Slots(p, comps, j))
    decreases |comps| - j
  {
    hide SlotRows, Distinct, CompWidth, CompHeight;
    if j < |comps| {
      SlotsOfRows(j, CompWidth(p, comps, j), CompHeight(p, comps, j), 0);
      SlotsOfMcu(p, comps, j + 1);
      var a, b := SlotRows(j, CompWidth(p, comps, j), CompHeight(p, comps, j), 0), Slots(p, comps, j + 1);
      forall m, n | 0 <= m < |a| && 0 <= n < |b| ensures a[m] != b[n] { assert a[m] in a && b[n] in b; }
      DistinctConcat(a, b);
    } else {
      NoneTwice<Slot>();
    }
  }

  // ----- The MCUs of a scan

  /** A block of the image or of its padding. */
  datatype Place = Place(comp: nat, y: nat, x: nat)

  /** MCUs_per_row and MCU_rows_in_scan */
  function McuCols(p: Picture, comps: seq<int>): nat
    requires CompsIn(p, comps)
  {
    if |comps| == 1 then WidthInBlocks(p, p.comps[comps[0]]) else CeilDiv(p.width, MaxH(p.comps) * DCTSIZE)
  }

  function McuLines(p: Picture, comps: seq<int>): nat
    requires CompsIn(p, comps)
  {
    if |comps| == 1 then HeightInBlocks(p, p.comps[comps[0]]) else TotalRows(p)
  }

  function PlaceOf(p: Picture, comps: seq<int>, row: nat, col: nat, s: Slot): Place
    requires CompsIn(p, comps) && s.j < |comps|
  {
    Place(comps[s.j], row * CompHeight(p, comps, s.j) + s.yi, col * CompWidth(p, comps, s.j) + s.xi)
  }

  function McuPlaces(p: Picture, comps: seq<int>, row: nat, col: nat): (l: seq<Place>)
    requires CompsIn(p, comps)
    ensures |l| == |Slots(p, comps, 0)|
  {
    SlotsOfMcu(p, comps, 0);
    seq(|Slots(p, comps, 0)|, n requires 0 <= n < |Slots(p, comps, 0)| =>
      assert Slots(p, comps, 0)[n] in Slots(p, comps, 0);
      PlaceOf(p, comps, row, col, Slots(p, comps, 0)[n]))
  }

  /** The MCUs of a row from left to right, and the rows from top to bottom. */
  function LinePlaces(p: Picture, comps: seq<int>, row: nat, n: nat): (l: seq<seq<Place>>)
    requires CompsIn(p, comps)
    ensures |l| == n && forall m :: 0 <= m < |l| ==> |l[m]| == |Membership(p, comps)|
  {
    if n == 0 then [] else LinePlaces(p, comps, row, n - 1) + [McuPlaces(p, comps, row, n - 1)]
  }

  function Layout(p: Picture, comps: seq<int>, rows: nat): (l: seq<seq<Place>>)
    requires CompsIn(p, comps)
    ensures forall m :: 0 <= m < |l| ==> |l[m]| == |Membership(p, comps)|
  {
    if rows == 0 then [] else Layout(p, comps, rows - 1) + LinePlaces(p, comps, rows - 1, McuCols(p, comps))
  }

  function ScanPlaces(p: Picture, comps: seq<int>): (l: seq<seq<Place>>)
    requires CompsIn(p, comps)
    ensures forall m :: 0 <= m < |l| ==> |l[m]| == |Membership(p, comps)|
  {
    Layout(p, comps, McuLines(p, comps))
  }

  predicate IsReal(p: Picture, a: Place) {
    a.comp < |p.comps| && a.y < |p.comps[a.comp].rows| && a.x < |p.comps[a.comp].rows[a.y]|
  }

  /** The place lies within the MCU at (row, col). */
  predicate InMcu(p: Picture, comps: seq<int>, row: nat, col: nat, j: nat, a: Place)
    requires CompsIn(p, comps) && j < |comps|
  {
    var h, w := CompHeight(p, comps, j), CompWidth(p, comps, j);
    a.comp == comps[j] && row * h <= a.y < row * h + h && col * w <= a.x < col * w + w
  }

  lemma PlacesOfMcu(p: Picture, comps: seq<int>, row: nat, col: nat)
    requires CompsIn(p, comps)
    ensures forall a :: a in McuPlaces(p, comps, row, col) <==> exists j :: 0 <= j < |comps| && InMcu(p, comps, row, col, j, a)
    ensures Distinct(McuPlaces(p, comps, row, col))
  {
    hide Slots, CompHeight, CompWidth;
    SlotsOfMcu(p, comps, 0);
    var l, slots := McuPlaces(p, comps, row, col), Slots(p, comps, 0);
    forall n | 0 <= n < |l|
      ensures slots[n] in slots && slots[n].j < |comps| && InMcu(p, comps, row, col, slots[n].j, l[n])
      ensures l[n] == PlaceOf(p, comps, row, col, slots[n])
    {
      assert slots[n] in slots;
    }
    forall a, j | 0 <= j < |comps| && InMcu(p, comps, row, col, j, a)
      ensures a in l
    {
      var s := Slot(j, a.y - row * CompHeight(p, comps, j), a.x - col * CompWidth(p, comps, j));
      assert s in slots;
      var n :| 0 <= n < |slots| && slots[n] == s;
      assert l[n] == a;
    }
  }

  lemma McuUnique(p: Picture, comps: seq<int>, row: nat, col: nat, j: nat, row': nat, col': nat, j': nat, a: Place)
    requires CompsIn(p, comps) && j < |comps| && j' < |comps|
    requires InMcu(p, comps, row, col, j, a) && InMcu(p, comps, row', col', j', a)
    ensures row == row' && col == col' && j == j'
  {
    var h, w := CompHeight(p, comps, j), CompWidth(p, comps, j);
    assert j == j';
    SameMultiple(h, row, row', a.y);
    SameMultiple(w, col, col', a.x);
  }

  lemma SameMultiple(k: nat, q: nat, q': nat, n: nat)
    requires q * k <= n < q * k + k && q' * k <= n < q' * k + k
    ensures q == q'
  {
    if q < q' {
      NextMultiple(k, q, q');
    } else if q' < q {
      NextMultiple(k, q', q);
    }
  }

  lemma NextMultiple(k: nat, q: nat, q': nat)
    requires q < q'
    ensures q * k + k <= q' * k
  {
    MulMonotone(q + 1, q', k);
    Distribute(q, 1, k);
  }

  lemma {:induction false} LineAt(p: Picture, comps: seq<int>, row: nat, n: nat, col: nat)
    requires CompsIn(p, comps) && col < n
    ensures LinePlaces(p, comps, row, n)[col] == McuPlaces(p, comps, row, col)
    decreases n
  {
    hide McuPlaces;
    if col < n - 1 {
      LineAt(p, comps, row, n - 1, col);
    }
  }

  lemma {:induction false} LayoutSize(p: Picture, comps: seq<int>, rows: nat)
    requires CompsIn(p, comps)
    ensures |Layout(p, comps, rows)| == rows * McuCols(p, comps)
  {
    hide McuCols, LinePlaces;
    if rows > 0 {
      LayoutSize(p, comps, rows - 1);
      Distribute(rows - 1, 1, McuCols(p, comps));
    }
  }

  /** MCUs are numbered row by row. */
  lemma {:induction false} LayoutAt(p: Picture, comps: seq<int>, rows: nat, row: nat, col: nat)
    requires CompsIn(p, comps) && row < rows && col < McuCols(p, comps)
    ensures row * McuCols(p, comps) + col < |Layout(p, comps, rows)|
    ensures Layout(p, comps, rows)[row * McuCols(p, comps) + col] == McuPlaces(p, comps, row, col)
    decreases rows
  {
    hide McuCols, LinePlaces, McuPlaces;
    LayoutSize(p, comps, rows - 1);
    if row < rows - 1 {
      LayoutAt(p, comps, rows - 1, row, col);
    } else {
      LineAt(p, comps, row, McuCols(p, comps), col);
    }
  }

  lemma {:induction false} LayoutIndex(p: Picture, comps: seq<int>, rows: nat, m: nat) returns (row: nat, col: nat)
    requires CompsIn(p, comps) && m < |Layout(p, comps, rows)|
    ensures row < rows && col < McuCols(p, comps) && m == row * McuCols(p, comps) + col
    decreases rows
  {
    hide McuCols, LinePlaces, McuPlaces;
    LayoutSize(p, comps, rows - 1);
    if m < |Layout(p, comps, rows - 1)| {
      row, col := LayoutIndex(p, comps, rows - 1, m);
    } else {
      row, col := rows - 1, m - (rows - 1) * McuCols(p, comps);
    }
  }

  // ----- What a scan holds

  ghost predicate At(l: seq<seq<Place>>, m: nat, n: nat, a: Place) {
    m < |l| && n < |l[m]| && l[m][n] == a
  }

  /** No block occurs twice in a scan. */
  lemma PlacesAreDistinct(p: Picture, comps: seq<int>, m: nat, n: nat, m': nat, n': nat, a: Place)
    requires CompsIn(p, comps) && At(ScanPlaces(p, comps), m, n, a) && At(ScanPlaces(p, comps), m', n', a)
    ensures m == m' && n == n'
  {
    hide Layout, McuCols, McuLines, InMcu, Distinct, McuPlaces;
    var l := ScanPlaces(p, comps);
    var row, col := LayoutIndex(p, comps, McuLines(p, comps), m);
    var row', col' := LayoutIndex(p, comps, McuLines(p, comps), m');
    LayoutAt(p, comps, McuLines(p, comps), row, col);
    LayoutAt(p, comps, McuLines(p, comps), row', col');
    PlacesOfMcu(p, comps, row, col);
    PlacesOfMcu(p, comps, row', col');
    assert a in l[m] && a in l[m'];
    var j :| 0 <= j < |comps| && InMcu(p, comps, row, col, j, a);
    var j' :| 0 <= j' < |comps| && InMcu(p, comps, row', col', j', a);
    McuUnique(p, comps, row, col, j, row', col', j', a);
    OnlyOnce(l[m], n, n');
  }

  lemma OnlyOnce(l: seq<Place>, n: nat, n': nat)
    requires Distinct(l) && n < |l| && n' < |l| && l[n] == l[n']
    ensures n == n'
  {
  }

  /** Blocks of an MCU belong to the components that MCU_membership[] says. */
  lemma PlaceMembers(p: Picture, comps: seq<int>, m: nat, n: nat)
    requires CompsIn(p, comps) && m < |ScanPlaces(p, comps)|
    ensures |ScanPlaces(p, comps)[m]| == |Membership(p, comps)|
    ensures n < |Membership(p, comps)| ==>
      Membership(p, comps)[n] < |comps| && ScanPlaces(p, comps)[m][n].comp == comps[Membership(p, comps)[n]]
  {
    hide Layout, McuCols, McuLines, Slots;
    var row, col := LayoutIndex(p, comps, McuLines(p, comps), m);
    LayoutAt(p, comps, McuLines(p, comps), row, col);
    SlotsOfMcu(p, comps, 0);
    if n < |Membership(p, comps)| {
      assert Slots(p, comps, 0)[n] in Slots(p, comps, 0);
    }
  }

  /** A scan of one component holds no dummy blocks. */
  lemma SingleIsReal(p: Picture, comps: seq<int>, m: nat, n: nat, a: Place)
    requires PictureOk(p) && CompsIn(p, comps) && |comps| == 1 && At(ScanPlaces(p, comps), m, n, a)
    ensures IsReal(p, a)
  {
    hide Layout, McuPlaces, WidthInBlocks, HeightInBlocks;
    var row, col := LayoutIndex(p, comps, McuLines(p, comps), m);
    LayoutAt(p, comps, McuLines(p, comps), row, col);
    PlacesOfMcu(p, comps, row, col);
    assert a in ScanPlaces(p, comps)[m];
    var j :| 0 <= j < |comps| && InMcu(p, comps, row, col, j, a);
  }

  /** Every real block of the scan's components is in the scan. */
  lemma RealIsIn(p: Picture, comps: seq<int>, a: Place) returns (m: nat, n: nat)
    requires PictureOk(p) && CompsIn(p, comps) && IsReal(p, a) && a.comp in comps
    ensures At(ScanPlaces(p, comps), m, n, a)
  {
    hide Layout, McuPlaces, WidthInBlocks, HeightInBlocks, TotalRows, McuCols, McuLines;
    var j :| 0 <= j < |comps| && comps[j] == a.comp;
    var row, col := McuOf(p, comps, j, a);
    m := row * McuCols(p, comps) + col;
    LayoutAt(p, comps, McuLines(p, comps), row, col);
    PlacesOfMcu(p, comps, row, col);
    assert a in McuPlaces(p, comps, row, col);
    n :| 0 <= n < |ScanPlaces(p, comps)[m]| && ScanPlaces(p, comps)[m][n] == a;
  }

  lemma McuOf(p: Picture, comps: seq<int>, j: nat, a: Place) returns (row: nat, col: nat)
    requires PictureOk(p) && CompsIn(p, comps) && j < |comps| && IsReal(p, a) && a.comp == comps[j]
    ensures row < McuLines(p, comps) && col < McuCols(p, comps) && InMcu(p, comps, row, col, j, a)
  {
    hide WidthInBlocks, HeightInBlocks, TotalRows;
    var c := p.comps[a.comp];
    if |comps| == 1 {
      row, col := a.y, a.x;
    } else {
      row := Quotient(a.y, c.v, TotalRows(p)) by { PaddedHeight(p, a.comp); }
      col := Quotient(a.x, c.h, McuCols(p, comps)) by { PaddedWidth(p, a.comp); }
    }
  }

  lemma PaddedHeight(p: Picture, i: nat)
    requires PictureOk(p) && i < |p.comps|
    ensures HeightInBlocks(p, p.comps[i]) <= TotalRows(p) * p.comps[i].v
  {
    ScaledCount(p.height, p.comps[i].v, MaxV(p.comps) * DCTSIZE);
  }

  lemma PaddedWidth(p: Picture, i: nat)
    requires PictureOk(p) && i < |p.comps|
    ensures WidthInBlocks(p, p.comps[i]) <= CeilDiv(p.width, MaxH(p.comps) * DCTSIZE) * p.comps[i].h
  {
    ScaledCount(p.width, p.comps[i].h, MaxH(p.comps) * DCTSIZE);
  }

  lemma Quotient(n: nat, k: nat, total: nat) returns (q: nat)
    requires k > 0 && n < total * k
    ensures q < total && q * k <= n < q * k + k
  {
    q := n / k;
    assert n == q * k + n % k;
    if q >= total {
      MulMonotone(total, q, k);
    }
  }

  // ----- The blocks of a scan

  /** The block at a place, as in the compressor's virtual arrays: real, or the dummy block that pads the image there. */
  function BlockAt(p: Picture, a: Place): Block {
    if a.comp < |p.comps| && CanPad(p, p.comps[a.comp])
    then Padded(p.comps[a.comp].rows, McuWidth(p, p.comps[a.comp]), a.y, a.x) else DcOnly(0)
  }

  predicate CanPad(p: Picture, c: Component) {
    McuWidth(p, c) > 0 && c.rows != [] && forall i :: 0 <= i < |c.rows| ==> c.rows[i] != []
  }

  lemma BlockIs(p: Picture, a: Place)
    requires PictureOk(p) && a.comp < |p.comps|
    ensures CanPad(p, p.comps[a.comp])
    ensures BlockAt(p, a) == Padded(p.comps[a.comp].rows, McuWidth(p, p.comps[a.comp]), a.y, a.x)
    ensures IsReal(p, a) ==> BlockAt(p, a) == p.comps[a.comp].rows[a.y][a.x]
  {
    HasBlocks(p, a.comp);
  }

  /** Blocks by their place: of the image to be coded, or of the decoder's arrays. */
  type Store = Place -> Block

  function ImageOf(p: Picture): Store {
    a => BlockAt(p, a)
  }

  function Blocks(d: Store, l: seq<Place>): (bs: seq<Block>)
    ensures |bs| == |l|
  {
    seq(|l|, n requires 0 <= n < |l| => d(l[n]))
  }

  function Mcus(d: Store, l: seq<seq<Place>>): (mcus: seq<seq<Block>>)
    ensures |mcus| == |l|
  {
    seq(|l|, m requires 0 <= m < |l| => Blocks(d, l[m]))
  }

  // ----- The scan of all components

  function Everything(p: Picture): (comps: seq<int>)
    requires p.comps != []
    ensures CompsIn(p, comps) && |comps| == |p.comps|
  {
    seq(|p.comps|, i requires 0 <= i < |p.comps| => i)
  }

  /** Where the slots lie, in the MCU at (row, col). */
  function PlacesOf(p: Picture, row: nat, col: nat, slots: seq<Slot>): (l: seq<Place>)
    requires p.comps != [] && forall n :: 0 <= n < |slots| ==> slots[n].j < |p.comps|
    ensures |l| == |slots|
  {
    seq(|slots|, n requires 0 <= n < |slots| => PlaceOf(p, Everything(p), row, col, slots[n]))
  }

  lemma PlacesConcat(p: Picture, row: nat, col: nat, a: seq<Slot>, b: seq<Slot>)
    requires PictureOk(p)
    requires forall n :: 0 <= n < |a| ==> a[n].j < |p.comps|
    requires forall n :: 0 <= n < |b| ==> b[n].j < |p.comps|
    ensures forall n :: 0 <= n < |a + b| ==> (a + b)[n].j < |p.comps|
    ensures Blocks(ImageOf(p), PlacesOf(p, row, col, a + b))
         == Blocks(ImageOf(p), PlacesOf(p, row, col, a)) + Blocks(ImageOf(p), PlacesOf(p, row, col, b))
  {
    hide PictureOk, PlaceOf, BlockAt, Everything;
  }

  lemma {:induction false} RowBlocks(p: Picture, ci: nat, row: nat, yi: nat, col: nat, xi: nat)
    requires PictureOk(p) && ci < |p.comps|
    ensures var slots := SlotRow(ci, McuWidth(p, p.comps[ci]), yi, xi);
      && (forall n :: 0 <= n < |slots| ==> slots[n].j == ci)
      && Blocks(ImageOf(p), PlacesOf(p, row, col, slots)) == McuRow(p, ci, row * McuHeight(p, p.comps[ci]) + yi, col, xi)
    decreases McuWidth(p, p.comps[ci]) - xi
  {
    hide PictureOk, Padded;
    var w := McuWidth(p, p.comps[ci]);
    if xi < w {
      RowBlocks(p, ci, row, yi, col, xi + 1);
      BlockIs(p, PlaceOf(p, Everything(p), row, col, Slot(ci, yi, xi)));
      PlacesConcat(p, row, col, [Slot(ci, yi, xi)], SlotRow(ci, w, yi, xi + 1));
    }
  }

  lemma {:induction false} RowsBlocks(p: Picture, ci: nat, row: nat, r: nat, y: nat, yi: nat, col: nat)
    requires PictureOk(p) && ci < |p.comps| && row * McuHeight(p, p.comps[ci]) == r * p.comps[ci].v + y
    ensures var slots := SlotRows(ci, McuWidth(p, p.comps[ci]), McuHeight(p, p.comps[ci]), yi);
      && (forall n :: 0 <= n < |slots| ==> slots[n].j == ci)
      && Blocks(ImageOf(p), PlacesOf(p, row, col, slots)) == McuRows(p, ci, r, y, col, yi)
    decreases McuHeight(p, p.comps[ci]) - yi
  {
    hide PictureOk, McuRow, PlacesOf, Blocks, SlotRow;
    var w, h := McuWidth(p, p.comps[ci]), McuHeight(p, p.comps[ci]);
    if yi < h {
      RowBlocks(p, ci, row, yi, col, 0);
      RowsBlocks(p, ci, row, r, y, yi + 1, col);
      PlacesConcat(p, row, col, SlotRow(ci, w, yi, 0), SlotRows(ci, w, h, yi + 1));
    } else {
      NoBlocks(p, row, col);
    }
  }

  lemma NoBlocks(p: Picture, row: nat, col: nat)
    requires PictureOk(p)
    ensures Blocks(ImageOf(p), PlacesOf(p, row, col, [])) == []
  {
  }

  /** MCU row `row` of the scan lies at MCU row y of iMCU row r. */
  predicate IsLine(p: Picture, row: nat, r: nat, y: nat)
    requires p.comps != []
  {
    if Interleaved(p) then r == row && y == 0 else row == r * p.comps[0].v + y
  }

  lemma {:induction false} CompsBlocks(p: Picture, row: nat, r: nat, y: nat, col: nat, ci: nat)
    requires PictureOk(p) && ci <= |p.comps| && IsLine(p, row, r, y)
    ensures var slots := Slots(p, Everything(p), ci);
      && (forall n :: 0 <= n < |slots| ==> slots[n].j < |p.comps|)
      && Blocks(ImageOf(p), PlacesOf(p, row, col, slots)) == McuComps(p, r, y, col, ci)
    decreases |p.comps| - ci
  {
    hide PictureOk, PlacesOf, Blocks, SlotRows, McuRows;
    if ci < |p.comps| {
      RowsBlocks(p, ci, row, r, y, 0, col);
      CompsBlocks(p, row, r, y, col, ci + 1);
      PlacesConcat(p, row, col, SlotRows(ci, McuWidth(p, p.comps[ci]), McuHeight(p, p.comps[ci]), 0),
                   Slots(p, Everything(p), ci + 1));
    } else {
      NoBlocks(p, row, col);
    }
  }

  lemma McuBlocks(p: Picture, row: nat, r: nat, y: nat, col: nat)
    requires PictureOk(p) && IsLine(p, row, r, y)
    ensures Blocks(ImageOf(p), McuPlaces(p, Everything(p), row, col)) == McuAt(p, r, y, col)
  {
    hide PictureOk, McuComps, BlockAt, Slots, PlaceOf;
    CompsBlocks(p, row, r, y, col, 0);
    assert McuPlaces(p, Everything(p), row, col) == PlacesOf(p, row, col, Slots(p, Everything(p), 0));
  }

  lemma McusConcat(d: Store, a: seq<seq<Place>>, b: seq<seq<Place>>)
    ensures Mcus(d, a + b) == Mcus(d, a) + Mcus(d, b)
  {
    hide Blocks;
  }

  lemma LineBlocks(p: Picture, row: nat, r: nat, y: nat, col: nat)
    requires PictureOk(p) && IsLine(p, row, r, y)
    ensures Mcus(ImageOf(p), LinePlaces(p, Everything(p), row, col + 1))
         == Mcus(ImageOf(p), LinePlaces(p, Everything(p), row, col)) + [McuAt(p, r, y, col)]
  {
    hide PictureOk, Blocks, McuPlaces, McuAt;
    McuBlocks(p, row, r, y, col);
    McusConcat(ImageOf(p), LinePlaces(p, Everything(p), row, col), [McuPlaces(p, Everything(p), row, col)]);
  }

  /** The MCUs in front of any position are those of the layout. */
  lemma {:induction false} BeforeIsLayout(p: Picture, row: nat, r: nat, y: nat, col: nat)
    requires PictureOk(p) && r < TotalRows(p) && IsLine(p, row, r, y) && y <= RowsIn(p, r)
    ensures var comps := Everything(p);
      McusBefore(p, r, y, col) == Mcus(ImageOf(p), Layout(p, comps, row)) + Mcus(ImageOf(p), LinePlaces(p, comps, row, col))
    decreases r, y, col
  {
    hide PictureOk, Mcus, McuAt, McuPlaces, TotalRows, WidthInBlocks, LastRowHeight;
    HasComps(p);
    var comps := Everything(p);
    NoMcus(p);
    var l := Mcus(ImageOf(p), Layout(p, comps, row));
    assert l + [] == l;
    if col > 0 {
      BeforeIsLayout(p, row, r, y, col - 1);
      LineBlocks(p, row, r, y, col - 1);
      var x, z := Mcus(ImageOf(p), LinePlaces(p, comps, row, col - 1)), [McuAt(p, r, y, col - 1)];
      assert l + (x + z) == l + x + z;
    } else if y > 0 {
      BeforeIsLayout(p, row - 1, r, y - 1, McusPerRow(p));
      McusConcat(ImageOf(p), Layout(p, comps, row - 1), LinePlaces(p, comps, row - 1, McusPerRow(p)));
    } else if r > 0 {
      LineAbove(p, r);
      var n := RowsIn(p, r - 1);
      var last := if Interleaved(p) then r - 1 else row - 1;
      BeforeIsLayout(p, last, r - 1, n - 1, McusPerRow(p));
      McusConcat(ImageOf(p), Layout(p, comps, last), LinePlaces(p, comps, last, McusPerRow(p)));
      LastMcuRow(p, r - 1);
    }
  }

  lemma NoMcus(p: Picture)
    requires PictureOk(p)
    ensures Mcus(ImageOf(p), []) == []
  {
  }

  lemma LineAbove(p: Picture, r: nat)
    requires PictureOk(p) && 0 < r < TotalRows(p)
    ensures RowsIn(p, r - 1) >= 1
    ensures !Interleaved(p) ==> r * p.comps[0].v - 1 == (r - 1) * p.comps[0].v + (RowsIn(p, r - 1) - 1)
    ensures Interleaved(p) ==> RowsIn(p, r - 1) == 1
  {
    hide TotalRows, LastRowHeight;
    Distribute(r - 1, 1, p.comps[0].v);
  }

  lemma LastMcuRow(p: Picture, r: nat)
    requires PictureOk(p) && RowsIn(p, r) >= 1
    ensures McusBefore(p, r, RowsIn(p, r), 0) == McusBefore(p, r, RowsIn(p, r) - 1, McusPerRow(p))
  {
    hide PictureOk, RowsIn, McuAt;
  }

  /** The scan of all components, as the coefficient controllers of the compressor hand it to the encoder. */
  lemma ScanOfEverything(p: Picture)
    requires PictureOk(p)
    ensures ScanMcus(p) == Mcus(ImageOf(p), ScanPlaces(p, Everything(p)))
  {
    hide PictureOk, Mcus, McuAt, McuPlaces, McuLines, McusPerRow, LastRowHeight, LinePlaces, TotalRows;
    HasComps(p);
    LastLine(p);
    var comps, t := Everything(p), TotalRows(p);
    var n := RowsIn(p, t - 1);
    var last := McuLines(p, comps) - 1;
    BeforeIsLayout(p, last, t - 1, n - 1, McusPerRow(p));
    McusConcat(ImageOf(p), Layout(p, comps, last), LinePlaces(p, comps, last, McusPerRow(p)));
    LastMcuRow(p, t - 1);
    assert McusBefore(p, t, 0, 0) == McusBefore(p, t - 1, n, 0);
  }

  lemma HasComps(p: Picture)
    requires PictureOk(p)
    ensures p.comps != []
  {
  }

  lemma LastLine(p: Picture)
    requires PictureOk(p)
    ensures var t, lines := TotalRows(p), McuLines(p, Everything(p));
      t >= 1 && lines >= 1 && RowsIn(p, t - 1) >= 1 && IsLine(p, lines - 1, t - 1, RowsIn(p, t - 1) - 1)
    ensures McuCols(p, Everything(p)) == McusPerRow(p)
  {
    Extents(p, TotalRows(p) - 1);
    Rows(p, 0);
    ProductNonneg(TotalRows(p) - 1, p.comps[0].v);
  }
}
