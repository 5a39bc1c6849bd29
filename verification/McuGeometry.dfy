/**
 MCU geometry of the compressor: the dimensions that initial_setup and per_scan_setup (jcmaster.c) compute for a scan of
 all components, the padding blocks of section A.2.4 of ITU-T T.81, and the order of the MCUs.
 */
module McuGeometry {
  import opened Coefficients

  const DCTSIZE := 8

  function CeilDiv(a: nat, b: nat): (q: nat)
    requires b > 0
  {
    (a + b - 1) / b
  }

  /** A component: sampling factors and the real coefficient blocks, row by row. */
  datatype Component = Component(h: nat, v: nat, rows: seq<seq<Block>>)

  datatype Picture = Picture(width: nat, height: nat, comps: seq<Component>)

  const MAX_SAMP_FACTOR := 4

  function MaxH(cs: seq<Component>): (m: nat)
    ensures m >= 1 && forall i :: 0 <= i < |cs| ==> cs[i].h <= m
  {
    if cs == [] then 1
    else
      var n, last := MaxH(cs[..|cs| - 1]), cs[|cs| - 1];
      if last.h > n then last.h else n
  }

  function MaxV(cs: seq<Component>): (m: nat)
    ensures m >= 1 && forall i :: 0 <= i < |cs| ==> cs[i].v <= m
  {
    if cs == [] then 1
    else
      var n, last := MaxV(cs[..|cs| - 1]), cs[|cs| - 1];
      if last.v > n then last.v else n
  }

  // ----- initial_setup

  function WidthInBlocks(p: Picture, c: Component): nat {
    CeilDiv(p.width * c.h, MaxH(p.comps) * DCTSIZE)
  }

  function HeightInBlocks(p: Picture, c: Component): nat {
    CeilDiv(p.height * c.v, MaxV(p.comps) * DCTSIZE)
  }

  function TotalRows(p: Picture): nat {
    CeilDiv(p.height, MaxV(p.comps) * DCTSIZE)
  }

  predicate PictureOk(p: Picture) {
    && p.width > 0 && p.height > 0 && p.comps != []
    && forall i :: 0 <= i < |p.comps| ==>
      var c := p.comps[i];
      && 1 <= c.h <= MAX_SAMP_FACTOR && 1 <= c.v <= MAX_SAMP_FACTOR
      && |c.rows| == HeightInBlocks(p, c)
      && forall y :: 0 <= y < |c.rows| ==> |c.rows[y]| == WidthInBlocks(p, c)
  }

  // ----- per_scan_setup, for a scan of all components

  predicate Interleaved(p: Picture) {
    |p.comps| > 1
  }

  function McusPerRow(p: Picture): nat
    requires p.comps != []
  {
    if Interleaved(p) then CeilDiv(p.width, MaxH(p.comps) * DCTSIZE) else WidthInBlocks(p, p.comps[0])
  }

  function McuWidth(p: Picture, c: Component): nat {
    if Interleaved(p) then c.h else 1
  }

  function McuHeight(p: Picture, c: Component): nat {
    if Interleaved(p) then c.v else 1
  }

  /** tmp = n % k, or k if that is zero */
  function LastCount(n: nat, k: nat): (r: nat)
    requires k > 0
    ensures 1 <= r <= k
  {
    if n % k == 0 then k else n % k
  }

  function LastColWidth(p: Picture, c: Component): nat
    requires c.h > 0
  {
    LastCount(WidthInBlocks(p, c), McuWidth(p, c))
  }

  /** In a scan of one component, the block rows of the last iMCU row. */
  function LastRowHeight(p: Picture, c: Component): nat
    requires c.v > 0
  {
    LastCount(HeightInBlocks(p, c), c.v)
  }

  /** start_iMCU_row: the MCU rows of iMCU row r. */
  function RowsIn(p: Picture, r: nat): nat
    requires PictureOk(p)
  {
    if Interleaved(p) then 1
    else if r + 1 < TotalRows(p) then p.comps[0].v
    else LastRowHeight(p, p.comps[0])
  }

  // ----- The geometry fits

  lemma CeilBounds(a: nat, b: nat)
    requires a > 0 && b > 0
    ensures var q := CeilDiv(a, b); q >= 1 && (q - 1) * b < a <= q * b
  {
    var q := CeilDiv(a, b);
    assert a + b - 1 == q * b + (a + b - 1) % b;
    assert (q - 1) * b == q * b - b;
    assert q == 0 ==> q * b == 0;
  }

  lemma CeilUnique(a: nat, b: nat, q: nat)
    requires a > 0 && b > 0 && q >= 1 && (q - 1) * b < a <= q * b
    ensures CeilDiv(a, b) == q
  {
    CeilBounds(a, b);
    var t := CeilDiv(a, b);
    if t < q {
      MulMonotone(t, q - 1, b);
    } else if q < t {
      MulMonotone(q, t - 1, b);
    }
  }

  lemma MulMonotone(x: nat, y: nat, b: nat)
    requires x <= y
    ensures x * b <= y * b
  {
    assert y * b - x * b == (y - x) * b;
  }

  /** Scaling n samples by k / (m * d): the blocks of a component fit its MCUs, all but the last of which are full. */
  lemma ScaledCount(n: nat, k: nat, d: nat)
    requires n > 0 && k > 0 && d > 0
    ensures var q, blocks := CeilDiv(n, d), CeilDiv(n * k, d);
      q >= 1 && (q - 1) * k < blocks <= q * k
  {
    var q, blocks := CeilDiv(n, d), CeilDiv(n * k, d);
    CeilBounds(n, d);
    assert n * k > 0 by { MulMonotone(1, n, k); }
    CeilBounds(n * k, d);
    assert (q - 1) * d * k < n * k by { assert (q - 1) * d + 1 <= n; MulMonotone((q - 1) * d + 1, n, k); Distribute((q - 1) * d, 1, k); }
    assert n * k <= q * d * k by { MulMonotone(n, q * d, k); }
    Swap(q - 1, d, k);
    Swap(q, d, k);
    if blocks <= (q - 1) * k {
      MulMonotone(blocks, (q - 1) * k, d);
    }
    if blocks > q * k {
      MulMonotone(q * k, blocks - 1, d);
    }
  }

  lemma Distribute(x: nat, y: nat, k: nat)
    ensures (x + y) * k == x * k + y * k
  {
  }

  lemma Swap(x: nat, d: nat, k: nat)
    ensures x * d * k == x * k * d
  {
    assert x * d * k == x * (d * k);
    assert x * k * d == x * (k * d);
    assert d * k == k * d;
  }

  lemma LastIsRest(n: nat, k: nat, q: nat)
    requires k > 0 && q >= 1 && (q - 1) * k < n <= q * k
    ensures LastCount(n, k) == n - (q - 1) * k
  {
    var r := n - (q - 1) * k;
    assert q * k == (q - 1) * k + k;
    if r == k {
      ModUnique(n, k, q, 0);
    } else {
      ModUnique(n, k, q - 1, r);
    }
  }

  lemma ModUnique(n: nat, k: nat, q: nat, r: nat)
    requires k > 0 && r < k && n == q * k + r
    ensures n % k == r
  {
    var t := n / k;
    assert n == t * k + n % k;
    assert (t - q) * k == r - n % k by { assert (t - q) * k == t * k - q * k; }
    assert (q - t) * k == q * k - t * k;
    if t > q {
      MulMonotone(1, t - q, k);
    } else if t < q {
      MulMonotone(1, q - t, k);
    }
  }

  lemma DivUnique(n: nat, k: nat, q: nat, r: nat)
    requires k > 0 && r < k && n == q * k + r
    ensures n / k == q
  {
    ModUnique(n, k, q, r);
    DivExactly(n / k, q, k);
  }

  lemma DivExactly(t: nat, q: nat, k: nat)
    requires k > 0 && t * k == q * k
    ensures t == q
  {
    SmallerProduct(t, q, k);
    SmallerProduct(q, t, k);
  }

  lemma SmallerProduct(t: nat, q: nat, k: nat)
    requires k > 0
    ensures t < q ==> t * k < q * k
  {
    if t < q {
      MulMonotone(t + 1, q, k);
      Distribute(t, 1, k);
    }
  }

  /** Within one MCU row of blocks: all columns but the last are full, and the last holds LastColWidth real blocks. */
  lemma Columns(p: Picture, i: nat)
    requires PictureOk(p) && i < |p.comps|
    ensures var c, m := p.comps[i], McusPerRow(p);
      m >= 1 && (m - 1) * McuWidth(p, c) + LastColWidth(p, c) == WidthInBlocks(p, c)
  {
    var c := p.comps[i];
    if Interleaved(p) {
      ScaledCount(p.width, c.h, MaxH(p.comps) * DCTSIZE);
      LastIsRest(WidthInBlocks(p, c), c.h, McusPerRow(p));
    } else {
      var w := WidthInBlocks(p, c);
      assert p.width * c.h > 0 by { MulMonotone(1, p.width, c.h); }
      CeilBounds(p.width * c.h, MaxH(p.comps) * DCTSIZE);
      LastIsRest(w, 1, w);
    }
  }

  lemma Rows(p: Picture, i: nat)
    requires PictureOk(p) && i < |p.comps|
    ensures var c, t := p.comps[i], TotalRows(p);
      t >= 1 && (t - 1) * c.v + LastRowHeight(p, c) == HeightInBlocks(p, c)
  {
    var c := p.comps[i];
    ScaledCount(p.height, c.v, MaxV(p.comps) * DCTSIZE);
    LastIsRest(HeightInBlocks(p, c), c.v, TotalRows(p));
  }

  // ----- Padding

  /** A dummy block: all AC coefficients zero. */
  function DcOnly(dc: Coef): Block {
    seq(DCTSIZE2, k requires 0 <= k < DCTSIZE2 => if k == 0 then dc else 0)
  }

  /**
   The block at row y and column x of a component whose MCUs are w blocks wide: real, or a dummy block that repeats the
   DC value of the block in front of it in the MCU.
   */
  function Padded(rows: seq<seq<Block>>, w: nat, y: nat, x: nat): Block
    requires w > 0 && rows != [] && forall i :: 0 <= i < |rows| ==> rows[i] != []
    decreases y
  {
    if y < |rows| then
      if x < |rows[y]| then rows[y][x] else DcOnly(rows[y][|rows[y]| - 1][0])
    else DcOnly(Padded(rows, w, y - 1, x / w * w + (w - 1))[0])
  }

  /** The blocks from xi on of one block row of an MCU. */
  function McuRow(p: Picture, ci: nat, y: nat, col: nat, xi: nat): seq<Block>
    requires PictureOk(p) && ci < |p.comps|
    decreases McuWidth(p, p.comps[ci]) - xi
  {
    var c := p.comps[ci];
    var w := McuWidth(p, c);
    if xi >= w then []
    else
      HasBlocks(p, ci);
      [Padded(c.rows, w, y, col * w + xi)] + McuRow(p, ci, y, col, xi + 1)
  }

  lemma HasBlocks(p: Picture, ci: nat)
    requires PictureOk(p) && ci < |p.comps|
    ensures var c := p.comps[ci];
      McuWidth(p, c) > 0 && c.rows != [] && forall i :: 0 <= i < |c.rows| ==> c.rows[i] != []
  {
    hide TotalRows, McusPerRow, LastColWidth, LastRowHeight, WidthInBlocks, HeightInBlocks, McuWidth;
    var c := p.comps[ci];
    Rows(p, ci);
    Columns(p, ci);
    assert McuWidth(p, c) > 0 by { WidthIsPositive(p, c); }
    ProductNonneg(TotalRows(p) - 1, c.v);
    ProductNonneg(McusPerRow(p) - 1, McuWidth(p, c));
    LastIsPositive(p, c);
  }

  lemma ProductNonneg(a: nat, b: nat)
    ensures a * b >= 0
  {
  }

  lemma WidthIsPositive(p: Picture, c: Component)
    requires c.h > 0
    ensures McuWidth(p, c) > 0
  {
  }

  lemma LastIsPositive(p: Picture, c: Component)
    requires c.h > 0 && c.v > 0
    ensures LastRowHeight(p, c) > 0 && LastColWidth(p, c) > 0
  {
  }

  /** Block rows yi.. of component ci, in the MCU at column col of MCU row y of iMCU row r. */
  function McuRows(p: Picture, ci: nat, r: nat, y: nat, col: nat, yi: nat): seq<Block>
    requires PictureOk(p) && ci < |p.comps|
    decreases McuHeight(p, p.comps[ci]) - yi
  {
    if yi >= McuHeight(p, p.comps[ci]) then []
    else McuRow(p, ci, r * p.comps[ci].v + y + yi, col, 0) + McuRows(p, ci, r, y, col, yi + 1)
  }

  function McuComps(p: Picture, r: nat, y: nat, col: nat, ci: nat): seq<Block>
    requires PictureOk(p) && ci <= |p.comps|
    decreases |p.comps| - ci
  {
    if ci == |p.comps| then [] else McuRows(p, ci, r, y, col, 0) + McuComps(p, r, y, col, ci + 1)
  }

  function McuAt(p: Picture, r: nat, y: nat, col: nat): seq<Block>
    requires PictureOk(p)
  {
    McuComps(p, r, y, col, 0)
  }

  /** The MCUs in front of position (r, y, col), in the order of the scan. */
  function McusBefore(p: Picture, r: nat, y: nat, col: nat): seq<seq<Block>>
    requires PictureOk(p)
    decreases r, y, col
  {
    if col > 0 then McusBefore(p, r, y, col - 1) + [McuAt(p, r, y, col - 1)]
    else if y > 0 then McusBefore(p, r, y - 1, McusPerRow(p))
    else if r > 0 then McusBefore(p, r - 1, RowsIn(p, r - 1), 0)
    else []
  }

  // ----- Which blocks are real

  predicate InScan(p: Picture, ci: nat, r: nat, y: nat, yi: nat)
    requires PictureOk(p)
  {
    ci < |p.comps| && r < TotalRows(p) && y < RowsIn(p, r) && yi < McuHeight(p, p.comps[ci])
  }

  /** The test by which the producers tell real block rows from dummy ones. */
  lemma RealRows(p: Picture, ci: nat, r: nat, y: nat, yi: nat)
    requires PictureOk(p) && InScan(p, ci, r, y, yi)
    ensures var c := p.comps[ci];
      && (r * c.v + y + yi < |c.rows| <==> r + 1 < TotalRows(p) || y + yi < LastRowHeight(p, c))
      && (y + yi == 0 ==> r * c.v + y + yi < |c.rows|)
      && y + yi < c.v
  {
    var c, t := p.comps[ci], TotalRows(p);
    Rows(p, ci);
    if r + 1 < t {
      MulMonotone(r + 1, t - 1, c.v);
      Distribute(r, 1, c.v);
    } else {
      assert r == t - 1;
    }
  }

  lemma RealCols(p: Picture, ci: nat, col: nat)
    requires PictureOk(p) && ci < |p.comps| && col < McusPerRow(p)
    ensures var c := p.comps[ci];
      var w := McuWidth(p, c);
      var blockcnt := if col + 1 < McusPerRow(p) then w else LastColWidth(p, c);
      && 1 <= blockcnt <= w && col * w + blockcnt <= WidthInBlocks(p, c)
      && (blockcnt < w ==> col * w + blockcnt == WidthInBlocks(p, c))
  {
    var c, m := p.comps[ci], McusPerRow(p);
    var w := McuWidth(p, c);
    Columns(p, ci);
    if col + 1 < m {
      MulMonotone(col + 1, m - 1, w);
      Distribute(col, 1, w);
    } else {
      assert col == m - 1;
    }
  }
}
