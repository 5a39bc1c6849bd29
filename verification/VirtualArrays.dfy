/**
 The virtual coefficient arrays of jccoefct.c: compress_first_pass fills them, dummy blocks included, so that
 compress_output need not tell real blocks from dummy ones.
 */
module VirtualArrays {
  import opened Coefficients
  import opened McuGeometry
  import opened McuProducers

  function RoundUp(n: nat, k: nat): nat
    requires k > 0
  {
    CeilDiv(n, k) * k
  }

  predicate Sized(p: Picture, ci: nat, a: array2<Block>)
    requires PictureOk(p) && ci < |p.comps|
  {
    var c := p.comps[ci];
    a.Length0 == RoundUp(HeightInBlocks(p, c), c.v) && a.Length1 == RoundUp(WidthInBlocks(p, c), c.h)
  }

  /** The block that belongs at row y and column x of the array. */
  function Stored(p: Picture, ci: nat, y: nat, x: nat): Block
    requires PictureOk(p) && ci < |p.comps|
  {
    HasBlocks(p, ci);
    Padded(p.comps[ci].rows, p.comps[ci].h, y, x)
  }

  predicate RowLoaded(p: Picture, ci: nat, y: nat, a: array2<Block>)
    requires PictureOk(p) && ci < |p.comps| && y < a.Length0
    reads a
  {
    forall x :: 0 <= x < a.Length1 ==> a[y, x] == Stored(p, ci, y, x)
  }

  predicate Loaded(p: Picture, ci: nat, n: nat, a: array2<Block>)
    requires PictureOk(p) && ci < |p.comps|
    reads a
  {
    n <= a.Length0 && forall y :: 0 <= y < n ==> RowLoaded(p, ci, y, a)
  }

  /** The other rows of the array are as they were. */
  twostate predicate OnlyRow(a: array2<Block>, y: nat)
    reads a
  {
    forall i, j :: 0 <= i < a.Length0 && 0 <= j < a.Length1 && i != y ==> a[i, j] == old(a[i, j])
  }

  lemma StoredReal(p: Picture, ci: nat, y: nat, x: nat)
    requires PictureOk(p) && ci < |p.comps| && y < |p.comps[ci].rows| && x < |p.comps[ci].rows[y]|
    ensures Stored(p, ci, y, x) == p.comps[ci].rows[y][x]
  {
  }

  lemma StoredRight(p: Picture, ci: nat, y: nat, x: nat)
    requires PictureOk(p) && ci < |p.comps| && y < |p.comps[ci].rows| && x >= |p.comps[ci].rows[y]| > 0
    ensures Stored(p, ci, y, x) == DcOnly(Stored(p, ci, y, |p.comps[ci].rows[y]| - 1)[0])
  {
  }

  lemma StoredBelow(p: Picture, ci: nat, y: nat, m: nat, bi: nat)
    requires PictureOk(p) && ci < |p.comps| && y >= |p.comps[ci].rows| && y > 0 && bi < p.comps[ci].h
    ensures var h := p.comps[ci].h;
      Stored(p, ci, y, m * h + bi) == DcOnly(Stored(p, ci, y - 1, m * h + (h - 1))[0])
  {
    HasBlocks(p, ci);
    DivOfMcu(m, p.comps[ci].h, bi);
  }

  lemma RoundUpBy(n: nat, k: nat)
    requires n > 0 && k > 0
    ensures n <= RoundUp(n, k) && RoundUp(n, k) == n + (if n % k == 0 then 0 else k - n % k)
  {
    CeilBounds(n, k);
    var q := CeilDiv(n, k);
    LastIsRest(n, k, q);
    assert q * k == (q - 1) * k + k;
  }

  lemma WidthPositive(p: Picture, ci: nat)
    requires PictureOk(p) && ci < |p.comps|
    ensures WidthInBlocks(p, p.comps[ci]) > 0 && HeightInBlocks(p, p.comps[ci]) > 0
  {
    HasBlocks(p, ci);
    assert p.comps[ci].rows[0] != [];
  }

  /** A row of real blocks, and the dummy blocks at its right. */
  method LoadRealRow(p: Picture, ci: nat, y: nat, a: array2<Block>)
    requires PictureOk(p) && ci < |p.comps| && Sized(p, ci, a) && y < |p.comps[ci].rows| && y < a.Length0
    requires Loaded(p, ci, y, a)
    modifies a
    ensures Loaded(p, ci, y + 1, a)
  {
    hide Stored;
    var c := p.comps[ci];
    var across := WidthInBlocks(p, c);
    WidthPositive(p, ci);
    RoundUpBy(across, c.h);
    var ndummy := across % c.h;
    if ndummy > 0 {
      ndummy := c.h - ndummy;
    }
    for bi := 0 to across
      invariant forall x :: 0 <= x < bi ==> a[y, x] == Stored(p, ci, y, x)
      invariant OnlyRow(a, y)
    {
      StoredReal(p, ci, y, bi);
      a[y, bi] := c.rows[y][bi];
    }
    var lastDc := a[y, across - 1][0];
    for bi := 0 to ndummy
      invariant forall x :: 0 <= x < across + bi ==> a[y, x] == Stored(p, ci, y, x)
      invariant OnlyRow(a, y)
    {
      StoredRight(p, ci, y, across + bi);
      a[y, across + bi] := DcOnly(lastDc);
    }
    forall i | 0 <= i < y
      ensures RowLoaded(p, ci, i, a)
    {
      assert old(RowLoaded(p, ci, i, a));
    }
  }

  lemma McusAcross(p: Picture, ci: nat, m: nat)
    requires PictureOk(p) && ci < |p.comps|
    ensures var c := p.comps[ci];
      var wide := RoundUp(WidthInBlocks(p, c), c.h);
      wide / c.h * c.h == wide && (m < wide / c.h ==> (m + 1) * c.h <= wide)
  {
    var c := p.comps[ci];
    var q := CeilDiv(WidthInBlocks(p, c), c.h);
    DivUnique(q * c.h, c.h, q, 0);
    if m < q {
      MulMonotone(m + 1, q, c.h);
    }
  }

  /** A row of dummy blocks: each MCU repeats the DC value of its last block in the row above. */
  method LoadDummyRow(p: Picture, ci: nat, y: nat, a: array2<Block>)
    requires PictureOk(p) && ci < |p.comps| && Sized(p, ci, a) && |p.comps[ci].rows| <= y < a.Length0 && y > 0
    requires Loaded(p, ci, y, a)
    modifies a
    ensures Loaded(p, ci, y + 1, a)
  {
    hide Stored, PictureOk;
    assert RowLoaded(p, ci, y - 1, a);
    var h := HFactor(p, ci);
    var across := a.Length1 / h;
    McusAcross(p, ci, 0);
    var m := 0;
    while m < across
      invariant m <= across && m * h <= a.Length1
      invariant forall x :: 0 <= x < m * h ==> a[y, x] == Stored(p, ci, y, x)
      invariant OnlyRow(a, y) && RowLoaded(p, ci, y - 1, a)
    {
      McusAcross(p, ci, m);
      Distribute(m, 1, h);
      var lastDc := a[y - 1, m * h + (h - 1)][0];
      ghost var above := Stored(p, ci, y - 1, m * h + (h - 1));
      assert a[y - 1, m * h + (h - 1)] == above;
      for bi := 0 to h
        invariant forall x :: 0 <= x < m * h + bi ==> a[y, x] == Stored(p, ci, y, x)
        invariant OnlyRow(a, y)
      {
        StoredBelow(p, ci, y, m, bi);
        a[y, m * h + bi] := DcOnly(lastDc);
      }
      m := m + 1;
    }
    assert m * h == a.Length1;
    forall i | 0 <= i < y
      ensures RowLoaded(p, ci, i, a)
    {
      assert old(RowLoaded(p, ci, i, a));
    }
  }

  function HFactor(p: Picture, ci: nat): (h: nat)
    requires PictureOk(p) && ci < |p.comps|
    ensures h > 0 && h == p.comps[ci].h
  {
    p.comps[ci].h
  }

  lemma StripRows(p: Picture, ci: nat, r: nat)
    requires PictureOk(p) && ci < |p.comps| && r < TotalRows(p)
    ensures var c, t := p.comps[ci], TotalRows(p);
      && c.v > 0 && RoundUp(HeightInBlocks(p, c), c.v) == t * c.v && (r + 1) * c.v <= t * c.v
      && (r + 1) * c.v == r * c.v + c.v
      && (r + 1 < t ==> (r + 1) * c.v <= |c.rows|)
      && (r + 1 == t ==> r * c.v + LastRowHeight(p, c) == |c.rows|)
  {
    var c, t := p.comps[ci], TotalRows(p);
    Rows(p, ci);
    Distribute(t - 1, 1, c.v);
    Distribute(r, 1, c.v);
    MulMonotone(r + 1, t, c.v);
    CeilUnique(HeightInBlocks(p, c), c.v, t);
    if r + 1 < t {
      MulMonotone(r + 1, t - 1, c.v);
    }
  }

  /** compress_first_pass for one component of iMCU row r. */
  method LoadComponent(p: Picture, ci: nat, r: nat, a: array2<Block>)
    requires PictureOk(p) && ci < |p.comps| && Sized(p, ci, a) && r < TotalRows(p)
    requires Loaded(p, ci, r * p.comps[ci].v, a)
    modifies a
    ensures Loaded(p, ci, (r + 1) * p.comps[ci].v, a)
  {
    hide PictureOk, RowLoaded, Loaded, OnlyRow, RoundUp;
    StripRows(p, ci, r);
    var c := p.comps[ci];
    var base := r * c.v;
    var blockRows := if r + 1 < TotalRows(p) then c.v else LastRowHeight(p, c);
    for blockRow := 0 to blockRows
      invariant Loaded(p, ci, base + blockRow, a)
    {
      LoadRealRow(p, ci, base + blockRow, a);
    }
    if r + 1 == TotalRows(p) {
      for blockRow := blockRows to c.v
        invariant Loaded(p, ci, base + blockRow, a)
      {
          LoadDummyRow(p, ci, base + blockRow, a);
      }
    }
  }
}
