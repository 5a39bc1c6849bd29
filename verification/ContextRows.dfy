/**
 The funny lists of row pointers in the decompressor's main buffer (jdmainct.c).  A list is row w of xbuffer; its entry j, counted
 from one row group before the master pointer on, is the number of a workspace row.  g is the height of a row group and
 b the height of M - 2 of them.
 */
module ContextRows {
  import opened McuGeometry
  import opened Samples
  import opened ContextGeometry

  predicate ListSize(x: array2<nat>, g: nat, b: nat) {
    g > 0 && x.Length0 == 2 && x.Length1 == b + 6 * g
  }

  /** What both lists hold at all times, above the bottom of the image. */
  predicate Main(x: array2<nat>, w: nat, g: nat, b: nat)
    requires w <= 1 && ListSize(x, g, b)
    reads x
  {
    forall j :: g <= j < b + 5 * g ==> x[w, j] == Phys(w, g, b, j - g)
  }

  /** At the top of the image, the rows above repeat the first one. */
  predicate TopLists(x: array2<nat>, g: nat, b: nat)
    requires ListSize(x, g, b)
    reads x
  {
    Main(x, 0, g, b) && Main(x, 1, g, b) && forall j :: 0 <= j < g ==> x[0, j] == 0
  }

  predicate Above(x: array2<nat>, w: nat, g: nat, b: nat)
    requires w <= 1 && ListSize(x, g, b)
    reads x
  {
    forall j :: 0 <= j < g ==> x[w, j] == Phys(w, g, b, b + 3 * g + j)
  }

  predicate Below(x: array2<nat>, w: nat, g: nat, b: nat)
    requires w <= 1 && ListSize(x, g, b)
    reads x
  {
    forall j :: b + 5 * g <= j < b + 6 * g ==> x[w, j] == Phys(w, g, b, j - b - 5 * g)
  }

  /** In the normal state, the lists wrap around at both ends. */
  predicate NormalLists(x: array2<nat>, g: nat, b: nat)
    requires ListSize(x, g, b)
    reads x
  {
    forall w :: 0 <= w <= 1 ==> Main(x, w, g, b) && Above(x, w, g, b) && Below(x, w, g, b)
  }

  /** At the bottom of the image, the rows below repeat the last one. */
  predicate BottomList(x: array2<nat>, w: nat, g: nat, b: nat, left: nat)
    requires w <= 1 && ListSize(x, g, b) && 0 < left <= b + 2 * g
    reads x
  {
    && (forall j :: g <= j < g + left ==> x[w, j] == Phys(w, g, b, j - g))
    && forall j :: g + left <= j < left + 3 * g ==> x[w, j] == Phys(w, g, b, left - 1)
  }

  method MakeFunnyPointers(x: array2<nat>, g: nat, b: nat)
    requires ListSize(x, g, b)
    modifies x
    ensures TopLists(x, g, b)
  {
    for i := 0 to b + 4 * g
      invariant forall j, w :: g <= j < g + i && 0 <= w <= 1 ==> x[w, j] == j - g
    {
      x[0, g + i], x[1, g + i] := i, i;
    }
    for i := 0 to 2 * g
      invariant forall j :: g <= j < b + 5 * g ==> x[0, j] == j - g
      invariant forall j :: g <= j < g + b ==> x[1, j] == j - g
      invariant forall j :: g + b <= j < g + b + i ==> x[1, j] == j + g
      invariant forall j :: b + 3 * g <= j < b + 3 * g + i ==> x[1, j] == j - 3 * g
    {
      x[1, g + b + i] := b + 2 * g + i;
      x[1, g + b + 2 * g + i] := b + i;
    }
    assert Main(x, 0, g, b) && Main(x, 1, g, b);
    for i := 0 to g
      invariant Main(x, 0, g, b) && Main(x, 1, g, b)
      invariant forall j :: 0 <= j < i ==> x[0, j] == 0
    {
      assert x[0, g] == 0;
      x[0, i] := x[0, g];
    }
  }

  method SetWraparoundPointers(x: array2<nat>, g: nat, b: nat)
    requires ListSize(x, g, b)
    modifies x
    ensures old(Main(x, 0, g, b) && Main(x, 1, g, b)) ==> NormalLists(x, g, b)
  {
    hide Phys;
    ghost var normal := Main(x, 0, g, b) && Main(x, 1, g, b);
    for i := 0 to g
      invariant normal ==> Main(x, 0, g, b) && Main(x, 1, g, b)
      invariant forall j, w :: 0 <= j < i && 0 <= w <= 1 && normal ==> x[w, j] == Phys(w, g, b, b + 3 * g + j)
      invariant forall j, w :: b + 5 * g <= j < b + 5 * g + i && 0 <= w <= 1 && normal ==>
        x[w, j] == Phys(w, g, b, j - b - 5 * g)
    {
      x[0, i] := x[0, g + (b + 3 * g + i)];
      x[1, i] := x[1, g + (b + 3 * g + i)];
      x[0, g + (b + 4 * g + i)] := x[0, g + i];
      x[1, g + (b + 4 * g + i)] := x[1, g + i];
    }
  }

  /** The rows above stay as they are. */
  method SetBottomPointers(x: array2<nat>, w: nat, g: nat, b: nat, left: nat)
    requires w <= 1 && ListSize(x, g, b) && Main(x, w, g, b) && 0 < left <= b + 2 * g
    modifies x
    ensures BottomList(x, w, g, b, left) && forall j :: 0 <= j < g ==> x[w, j] == old(x[w, j])
  {
    hide Phys;
    for i := 0 to 2 * g
      invariant forall j :: g <= j < g + left ==> x[w, j] == Phys(w, g, b, j - g)
      invariant forall j :: g + left <= j < g + left + i ==> x[w, j] == Phys(w, g, b, left - 1)
      invariant forall j :: 0 <= j < g ==> x[w, j] == old(x[w, j])
    {
      assert x[w, g + (left - 1)] == Phys(w, g, b, left - 1);
      x[w, g + left + i] := x[w, g + (left - 1)];
    }
  }

  // ----- The workspace

  /** Rows lo up to the end of the iMCU row that lies at img[base..] are where list w has them. */
  ghost predicate Held(buf: array<Row>, img: seq<Row>, base: int, w: nat, g: nat, b: nat, lo: nat)
    requires buf.Length == b + 4 * g && 0 <= base && base + b + 2 * g <= |img| && w <= 1
    reads buf
  {
    forall j :: lo <= j < b + 2 * g ==> buf[Phys(w, g, b, j)] == img[base + j]
  }

  lemma PhysDistinct(w: nat, other: nat, g: nat, b: nat, j: nat)
    requires w + other == 1 && j < b + 2 * g
    ensures 0 <= Phys(w, g, b, j) < b + 4 * g
    ensures forall k :: 0 <= k < b + 2 * g && k != j ==> Phys(w, g, b, k) != Phys(w, g, b, j)
    ensures forall k :: b <= k < b + 2 * g ==> Phys(other, g, b, k) != Phys(w, g, b, j)
  {
  }

  /**
   The coefficient controller's decompress_data through list w: an iMCU row, or, if it is suspended, whatever it leaves
   there.  The last two row groups behind the other list stay.
   */
  method DecompressData(x: array2<nat>, buf: array<Row>, w: nat, g: nat, b: nat, rows: seq<Row>,
                        ghost prev: seq<Row>, ghost prevBase: int)
    requires w <= 1 && ListSize(x, g, b) && Main(x, w, g, b) && buf.Length == b + 4 * g && |rows| == b + 2 * g
    requires prev != [] ==> 0 <= prevBase && prevBase + b + 2 * g <= |prev| && Held(buf, prev, prevBase, 1 - w, g, b, b)
    modifies buf
    ensures Held(buf, rows, 0, w, g, b, 0) && (prev != [] ==> Held(buf, prev, prevBase, 1 - w, g, b, b))
  {
    for j := 0 to b + 2 * g
      invariant forall k :: 0 <= k < j ==> buf[Phys(w, g, b, k)] == rows[k]
      invariant prev != [] ==> Held(buf, prev, prevBase, 1 - w, g, b, b)
    {
      PhysDistinct(w, 1 - w, g, b, j);
      buf[x[w, g + j]] := rows[j];
    }
  }

  // ----- What a list shows

  ghost predicate LaneSize(f: Frame, ci: nat, x: array2<nat>, buf: array<Row>, img: seq<Row>)
    requires FrameOk(f) && ci < |f.lanes|
  {
    && ListSize(x, Rgroup(f, ci), Body(f, ci)) && buf.Length == Body(f, ci) + 4 * Rgroup(f, ci)
    && |img| == RowsBefore(f, ci, TotalImcuRows(f))
  }

  lemma BaseFits(f: Frame, ci: nat, r: nat)
    requires FrameOk(f) && ci < |f.lanes| && r < TotalImcuRows(f)
    ensures RowsBefore(f, ci, r) + Body(f, ci) + 2 * Rgroup(f, ci) <= RowsBefore(f, ci, TotalImcuRows(f))
    ensures RowsBefore(f, ci, r + 1) == RowsBefore(f, ci, r) + Body(f, ci) + 2 * Rgroup(f, ci)
    ensures r + 1 < TotalImcuRows(f) ==> RowsBefore(f, ci, r + 1) < DownsampledHeight(f, ci)
    ensures RowsBefore(f, ci, r) < DownsampledHeight(f, ci) <= RowsBefore(f, ci, TotalImcuRows(f))
    ensures RowsBefore(f, ci, 0) == 0
  {
    hide Rgroup, Body, TotalImcuRows, DownsampledHeight, ImcuHeight, FrameOk;
    var h, t := ImcuHeight(f, ci), TotalImcuRows(f);
    ImcuIsBody(f, ci);
    Layout(f, ci);
    Distribute(r, 1, h);
    MulMonotone(r + 1, t, h);
    MulMonotone(r, t - 1, h);
    if r + 1 < t {
      MulMonotone(r + 1, t - 1, h);
    }
  }

  /** iMCU row r, from its row lo on, is in the workspace. */
  ghost predicate HeldImcu(f: Frame, ci: nat, buf: array<Row>, img: seq<Row>, r: nat, lo: nat)
    requires FrameOk(f) && ci < |f.lanes| && r < TotalImcuRows(f)
    requires buf.Length == Body(f, ci) + 4 * Rgroup(f, ci) && |img| == RowsBefore(f, ci, TotalImcuRows(f))
    reads buf
  {
    BaseFits(f, ci, r);
    Held(buf, img, RowsBefore(f, ci, r), r % 2, Rgroup(f, ci), Body(f, ci), lo)
  }

  /** iMCU row r has been read, and the last two row groups of the one before it are still there. */
  ghost predicate Received(f: Frame, ci: nat, x: array2<nat>, buf: array<Row>, img: seq<Row>, r: nat)
    requires FrameOk(f) && ci < |f.lanes| && r < TotalImcuRows(f) && LaneSize(f, ci, x, buf, img)
    reads buf
  {
    HeldImcu(f, ci, buf, img, r, 0) && (r > 0 ==> HeldImcu(f, ci, buf, img, r - 1, Body(f, ci)))
  }

  /** The lists while iMCU row r is read and the first M - 1 of its row groups are handed over. */
  ghost predicate Lists(f: Frame, ci: nat, x: array2<nat>, r: nat)
    requires FrameOk(f) && ci < |f.lanes| && ListSize(x, Rgroup(f, ci), Body(f, ci))
    reads x
  {
    if r == 0 then TopLists(x, Rgroup(f, ci), Body(f, ci)) else NormalLists(x, Rgroup(f, ci), Body(f, ci))
  }

  ghost predicate ListsAtBottom(f: Frame, ci: nat, x: array2<nat>)
    requires FrameOk(f) && ci < |f.lanes| && ListSize(x, Rgroup(f, ci), Body(f, ci))
    reads x
  {
    BottomGroups(f, ci);
    ImcuIsBody(f, ci);
    Layout(f, ci);
    var g, b, w := Rgroup(f, ci), Body(f, ci), (TotalImcuRows(f) - 1) % 2;
    && BottomList(x, w, g, b, RowsLeft(f, ci))
    && if TotalImcuRows(f) == 1 then forall j :: 0 <= j < g ==> x[w, j] == 0 else Above(x, w, g, b)
  }

  /** Entry s of list w leads to row y of the component. */
  ghost predicate Shows(x: array2<nat>, buf: array<Row>, w: nat, s: int, img: seq<Row>, y: int)
    reads x, buf
  {
    && 0 <= w < x.Length0 && 0 <= s < x.Length1 && x[w, s] < buf.Length && 0 <= y < |img|
    && buf[x[w, s]] == img[y]
  }

  lemma ShowsImcu(x: array2<nat>, buf: array<Row>, img: seq<Row>, w: nat, g: nat, b: nat, base: int, s: int)
    requires w <= 1 && ListSize(x, g, b) && buf.Length == b + 4 * g && 0 <= base && base + b + 2 * g <= |img|
    requires Held(buf, img, base, w, g, b, 0) && g <= s < b + 3 * g && x[w, s] == Phys(w, g, b, s - g)
    ensures Shows(x, buf, w, s, img, base + s - g)
  {
  }

  /** Behind its own iMCU row, or in front of it, a list shows the last two row groups of the row before. */
  lemma ShowsTail(x: array2<nat>, buf: array<Row>, img: seq<Row>, w: nat, other: nat, g: nat, b: nat, base: int, s: int, j: int)
    requires w + other == 1 && ListSize(x, g, b) && buf.Length == b + 4 * g && 0 <= base && base + b + 2 * g <= |img|
    requires Held(buf, img, base, other, g, b, b) && b <= j < b + 2 * g
    requires 0 <= s < b + 6 * g && x[w, s] == Phys(w, g, b, j + 2 * g)
    ensures Shows(x, buf, w, s, img, base + j)
  {
    PhysCrosses(other, g, b, j);
    assert buf[Phys(other, g, b, j)] == img[base + j];
  }

  lemma Parity(r: nat)
    requires r > 0
    ensures r % 2 + (r - 1) % 2 == 1
  {
  }

  /** The rows above a row group that is the first of its iMCU row. */
  lemma ShowsAbove(f: Frame, ci: nat, x: array2<nat>, buf: array<Row>, img: seq<Row>, r: nat, s: nat)
    requires FrameOk(f) && ci < |f.lanes| && r < TotalImcuRows(f) && LaneSize(f, ci, x, buf, img)
    requires Received(f, ci, x, buf, img, r) && s < Rgroup(f, ci)
    requires if r == 0 then x[0, s] == 0 else Above(x, r % 2, Rgroup(f, ci), Body(f, ci))
    ensures var row := RowsBefore(f, ci, r) + s - Rgroup(f, ci);
      Shows(x, buf, r % 2, s, img, if row < 0 then 0 else row)
    ensures r > 0 ==> RowsBefore(f, ci, r) >= Rgroup(f, ci)
  {
    hide Rgroup, Body, TotalImcuRows, DownsampledHeight, RowsBefore, FrameOk;
    var g, b := Rgroup(f, ci), Body(f, ci);
    BaseFits(f, ci, r);
    if r == 0 {
      assert buf[Phys(0, g, b, 0)] == img[0 + 0];
    } else {
      BaseFits(f, ci, r - 1);
      Parity(r);
      ShowsTail(x, buf, img, r % 2, (r - 1) % 2, g, b, RowsBefore(f, ci, r - 1), s, b + g + s);
    }
  }

  /** One of the first M - 1 row groups of iMCU row r, which is not the last. */
  lemma ImcuView(f: Frame, ci: nat, x: array2<nat>, buf: array<Row>, img: seq<Row>, r: nat, k: nat, o: nat)
    requires FrameOk(f) && ci < |f.lanes| && r + 1 < TotalImcuRows(f) && LaneSize(f, ci, x, buf, img)
    requires Received(f, ci, x, buf, img, r) && Lists(f, ci, x, r) && k + 1 < f.m && o < 3 * Rgroup(f, ci)
    ensures Shows(x, buf, r % 2, k * Rgroup(f, ci) + o, img, SourceRow(f, ci, r * f.m + k, o))
  {
    hide Rgroup, Body, TotalImcuRows, DownsampledHeight, RowsBefore, FrameOk, Shows, TopLists, NormalLists;
    var g, b := Rgroup(f, ci), Body(f, ci);
    var s := k * g + o;
    BaseFits(f, ci, r);
    RowOfGroup(f, ci, r, k);
    GroupInBody(f, ci, k);
    ListsMean(f, ci, x, r);
    if s < g {
      ShowsAbove(f, ci, x, buf, img, r, s);
    } else {
      ShowsImcu(x, buf, img, r % 2, g, b, RowsBefore(f, ci, r), s);
    }
  }

  lemma ListsMean(f: Frame, ci: nat, x: array2<nat>, r: nat)
    requires FrameOk(f) && ci < |f.lanes| && ListSize(x, Rgroup(f, ci), Body(f, ci)) && Lists(f, ci, x, r)
    ensures Main(x, r % 2, Rgroup(f, ci), Body(f, ci)) && Main(x, 1 - r % 2, Rgroup(f, ci), Body(f, ci))
    ensures if r == 0 then forall j :: 0 <= j < Rgroup(f, ci) ==> x[0, j] == 0 else Above(x, r % 2, Rgroup(f, ci), Body(f, ci))
    ensures r > 0 ==> Below(x, r % 2, Rgroup(f, ci), Body(f, ci))
  {
  }

  lemma GroupInBody(f: Frame, ci: nat, k: nat)
    requires FrameOk(f) && ci < |f.lanes|
    ensures k + 1 < f.m ==> k * Rgroup(f, ci) <= Body(f, ci)
    ensures (f.m + 1) * Rgroup(f, ci) == Body(f, ci) + 3 * Rgroup(f, ci)
  {
    var g := Rgroup(f, ci);
    if k + 1 < f.m {
      MulMonotone(k, f.m - 2, g);
    }
    Distribute(f.m - 2, 3, g);
    assert g * (f.m - 2) == (f.m - 2) * g;
  }

  /** A row group of the last iMCU row, once the lists repeat the last row. */
  lemma BottomView(f: Frame, ci: nat, x: array2<nat>, buf: array<Row>, img: seq<Row>, r: nat, k: nat, o: nat)
    requires FrameOk(f) && ci < |f.lanes| && r + 1 == TotalImcuRows(f) && LaneSize(f, ci, x, buf, img)
    requires Received(f, ci, x, buf, img, r) && ListsAtBottom(f, ci, x) && k < LastGroups(f) && o < 3 * Rgroup(f, ci)
    ensures Shows(x, buf, r % 2, k * Rgroup(f, ci) + o, img, SourceRow(f, ci, r * f.m + k, o))
  {
    hide Rgroup, Body, TotalImcuRows, DownsampledHeight, RowsBefore, RowsLeft, FrameOk, LastGroups;
    var g, b, left := Rgroup(f, ci), Body(f, ci), RowsLeft(f, ci);
    var s := k * g + o;
    BaseFits(f, ci, r);
    Layout(f, ci);
    RowOfGroup(f, ci, r, k);
    BottomGroups(f, ci);
    ImcuIsBody(f, ci);
    MulMonotone(k, LastGroups(f) - 1, g);
    if s < g {
      ShowsAbove(f, ci, x, buf, img, r, s);
    } else if s < g + left {
      ShowsImcu(x, buf, img, r % 2, g, b, RowsBefore(f, ci, r), s);
    } else {
      assert buf[Phys(r % 2, g, b, left - 1)] == img[RowsBefore(f, ci, r) + (left - 1)];
      NotPostponed(f, r, k);
    }
  }

  lemma NotPostponed(f: Frame, r: nat, k: nat)
    requires FrameOk(f) && r + 1 == TotalImcuRows(f)
    ensures r * f.m + k + 1 != (TotalImcuRows(f) - 1) * f.m
  {
  }

  /** The last row group of iMCU row r - 1, handed over when iMCU row r has been read. */
  lemma PostponedView(f: Frame, ci: nat, x: array2<nat>, buf: array<Row>, img: seq<Row>, r: nat, o: nat)
    requires FrameOk(f) && ci < |f.lanes| && 0 < r < TotalImcuRows(f) && LaneSize(f, ci, x, buf, img)
    requires Received(f, ci, x, buf, img, r) && Lists(f, ci, x, r) && o < 3 * Rgroup(f, ci)
    ensures 0 < r * f.m
    ensures Shows(x, buf, r % 2, (f.m + 1) * Rgroup(f, ci) + o, img, SourceRow(f, ci, r * f.m - 1, o))
  {
    hide Rgroup, Body, DownsampledHeight, RowsBefore, FrameOk, Shows, TopLists, NormalLists, TotalImcuRows;
    var g, b, w := Rgroup(f, ci), Body(f, ci), r % 2;
    var s := b + 3 * g + o;
    BaseFits(f, ci, r);
    BaseFits(f, ci, r - 1);
    GroupInBody(f, ci, 0);
    ListsMean(f, ci, x, r);
    Parity(r);
    LastOfImcu(f, ci, r);
    if o < 2 * g {
      assert x[w, s] == Phys(w, g, b, s - g);
      ShowsTail(x, buf, img, w, (r - 1) % 2, g, b, RowsBefore(f, ci, r - 1), s, b + o);
    } else {
      ShowsWrapped(x, buf, img, w, g, b, RowsBefore(f, ci, r), s);
      if r + 1 < TotalImcuRows(f) {
        BaseFits(f, ci, r + 1);
      } else {
        assert r == TotalImcuRows(f) - 1;
      }
    }
  }

  lemma ShowsWrapped(x: array2<nat>, buf: array<Row>, img: seq<Row>, w: nat, g: nat, b: nat, base: int, s: int)
    requires w <= 1 && ListSize(x, g, b) && buf.Length == b + 4 * g && 0 <= base && base + b + 2 * g <= |img|
    requires Held(buf, img, base, w, g, b, 0) && Below(x, w, g, b) && b + 5 * g <= s < b + 6 * g
    ensures Shows(x, buf, w, s, img, base + s - b - 5 * g)
  {
    assert buf[Phys(w, g, b, s - b - 5 * g)] == img[base + (s - b - 5 * g)];
  }

  lemma LastOfImcu(f: Frame, ci: nat, r: nat)
    requires FrameOk(f) && ci < |f.lanes| && r > 0
    ensures r * f.m > 0 && (r * f.m - 1) * Rgroup(f, ci) == RowsBefore(f, ci, r) - Rgroup(f, ci)
  {
    var g := Rgroup(f, ci);
    MulMonotone(1, r, f.m);
    RowOfGroup(f, ci, r, 0);
    Distribute(r * f.m - 1, 1, g);
  }
}
