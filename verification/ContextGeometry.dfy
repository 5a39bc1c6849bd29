/**
 The arithmetic of the decompressor's main buffer (jdmainct.c, jdmaster.c): sample rows, row groups and iMCU rows, the
 funny pointer lists, and the sample row that the upsampler must see at each place.
 */
module ContextGeometry {
  import opened McuGeometry
  import opened Samples

  /** v_samp_factor, and DCT_scaled_size as a multiple of min_DCT_scaled_size. */
  datatype Lane = Lane(v: nat, scale: nat)

  /** image_height, max_v_samp_factor, min_DCT_scaled_size and the components */
  datatype Frame = Frame(height: nat, maxV: nat, m: nat, lanes: seq<Lane>)

  predicate FrameOk(f: Frame) {
    && f.height > 0 && f.maxV > 0 && f.m >= 2 && f.lanes != []
    && forall i :: 0 <= i < |f.lanes| ==> f.lanes[i].v > 0 && f.lanes[i].scale > 0
  }

  /** Sample rows of a row group. */
  function Rgroup(f: Frame, ci: nat): (g: nat)
    requires FrameOk(f) && ci < |f.lanes|
    ensures g > 0
  {
    MulMonotone(1, f.lanes[ci].v, f.lanes[ci].scale);
    f.lanes[ci].v * f.lanes[ci].scale
  }

  /** iMCUheight: v_samp_factor * DCT_scaled_size */
  function ImcuHeight(f: Frame, ci: nat): nat
    requires FrameOk(f) && ci < |f.lanes|
  {
    Rgroup(f, ci) * f.m
  }

  function DownsampledHeight(f: Frame, ci: nat): nat
    requires FrameOk(f) && ci < |f.lanes|
  {
    CeilDiv(f.height * ImcuHeight(f, ci), f.maxV * DCTSIZE)
  }

  function TotalImcuRows(f: Frame): nat
    requires FrameOk(f)
  {
    CeilDiv(f.height, f.maxV * DCTSIZE)
  }

  /** The row groups that hold any real sample row. */
  function TotalGroups(f: Frame): nat
    requires FrameOk(f)
  {
    CeilDiv(f.height * f.m, f.maxV * DCTSIZE)
  }

  /** Sample rows of the iMCU rows in front of iMCU row r. */
  function RowsBefore(f: Frame, ci: nat, r: nat): nat
    requires FrameOk(f) && ci < |f.lanes|
  {
    r * ImcuHeight(f, ci)
  }

  /** rgroup * (M - 2): the rows of the groups that are stored at the same place in both lists. */
  function Body(f: Frame, ci: nat): nat
    requires FrameOk(f) && ci < |f.lanes|
  {
    Rgroup(f, ci) * (f.m - 2)
  }

  lemma ImcuIsBody(f: Frame, ci: nat)
    requires FrameOk(f) && ci < |f.lanes|
    ensures ImcuHeight(f, ci) == Body(f, ci) + 2 * Rgroup(f, ci)
  {
    assert Rgroup(f, ci) * f.m == Rgroup(f, ci) * (f.m - 2) + Rgroup(f, ci) * 2;
  }

  /** rows_left of set_bottom_pointers */
  function RowsLeft(f: Frame, ci: nat): nat
    requires FrameOk(f) && ci < |f.lanes|
  {
    var tmp := DownsampledHeight(f, ci) % Positive(ImcuHeight(f, ci));
    if tmp == 0 then ImcuHeight(f, ci) else tmp
  }

  function Positive(n: nat): (r: nat)
    ensures r > 0 && (n > 0 ==> r == n)
  {
    if n == 0 then 1 else n
  }

  /** Only the last iMCU row and the last row group may be incomplete. */
  lemma Layout(f: Frame, ci: nat)
    requires FrameOk(f) && ci < |f.lanes|
    ensures var h, d, t := ImcuHeight(f, ci), DownsampledHeight(f, ci), TotalImcuRows(f);
      && h > 0 && t >= 1 && RowsBefore(f, ci, t - 1) < d <= RowsBefore(f, ci, t)
      && RowsBefore(f, ci, t) == RowsBefore(f, ci, t - 1) + h && RowsLeft(f, ci) == d - RowsBefore(f, ci, t - 1)
  {
    MulMonotone(1, Rgroup(f, ci), f.m);
    ScaledCount(f.height, ImcuHeight(f, ci), f.maxV * DCTSIZE);
    LastIsRest(DownsampledHeight(f, ci), ImcuHeight(f, ci), TotalImcuRows(f));
    Distribute(TotalImcuRows(f) - 1, 1, ImcuHeight(f, ci));
  }

  lemma GroupLayout(f: Frame, ci: nat)
    requires FrameOk(f) && ci < |f.lanes|
    ensures var g, d, n := Rgroup(f, ci), DownsampledHeight(f, ci), TotalGroups(f);
      n >= 1 && (n - 1) * g < d <= n * g
  {
    var g := Rgroup(f, ci);
    MulMonotone(1, f.height, f.m);
    assert f.height * (g * f.m) == f.height * f.m * g by { assert g * f.m == f.m * g; }
    ScaledCount(f.height * f.m, g, f.maxV * DCTSIZE);
  }

  lemma GroupsPerImcu(f: Frame)
    requires FrameOk(f)
    ensures var t, n := TotalImcuRows(f), TotalGroups(f);
      t >= 1 && (t - 1) * f.m < n <= t * f.m && t * f.m == (t - 1) * f.m + f.m
  {
    ScaledCount(f.height, f.m, f.maxV * DCTSIZE);
    Distribute(TotalImcuRows(f) - 1, 1, f.m);
  }

  function LastGroups(f: Frame): (n: nat)
    requires FrameOk(f)
    ensures 1 <= n <= f.m
  {
    GroupsPerImcu(f);
    TotalGroups(f) - (TotalImcuRows(f) - 1) * f.m
  }

  lemma RowOfGroup(f: Frame, ci: nat, r: nat, k: nat)
    requires FrameOk(f) && ci < |f.lanes|
    ensures var g := Rgroup(f, ci); (r * f.m + k) * g == RowsBefore(f, ci, r) + k * g
  {
    var g := Rgroup(f, ci);
    Distribute(r * f.m, k, g);
    assert r * f.m * g == r * (g * f.m) by { assert f.m * g == g * f.m; }
  }

  lemma CountGroups(left: nat, g: nat, k: nat)
    requires g > 0 && k > 0 && (k - 1) * g < left <= k * g
    ensures (left - 1) / g + 1 == k
  {
    Distribute(k - 1, 1, g);
    DivUnique(left - 1, g, k - 1, left - 1 - (k - 1) * g);
  }

  lemma LastGroupRows(f: Frame, ci: nat)
    requires FrameOk(f) && ci < |f.lanes|
    ensures var g, d, k, t := Rgroup(f, ci), DownsampledHeight(f, ci), LastGroups(f), TotalImcuRows(f);
      t >= 1 && RowsBefore(f, ci, t - 1) + (k - 1) * g < d <= RowsBefore(f, ci, t - 1) + k * g
  {
    hide Rgroup, TotalImcuRows, DownsampledHeight, RowsBefore, ImcuHeight, TotalGroups;
    GroupLayout(f, ci);
    GroupsPerImcu(f);
    RowOfGroup(f, ci, TotalImcuRows(f) - 1, LastGroups(f));
    RowOfGroup(f, ci, TotalImcuRows(f) - 1, LastGroups(f) - 1);
  }

  /** The row group count that set_bottom_pointers finds does not depend on the component. */
  lemma BottomGroups(f: Frame, ci: nat)
    requires FrameOk(f) && ci < |f.lanes|
    ensures var g, left := Rgroup(f, ci), RowsLeft(f, ci);
      && 0 < left && (left - 1) / g + 1 == LastGroups(f)
      && (LastGroups(f) - 1) * g < left <= LastGroups(f) * g && left <= ImcuHeight(f, ci)
  {
    hide Rgroup, RowsLeft, LastGroups, TotalImcuRows, DownsampledHeight, RowsBefore, ImcuHeight, TotalGroups, FrameOk;
    var g, left, k, t := Rgroup(f, ci), RowsLeft(f, ci), LastGroups(f), TotalImcuRows(f);
    Layout(f, ci);
    LastGroupRows(f, ci);
    CountGroups(left, g, k);
  }

  // ----- What the upsampler is to see

  /**
   The row of component ci to be seen at place o of the three row groups around row group n: the row itself, with the
   first row repeated above the image and the last one below.  When only the last row group of the last iMCU row but one
   looks below the image, it sees the padding that the decoder leaves there.
   */
  function SourceRow(f: Frame, ci: nat, n: nat, o: nat): int
    requires FrameOk(f) && ci < |f.lanes|
  {
    var row := n * Rgroup(f, ci) + o - Rgroup(f, ci);
    if row < 0 then 0
    else if row < DownsampledHeight(f, ci) || n + 1 == (TotalImcuRows(f) - 1) * f.m then row
    else DownsampledHeight(f, ci) - 1
  }

  /** Each real row of a row group has its true neighbours, the first and the last row being their own. */
  lemma NeighboursAreTrue(f: Frame, ci: nat, n: nat, i: nat)
    requires FrameOk(f) && ci < |f.lanes| && i < Rgroup(f, ci)
    requires n * Rgroup(f, ci) + i < DownsampledHeight(f, ci)
    ensures var g, d := Rgroup(f, ci), DownsampledHeight(f, ci);
      var row := n * g + i;
      && SourceRow(f, ci, n, g + i) == row
      && SourceRow(f, ci, n, g + i - 1) == (if row > 0 then row - 1 else row)
      && SourceRow(f, ci, n, g + i + 1) == (if row < d - 1 then row + 1 else row)
  {
    var g, d, t := Rgroup(f, ci), DownsampledHeight(f, ci), TotalImcuRows(f);
    if n + 1 == (t - 1) * f.m {
      Layout(f, ci);
      RowOfGroup(f, ci, t - 1, 0);
      assert (t - 1) * f.m + 0 == n + 1;
      Distribute(n, 1, g);
    }
  }

  /** Place o of the surroundings of row group n shows neither a real row nor a copy of the nearest one. */
  predicate ShowsPadding(f: Frame, ci: nat, n: nat, o: nat)
    requires FrameOk(f) && ci < |f.lanes|
  {
    var row, d := n * Rgroup(f, ci) + o - Rgroup(f, ci), DownsampledHeight(f, ci);
    SourceRow(f, ci, n, o) != if row < 0 then 0 else if row < d then row else d - 1
  }

  /**
   Below the image, the row groups see copies of its last row, with one exception: the last row group of the last iMCU row
   but one sees padding of the decoder, exactly when the last iMCU row holds less than one row group of real rows.
   */
  lemma PaddingIsSeen(f: Frame, ci: nat, n: nat)
    requires FrameOk(f) && ci < |f.lanes| && n < TotalGroups(f)
    ensures (exists o :: 0 <= o < 3 * Rgroup(f, ci) && ShowsPadding(f, ci, n, o)) <==>
      TotalImcuRows(f) >= 2 && n + 1 == (TotalImcuRows(f) - 1) * f.m && RowsLeft(f, ci) < Rgroup(f, ci)
  {
    hide DownsampledHeight, TotalImcuRows, RowsBefore, RowsLeft, Rgroup;
    var g, t := Rgroup(f, ci), TotalImcuRows(f);
    Layout(f, ci);
    if n + 1 == (t - 1) * f.m {
      assert t >= 2;
      RowOfGroup(f, ci, t - 1, 0);
      assert (t - 1) * f.m + 0 == n + 1;
      Distribute(n, 1, g);
      if RowsLeft(f, ci) < g {
        assert ShowsPadding(f, ci, n, 3 * g - 1);
      }
    }
  }

  /** Seventeen rows of a component with two rows to a row group: row group 7 sees padding row 17. */
  lemma PaddingExample()
    ensures var f := Frame(17, 2, 8, [Lane(2, 1)]);
      FrameOk(f) && DownsampledHeight(f, 0) == 17 && SourceRow(f, 0, 7, 5) == 17 && ShowsPadding(f, 0, 7, 5)
  {
    var f := Frame(17, 2, 8, [Lane(2, 1)]);
    assert f.lanes[0] == Lane(2, 1);
    assert Rgroup(f, 0) == 2 && ImcuHeight(f, 0) == 16;
  }

  // ----- The funny lists

  /** The workspace row behind entry j of list w, 0 <= j < g * (M + 2), where b == g * (M - 2). */
  function Phys(w: nat, g: nat, b: nat, j: int): int {
    if w == 0 || j < b then j else if j < b + 2 * g then j + 2 * g else j - 2 * g
  }

  /** The last two groups of one list are stored where the other list has them behind its own groups. */
  lemma PhysCrosses(w: nat, g: nat, b: nat, j: int)
    requires w <= 1 && b <= j < b + 2 * g
    ensures Phys(w, g, b, j) == Phys(1 - w, g, b, j + 2 * g)
  {
  }
}
