/**
 The coefficient controllers at work: they hand one iMCU row after the other to an entropy encoder that may refuse an
 MCU, in which case the call is made again later.
 */
module CoefControllers {
  import opened Coefficients
  import opened McuGeometry
  import opened McuProducers
  import opened VirtualArrays

  /** Where an MCU's blocks come from. */
  datatype Producer = PassThru | FromArrays | Transcoder

  predicate SetupOk(p: Picture) {
    PictureOk(p) && BlocksFrom(p, 0) <= C_MAX_BLOCKS_IN_MCU
  }

  /** The arrays, padded to whole MCUs, hold any block that the scan asks for. */
  lemma StoredSpot(p: Picture, s: Spot, xi: nat, a: array2<Block>)
    requires PictureOk(p) && SpotOk(p, s) && xi < McuWidth(p, p.comps[s.ci]) && Sized(p, s.ci, a)
    requires Loaded(p, s.ci, (s.r + 1) * p.comps[s.ci].v, a)
    ensures BlockRow(p, s) < a.Length0 && BlockCol(p, s, xi) < a.Length1
    ensures var c, w := p.comps[s.ci], McuWidth(p, p.comps[s.ci]);
      && c.rows != [] && (forall i :: 0 <= i < |c.rows| ==> c.rows[i] != [])
      && a[BlockRow(p, s), BlockCol(p, s, xi)] == Padded(c.rows, w, BlockRow(p, s), BlockCol(p, s, xi))
  {
    hide Padded;
    var c := p.comps[s.ci];
    RealRows(p, s.ci, s.r, s.y, s.yi);
    StripRows(p, s.ci, s.r);
    HasBlocks(p, s.ci);
    assert BlockRow(p, s) < (s.r + 1) * c.v;
    ColumnFits(p, s, xi);
    assert RowLoaded(p, s.ci, BlockRow(p, s), a);
    if !Interleaved(p) {
      SoleBlock(p, s, xi);
    }
  }

  lemma ColumnFits(p: Picture, s: Spot, xi: nat)
    requires PictureOk(p) && SpotOk(p, s) && xi < McuWidth(p, p.comps[s.ci])
    ensures BlockCol(p, s, xi) < RoundUp(WidthInBlocks(p, p.comps[s.ci]), p.comps[s.ci].h)
  {
    var c, m := p.comps[s.ci], McusPerRow(p);
    WidthPositive(p, s.ci);
    if Interleaved(p) {
      ScaledCount(p.width, c.h, MaxH(p.comps) * DCTSIZE);
      CeilUnique(WidthInBlocks(p, c), c.h, m);
      MulMonotone(s.col + 1, m, c.h);
      Distribute(s.col, 1, c.h);
    } else {
      RoundUpBy(WidthInBlocks(p, c), c.h);
    }
  }

  /** In a scan of one component there are no dummy blocks. */
  lemma SoleBlock(p: Picture, s: Spot, xi: nat)
    requires PictureOk(p) && SpotOk(p, s) && xi < McuWidth(p, p.comps[s.ci]) && !Interleaved(p)
    ensures var c := p.comps[s.ci];
      && c.rows != [] && (forall i :: 0 <= i < |c.rows| ==> c.rows[i] != [])
      && Padded(c.rows, 1, BlockRow(p, s), BlockCol(p, s, xi)) == Stored(p, s.ci, BlockRow(p, s), BlockCol(p, s, xi))
  {
    RealRows(p, s.ci, s.r, s.y, s.yi);
    HasBlocks(p, s.ci);
  }

  method StoredRow(p: Picture, s: Spot, before: seq<Block>, a: array2<Block>) returns (buffer: seq<Block>)
    requires PictureOk(p) && SpotOk(p, s) && Sized(p, s.ci, a) && Loaded(p, s.ci, (s.r + 1) * p.comps[s.ci].v, a)
    ensures buffer == before + McuRow(p, s.ci, BlockRow(p, s), s.col, 0)
  {
    hide PictureOk, RowSoFar, Padded, McuRow, EndsWithRow, Loaded, Sized;
    var w := McuWidth(p, p.comps[s.ci]);
    RowNotStarted(p, s, before);
    buffer := before;
    var xindex := 0;
    while xindex < w
      invariant xindex <= w && RowSoFar(p, s, before, buffer, xindex)
    {
      StoredSpot(p, s, xindex, a);
      RowStep(p, s, before, buffer, xindex, a[BlockRow(p, s), BlockCol(p, s, xindex)]);
      buffer := buffer + [a[BlockRow(p, s), BlockCol(p, s, xindex)]];
      xindex := xindex + 1;
    }
    RowDone(p, s, before, buffer);
  }

  predicate WholeOk(p: Picture, whole: seq<array2<Block>>)
    requires PictureOk(p)
  {
    && |whole| == |p.comps|
    && (forall i :: 0 <= i < |whole| ==> Sized(p, i, whole[i]))
    && forall i, j :: 0 <= i < j < |whole| ==> whole[i] != whole[j]
  }

  /** The first n iMCU rows are in the arrays. */
  predicate WholeLoaded(p: Picture, n: nat, whole: seq<array2<Block>>)
    requires PictureOk(p) && WholeOk(p, whole)
    reads whole
  {
    forall i :: 0 <= i < |whole| ==> Loaded(p, i, n * p.comps[i].v, whole[i])
  }

  lemma LoadedEarlier(p: Picture, m: nat, n: nat, whole: seq<array2<Block>>)
    requires PictureOk(p) && WholeOk(p, whole) && WholeLoaded(p, n, whole) && m <= n
    ensures WholeLoaded(p, m, whole)
  {
    hide RowLoaded, PictureOk, Sized;
    forall i | 0 <= i < |whole|
      ensures Loaded(p, i, m * p.comps[i].v, whole[i])
    {
      assert Loaded(p, i, n * p.comps[i].v, whole[i]);
      MulMonotone(m, n, p.comps[i].v);
    }
  }

  /** The MCU that compress_output of jccoefct.c builds. */
  method BuildFromArrays(p: Picture, r: nat, y: nat, col: nat, whole: seq<array2<Block>>) returns (buffer: seq<Block>)
    requires PictureOk(p) && r < TotalRows(p) && y < RowsIn(p, r) && col < McusPerRow(p)
    requires WholeOk(p, whole) && WholeLoaded(p, r + 1, whole)
    ensures buffer == McuAt(p, r, y, col)
  {
    hide Padded, PictureOk, SpotOk, McuRow, McuRows, McuComps, Sized, Loaded;
    buffer := [];
    assert [] + McuComps(p, r, y, col, 0) == McuComps(p, r, y, col, 0);
    for ci := 0 to |p.comps|
      invariant buffer + McuComps(p, r, y, col, ci) == McuAt(p, r, y, col)
    {
      RestStart(p, r, y, col, ci, 0);
      var h := McuHeight(p, p.comps[ci]);
      var yi := 0;
      while yi < h
        invariant yi <= h
        invariant buffer + (McuRows(p, ci, r, y, col, yi) + McuComps(p, r, y, col, ci + 1)) == McuAt(p, r, y, col)
      {
        var s := Spot(r, y, col, ci, yi);
        SpotInMcu(p, s);
        RestStart(p, r, y, col, ci, yi);
        ghost var row, more := McuRow(p, ci, BlockRow(p, s), col, 0),
                               McuRows(p, ci, r, y, col, yi + 1) + McuComps(p, r, y, col, ci + 1);
        assert buffer + (row + more) == buffer + row + more;
        buffer := StoredRow(p, s, buffer, whole[ci]);
        yi := yi + 1;
      }
      RestStart(p, r, y, col, ci, yi);
    }
    NoComps(p, r, y, col);
    assert buffer + [] == buffer;
  }

  /** All MCUs of a scan. */
  function ScanMcus(p: Picture): seq<seq<Block>>
    requires PictureOk(p)
  {
    McusBefore(p, TotalRows(p), 0, 0)
  }

  lemma Ahead(p: Picture, r: nat, y: nat, col: nat)
    requires PictureOk(p)
    ensures McusBefore(p, r, y, col) + [McuAt(p, r, y, col)] == McusBefore(p, r, y, col + 1)
    ensures col == McusPerRow(p) > 0 ==> McusBefore(p, r, y, col) == McusBefore(p, r, y + 1, 0)
    ensures y == RowsIn(p, r) > 0 && col == 0 ==> McusBefore(p, r, y, col) == McusBefore(p, r + 1, 0, 0)
    ensures McusBefore(p, 0, 0, 0) == []
  {
    hide PictureOk, McuAt;
  }

  lemma Extents(p: Picture, r: nat)
    requires PictureOk(p)
    ensures McusPerRow(p) > 0 && RowsIn(p, r) > 0 && TotalRows(p) > 0
  {
    Columns(p, 0);
    Rows(p, 0);
  }

  class CoefController {
    const p: Picture
    const whole: seq<array2<Block>>
    const dummy: array<Block>
    var iMcuRow: nat
    var mcuCtr: nat
    var vertOffset: nat
    var mcuRows: nat
    /** The MCUs that the entropy encoder has taken. */
    var out: seq<seq<Block>>

    ghost predicate Valid()
      reads this, dummy
    {
      && SetupOk(p) && WholeOk(p, whole) && DummyOk(dummy)
      && iMcuRow <= TotalRows(p) && mcuRows == RowsIn(p, iMcuRow) && vertOffset < mcuRows && mcuCtr < McusPerRow(p)
      && (iMcuRow == TotalRows(p) ==> vertOffset == 0 && mcuCtr == 0)
      && out == McusBefore(p, iMcuRow, vertOffset, mcuCtr)
    }

    predicate Holds(n: nat)
      requires PictureOk(p) && WholeOk(p, whole)
      reads whole
    {
      WholeLoaded(p, n, whole)
    }

    method BuildMcu(how: Producer, y: nat, col: nat) returns (mcu: seq<Block>)
      requires SetupOk(p) && WholeOk(p, whole) && DummyOk(dummy)
      requires iMcuRow < TotalRows(p) && y < RowsIn(p, iMcuRow) && col < McusPerRow(p)
      requires how.FromArrays? ==> Holds(iMcuRow + 1)
      modifies dummy
      ensures DummyOk(dummy) && mcu == McuAt(p, iMcuRow, y, col)
    {
      hide PictureOk, McuAt, RowsIn, McusPerRow, TotalRows, BlocksFrom, DummyOk;
      match how
      case PassThru => mcu := BuildPassThru(p, iMcuRow, y, col);
      case FromArrays => mcu := BuildFromArrays(p, iMcuRow, y, col, whole);
      case Transcoder => mcu := BuildTranscoded(p, iMcuRow, y, col, dummy);
    }

    /**
     One call: an iMCU row, as far as the encoder, which takes room more MCUs, lets it go.  A call that is cut short
     leaves off where the next one takes up.
     */
    method Compress(how: Producer, room: nat) returns (done: bool)
      requires Valid() && iMcuRow < TotalRows(p) && (how.FromArrays? ==> Holds(iMcuRow + 1))
      modifies this, dummy
      ensures Valid() && old(out) <= out
      ensures iMcuRow == old(iMcuRow) + (if done then 1 else 0)
      ensures !done ==> |out| == |old(out)| + room
    {
      hide McuAt, RowsIn, McusPerRow, TotalRows, BlocksFrom, DummyOk, McusBefore, WholeLoaded, WholeOk;
      ghost var sent := out;
      var left := room;
      var yoffset := vertOffset;
      Extents(p, iMcuRow);
      while yoffset < mcuRows
        invariant yoffset <= mcuRows && DummyOk(dummy) && iMcuRow == old(iMcuRow) && mcuRows == old(mcuRows)
        invariant mcuCtr < McusPerRow(p) && out == McusBefore(p, iMcuRow, yoffset, mcuCtr)
        invariant yoffset == mcuRows ==> mcuCtr == 0
        invariant sent <= out && |out| + left == |sent| + room
      {
        var col := mcuCtr;
        while col < McusPerRow(p)
          invariant col <= McusPerRow(p) && DummyOk(dummy) && iMcuRow == old(iMcuRow) && mcuRows == old(mcuRows)
          invariant out == McusBefore(p, iMcuRow, yoffset, col)
          invariant sent <= out && |out| + left == |sent| + room
        {
          var mcu := BuildMcu(how, yoffset, col);
          if left == 0 {
            vertOffset, mcuCtr := yoffset, col;
            return false;
          }
          left := left - 1;
          Ahead(p, iMcuRow, yoffset, col);
          out := out + [mcu];
          col := col + 1;
        }
        Ahead(p, iMcuRow, yoffset, col);
        mcuCtr := 0;
        yoffset := yoffset + 1;
      }
      Ahead(p, iMcuRow, yoffset, mcuCtr);
      iMcuRow := iMcuRow + 1;
      StartImcuRow();
      return true;
    }

    method StartImcuRow()
      requires PictureOk(p)
      modifies this`mcuRows, this`mcuCtr, this`vertOffset
      ensures mcuRows == RowsIn(p, iMcuRow) > 0 && mcuCtr == 0 < McusPerRow(p) && vertOffset == 0
    {
      Extents(p, iMcuRow);
      if |p.comps| > 1 {
        mcuRows := 1;
      } else if iMcuRow + 1 < TotalRows(p) {
        mcuRows := p.comps[0].v;
      } else {
        mcuRows := LastRowHeight(p, p.comps[0]);
      }
      mcuCtr := 0;
      vertOffset := 0;
    }

    /** jinit_c_coef_controller, and the workspace of the transcoder's controller. */
    constructor (p: Picture)
      requires SetupOk(p)
      ensures Valid() && this.p == p && out == [] && iMcuRow == 0 && Holds(0)
      ensures fresh(dummy) && fresh(whole)
    {
      hide PictureOk;
      this.p := p;
      var arrays := AllocateArrays(p);
      whole := arrays;
      dummy := new Block[C_MAX_BLOCKS_IN_MCU](_ => DcOnly(0));
      iMcuRow, out := 0, [];
      new;
      StartImcuRow();
      Ahead(p, 0, 0, 0);
    }

    /** compress_first_pass: fill the arrays for one iMCU row, then compress it. */
    method FirstPass(room: nat) returns (done: bool)
      requires Valid() && iMcuRow < TotalRows(p) && Holds(iMcuRow)
      modifies this, dummy, whole
      ensures Valid() && old(out) <= out && Holds(iMcuRow)
      ensures iMcuRow == old(iMcuRow) + (if done then 1 else 0)
      ensures !done ==> |out| == |old(out)| + room
    {
      LoadStrip(p, iMcuRow, whole);
      done := Compress(FromArrays, room);
      LoadedEarlier(p, iMcuRow, old(iMcuRow) + 1, whole);
    }

    /** Passes after the first start over at the top, with the arrays as they are. */
    method StartPass()
      requires Valid()
      modifies this
      ensures Valid() && iMcuRow == 0 && out == []
    {
      iMcuRow, out := 0, [];
      StartImcuRow();
      Ahead(p, 0, 0, 0);
    }
  }

  /** compress_first_pass fills the arrays for iMCU row r; after a suspension it does so again. */
  method LoadStrip(p: Picture, r: nat, whole: seq<array2<Block>>)
    requires PictureOk(p) && r < TotalRows(p) && WholeOk(p, whole) && WholeLoaded(p, r, whole)
    modifies whole
    ensures WholeLoaded(p, r + 1, whole)
  {
    hide PictureOk, Loaded, Sized, TotalRows;
    for ci := 0 to |p.comps|
      invariant forall i :: 0 <= i < ci ==> Loaded(p, i, (r + 1) * p.comps[i].v, whole[i])
      invariant forall i :: ci <= i < |p.comps| ==> Loaded(p, i, r * p.comps[i].v, whole[i])
    {
      LoadComponent(p, ci, r, whole[ci]);
    }
  }

  method AllocateArrays(p: Picture) returns (whole: seq<array2<Block>>)
    requires PictureOk(p)
    ensures WholeOk(p, whole) && WholeLoaded(p, 0, whole) && fresh(whole)
  {
    whole := [];
    for ci := 0 to |p.comps|
      invariant |whole| == ci && forall i :: 0 <= i < ci ==> Sized(p, i, whole[i]) && fresh(whole[i])
      invariant forall i, j :: 0 <= i < j < ci ==> whole[i] != whole[j]
    {
      var c := p.comps[ci];
      var a := new Block[RoundUp(HeightInBlocks(p, c), c.v), RoundUp(WidthInBlocks(p, c), c.h)];
      whole := whole + [a];
    }
  }

  lemma {:induction false} ColumnPrefix(p: Picture, r: nat, y: nat, col: nat, last: nat)
    requires PictureOk(p) && col <= last
    ensures McusBefore(p, r, y, col) <= McusBefore(p, r, y, last)
    decreases last
  {
    hide PictureOk, McuAt, McusBefore;
    if col < last {
      ColumnPrefix(p, r, y, col, last - 1);
      Ahead(p, r, y, last - 1);
    }
  }

  lemma {:induction false} McuRowPrefix(p: Picture, r: nat, y: nat, last: nat)
    requires PictureOk(p) && y <= last
    ensures McusBefore(p, r, y, 0) <= McusBefore(p, r, last, 0)
    decreases last
  {
    hide PictureOk, McuAt, McusBefore;
    if y < last {
      Extents(p, r);
      McuRowPrefix(p, r, y, last - 1);
      ColumnPrefix(p, r, last - 1, 0, Across(p));
      Ahead(p, r, last - 1, Across(p));
    }
  }

  function Across(p: Picture): nat
    requires PictureOk(p)
  {
    McusPerRow(p)
  }

  lemma {:induction false} ImcuRowPrefix(p: Picture, r: nat, last: nat)
    requires PictureOk(p) && r <= last
    ensures McusBefore(p, r, 0, 0) <= McusBefore(p, last, 0, 0)
    decreases last
  {
    hide PictureOk, McuAt, McusBefore, RowsIn;
    if r < last {
      Extents(p, last - 1);
      ImcuRowPrefix(p, r, last - 1);
      McuRowPrefix(p, last - 1, 0, RowsIn(p, last - 1));
      Ahead(p, last - 1, RowsIn(p, last - 1), 0);
    }
  }

  lemma BeforeIsPrefix(p: Picture, r: nat, y: nat, col: nat)
    requires PictureOk(p) && r <= TotalRows(p) && y < RowsIn(p, r) && col < McusPerRow(p)
    requires r == TotalRows(p) ==> y == 0 && col == 0
    ensures McusBefore(p, r, y, col) <= ScanMcus(p)
  {
    hide McusBefore, RowsIn;
    if r < TotalRows(p) {
      ColumnPrefix(p, r, y, col, McusPerRow(p));
      Ahead(p, r, y, McusPerRow(p));
      McuRowPrefix(p, r, y + 1, RowsIn(p, r));
      Ahead(p, r, RowsIn(p, r), 0);
      ImcuRowPrefix(p, r + 1, TotalRows(p));
    }
  }

  /** A scan under a schedule of calls: rooms[i] is what the encoder takes in call i. */
  method RunScan(coef: CoefController, how: Producer, first: bool, rooms: seq<nat>) returns (complete: bool)
    requires coef.Valid() && coef.iMcuRow == 0 && coef.out == []
    requires if first then how.FromArrays? && coef.Holds(0) else how.FromArrays? ==> coef.Holds(TotalRows(coef.p))
    modifies coef, coef.dummy, coef.whole
    ensures coef.Valid() && coef.out <= ScanMcus(coef.p)
    ensures complete ==> coef.out == ScanMcus(coef.p)
    ensures first && complete ==> coef.Holds(TotalRows(coef.p))
    ensures !first && how.FromArrays? ==> coef.Holds(TotalRows(coef.p))
    ensures (forall i :: 0 <= i < |rooms| ==> rooms[i] > 0) && |rooms| >= TotalRows(coef.p) + |ScanMcus(coef.p)| ==> complete
  {
    hide PictureOk, McusBefore, RowsIn, McusPerRow, WholeLoaded, DummyOk, BlocksFrom, TotalRows, WholeOk;
    var i := 0;
    while i < |rooms| && coef.iMcuRow < TotalRows(coef.p)
      invariant i <= |rooms| && coef.Valid()
      invariant first ==> coef.Holds(coef.iMcuRow)
      invariant !first && how.FromArrays? ==> coef.Holds(TotalRows(coef.p))
      invariant (forall k :: 0 <= k < |rooms| ==> rooms[k] > 0) ==> coef.iMcuRow + |coef.out| >= i
    {
      if first {
        var done := coef.FirstPass(rooms[i]);
      } else {
        if how.FromArrays? {
          LoadedEarlier(coef.p, coef.iMcuRow + 1, TotalRows(coef.p), coef.whole);
        }
        var done := coef.Compress(how, rooms[i]);
      }
      i := i + 1;
    }
    complete := coef.iMcuRow == TotalRows(coef.p);
    BeforeIsPrefix(coef.p, coef.iMcuRow, coef.vertOffset, coef.mcuCtr);
  }

  /**
   compress_data, compress_first_pass, a later pass of compress_output, and the transcoder's compress_output hand the same
   MCUs to the encoder, whenever it refuses.
   */
  method ProducersAgree(p: Picture, rooms: seq<nat>, firstRooms: seq<nat>, laterRooms: seq<nat>, transRooms: seq<nat>)
    returns (direct: seq<seq<Block>>, first: seq<seq<Block>>, later: seq<seq<Block>>, transcoded: seq<seq<Block>>)
    requires SetupOk(p) && Ample(p, rooms) && Ample(p, firstRooms) && Ample(p, laterRooms) && Ample(p, transRooms)
    ensures direct == first == later == transcoded == ScanMcus(p)
  {
    hide PictureOk, McusBefore, RowsIn, McusPerRow, WholeLoaded, DummyOk, BlocksFrom, TotalRows, WholeOk;
    var coef := new CoefController(p);
    var done := RunScan(coef, PassThru, false, rooms);
    direct := coef.out;
    var buffered := new CoefController(p);
    done := RunScan(buffered, FromArrays, true, firstRooms);
    first := buffered.out;
    buffered.StartPass();
    done := RunScan(buffered, FromArrays, false, laterRooms);
    later := buffered.out;
    var trans := new CoefController(p);
    done := RunScan(trans, Transcoder, false, transRooms);
    transcoded := trans.out;
  }

  /** Enough calls, each of which the encoder lets do something. */
  predicate Ample(p: Picture, rooms: seq<nat>)
    requires PictureOk(p)
  {
    (forall i :: 0 <= i < |rooms| ==> rooms[i] > 0) && |rooms| >= TotalRows(p) + |ScanMcus(p)|
  }
}
