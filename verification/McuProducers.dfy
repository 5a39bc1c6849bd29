/**
 The coefficient controllers of the compressor: compress_data, compress_first_pass with compress_output (jccoefct.c), and
 the transcoder's compress_output (jctrans.c).  Each hands the MCUs of module McuGeometry to the entropy encoder.
 */
module McuProducers {
  import opened Coefficients
  import opened McuGeometry

  const C_MAX_BLOCKS_IN_MCU := 10

  // ----- Sizes

  function BlocksFrom(p: Picture, ci: nat): nat
    requires ci <= |p.comps|
    decreases |p.comps| - ci
  {
    if ci == |p.comps| then 0 else McuWidth(p, p.comps[ci]) * McuHeight(p, p.comps[ci]) + BlocksFrom(p, ci + 1)
  }

  lemma {:induction false} RowSize(p: Picture, ci: nat, y: nat, col: nat, xi: nat)
    requires PictureOk(p) && ci < |p.comps| && xi <= McuWidth(p, p.comps[ci])
    ensures |McuRow(p, ci, y, col, xi)| == McuWidth(p, p.comps[ci]) - xi
    decreases McuWidth(p, p.comps[ci]) - xi
  {
    hide PictureOk, Padded;
    if xi < McuWidth(p, p.comps[ci]) {
      RowSize(p, ci, y, col, xi + 1);
    }
  }

  lemma {:induction false} RowsSize(p: Picture, ci: nat, r: nat, y: nat, col: nat, yi: nat)
    requires PictureOk(p) && ci < |p.comps| && yi <= McuHeight(p, p.comps[ci])
    ensures |McuRows(p, ci, r, y, col, yi)| == McuWidth(p, p.comps[ci]) * (McuHeight(p, p.comps[ci]) - yi)
    decreases McuHeight(p, p.comps[ci]) - yi
  {
    hide PictureOk, McuRow;
    var w, h := McuWidth(p, p.comps[ci]), McuHeight(p, p.comps[ci]);
    if yi < h {
      RowSize(p, ci, r * p.comps[ci].v + y + yi, col, 0);
      RowsSize(p, ci, r, y, col, yi + 1);
      Distribute(1, h - yi - 1, w);
      assert w * (h - yi) == (h - yi) * w && w * (h - yi - 1) == (h - yi - 1) * w;
    }
  }

  lemma {:induction false} CompsSize(p: Picture, r: nat, y: nat, col: nat, ci: nat)
    requires PictureOk(p) && ci <= |p.comps|
    ensures |McuComps(p, r, y, col, ci)| == BlocksFrom(p, ci)
    decreases |p.comps| - ci
  {
    hide PictureOk, McuRows;
    if ci < |p.comps| {
      RowsSize(p, ci, r, y, col, 0);
      CompsSize(p, r, y, col, ci + 1);
    }
  }

  // ----- The blocks of one row of an MCU

  /** What is still to come of an MCU, from block xi of block row yi of component ci on. */
  function Rest(p: Picture, r: nat, y: nat, col: nat, ci: nat, yi: nat, xi: nat): seq<Block>
    requires PictureOk(p) && ci < |p.comps|
  {
    McuRow(p, ci, r * p.comps[ci].v + y + yi, col, xi)
    + (McuRows(p, ci, r, y, col, yi + 1) + McuComps(p, r, y, col, ci + 1))
  }

  lemma RestStart(p: Picture, r: nat, y: nat, col: nat, ci: nat, yi: nat)
    requires PictureOk(p) && ci < |p.comps|
    ensures yi < McuHeight(p, p.comps[ci]) ==>
      McuRows(p, ci, r, y, col, yi) + McuComps(p, r, y, col, ci + 1) == Rest(p, r, y, col, ci, yi, 0)
    ensures yi == McuHeight(p, p.comps[ci]) ==>
      McuRows(p, ci, r, y, col, yi) + McuComps(p, r, y, col, ci + 1) == McuComps(p, r, y, col, ci + 1)
    ensures McuComps(p, r, y, col, ci) == McuRows(p, ci, r, y, col, 0) + McuComps(p, r, y, col, ci + 1)
  {
    hide PictureOk, McuRow;
  }

  /** A block row of an MCU, and where in the picture it lies. */
  datatype Spot = Spot(r: nat, y: nat, col: nat, ci: nat, yi: nat)

  predicate SpotOk(p: Picture, s: Spot)
    requires PictureOk(p)
  {
    InScan(p, s.ci, s.r, s.y, s.yi) && s.col < McusPerRow(p)
  }

  function BlockRow(p: Picture, s: Spot): nat
    requires s.ci < |p.comps|
  {
    s.r * p.comps[s.ci].v + s.y + s.yi
  }

  /** The number of blocks of the row that are real, if the row is. */
  function BlockCount(p: Picture, s: Spot): (n: nat)
    requires PictureOk(p) && SpotOk(p, s)
    ensures 1 <= n <= McuWidth(p, p.comps[s.ci])
  {
    RealCols(p, s.ci, s.col);
    if s.col + 1 < McusPerRow(p) then McuWidth(p, p.comps[s.ci]) else LastColWidth(p, p.comps[s.ci])
  }

  predicate RealRow(p: Picture, s: Spot)
    requires PictureOk(p) && SpotOk(p, s)
  {
    s.r + 1 < TotalRows(p) || s.y + s.yi < LastRowHeight(p, p.comps[s.ci])
  }

  lemma RealBlock(p: Picture, s: Spot, xi: nat)
    requires PictureOk(p) && SpotOk(p, s) && RealRow(p, s) && xi < BlockCount(p, s)
    ensures var c, w, y := p.comps[s.ci], McuWidth(p, p.comps[s.ci]), BlockRow(p, s);
      && y < |c.rows| && s.col * w + xi < |c.rows[y]| && w > 0 && (forall i :: 0 <= i < |c.rows| ==> c.rows[i] != [])
      && Padded(c.rows, w, y, s.col * w + xi) == c.rows[y][s.col * w + xi]
  {
    RealRows(p, s.ci, s.r, s.y, s.yi);
    RealCols(p, s.ci, s.col);
    HasBlocks(p, s.ci);
  }

  /** Behind the real blocks of a row, dummy blocks repeat the DC value of the block in front. */
  lemma RightDummy(p: Picture, s: Spot, xi: nat)
    requires PictureOk(p) && SpotOk(p, s) && RealRow(p, s) && BlockCount(p, s) <= xi < McuWidth(p, p.comps[s.ci])
    ensures var c, w, y := p.comps[s.ci], McuWidth(p, p.comps[s.ci]), BlockRow(p, s);
      && y < |c.rows| && w > 0 && (forall i :: 0 <= i < |c.rows| ==> c.rows[i] != [])
      && Padded(c.rows, w, y, s.col * w + xi) == DcOnly(Padded(c.rows, w, y, s.col * w + (xi - 1))[0])
  {
    RealRows(p, s.ci, s.r, s.y, s.yi);
    RealCols(p, s.ci, s.col);
    HasBlocks(p, s.ci);
  }

  lemma DivOfMcu(col: nat, w: nat, xi: nat)
    requires xi < w
    ensures (col * w + xi) / w * w == col * w
  {
    ModUnique(col * w + xi, w, col, xi);
    assert (col * w + xi) == (col * w + xi) / w * w + (col * w + xi) % w;
  }

  /** A dummy row repeats the DC value of the last block of the row above. */
  lemma BottomDummy(p: Picture, s: Spot, xi: nat)
    requires PictureOk(p) && SpotOk(p, s) && !RealRow(p, s) && xi < McuWidth(p, p.comps[s.ci])
    ensures s.yi > 0
    ensures var c, w, y := p.comps[s.ci], McuWidth(p, p.comps[s.ci]), BlockRow(p, s);
      && y > 0 && y >= |c.rows| && w > 0 && c.rows != [] && (forall i :: 0 <= i < |c.rows| ==> c.rows[i] != [])
      && Padded(c.rows, w, y, s.col * w + xi) == DcOnly(Padded(c.rows, w, y - 1, s.col * w + (w - 1))[0])
  {
    RealRows(p, s.ci, s.r, s.y, s.yi);
    HasBlocks(p, s.ci);
    DivOfMcu(s.col, McuWidth(p, p.comps[s.ci]), xi);
  }

  // ----- compress_data: one MCU at a time

  /** The last block of a row is the one that a dummy row below it repeats. */
  ghost predicate EndsWithRow(p: Picture, s: Spot, buffer: seq<Block>)
    requires PictureOk(p) && s.ci < |p.comps|
  {
    HasBlocks(p, s.ci);
    var c, w := p.comps[s.ci], McuWidth(p, p.comps[s.ci]);
    buffer != [] && buffer[|buffer| - 1] == Padded(c.rows, w, BlockRow(p, s), s.col * w + (w - 1))
  }

  ghost predicate AboveOk(p: Picture, s: Spot, buffer: seq<Block>)
    requires PictureOk(p) && s.ci < |p.comps|
  {
    s.yi > 0 ==> EndsWithRow(p, s.(yi := s.yi - 1), buffer)
  }

  /** xi blocks of the row are in the buffer. */
  ghost predicate RowSoFar(p: Picture, s: Spot, before: seq<Block>, buffer: seq<Block>, xi: nat)
    requires PictureOk(p) && s.ci < |p.comps|
  {
    HasBlocks(p, s.ci);
    var c, w := p.comps[s.ci], McuWidth(p, p.comps[s.ci]);
    && xi <= w && |buffer| == |before| + xi
    && buffer + McuRow(p, s.ci, BlockRow(p, s), s.col, xi) == before + McuRow(p, s.ci, BlockRow(p, s), s.col, 0)
    && (xi > 0 ==> buffer[|buffer| - 1] == Padded(c.rows, w, BlockRow(p, s), s.col * w + (xi - 1)))
  }

  lemma RowStep(p: Picture, s: Spot, before: seq<Block>, buffer: seq<Block>, xi: nat, b: Block)
    requires PictureOk(p) && s.ci < |p.comps| && RowSoFar(p, s, before, buffer, xi) && xi < McuWidth(p, p.comps[s.ci])
    requires p.comps[s.ci].rows != [] && forall i :: 0 <= i < |p.comps[s.ci].rows| ==> p.comps[s.ci].rows[i] != []
    requires b == Padded(p.comps[s.ci].rows, McuWidth(p, p.comps[s.ci]), BlockRow(p, s), s.col * McuWidth(p, p.comps[s.ci]) + xi)
    ensures RowSoFar(p, s, before, buffer + [b], xi + 1)
  {
    hide Padded, PictureOk;
    var row := BlockRow(p, s);
    assert McuRow(p, s.ci, row, s.col, xi) == [b] + McuRow(p, s.ci, row, s.col, xi + 1);
    assert buffer + ([b] + McuRow(p, s.ci, row, s.col, xi + 1)) == buffer + [b] + McuRow(p, s.ci, row, s.col, xi + 1);
  }

  lemma RowDone(p: Picture, s: Spot, before: seq<Block>, buffer: seq<Block>)
    requires PictureOk(p) && s.ci < |p.comps| && RowSoFar(p, s, before, buffer, McuWidth(p, p.comps[s.ci]))
    ensures buffer == before + McuRow(p, s.ci, BlockRow(p, s), s.col, 0) && EndsWithRow(p, s, buffer)
  {
    hide Padded;
    HasBlocks(p, s.ci);
    assert buffer + [] == buffer;
  }

  lemma RowNotStarted(p: Picture, s: Spot, before: seq<Block>)
    requires PictureOk(p) && s.ci < |p.comps|
    ensures RowSoFar(p, s, before, before, 0)
  {
    hide Padded, PictureOk;
  }

  lemma RealStep(p: Picture, s: Spot, before: seq<Block>, buffer: seq<Block>, xi: nat)
    requires PictureOk(p) && SpotOk(p, s) && RealRow(p, s) && xi < BlockCount(p, s) && RowSoFar(p, s, before, buffer, xi)
    ensures BlockRow(p, s) < |p.comps[s.ci].rows|
    ensures BlockCol(p, s, xi) < |p.comps[s.ci].rows[BlockRow(p, s)]|
    ensures RowSoFar(p, s, before, buffer + [p.comps[s.ci].rows[BlockRow(p, s)][BlockCol(p, s, xi)]], xi + 1)
  {
    hide PictureOk, RowSoFar, RealRow, BlockCount, Padded;
    RealBlock(p, s, xi);
    RowStep(p, s, before, buffer, xi, p.comps[s.ci].rows[BlockRow(p, s)][BlockCol(p, s, xi)]);
  }

  function BlockCol(p: Picture, s: Spot, xi: nat): nat
    requires s.ci < |p.comps|
  {
    s.col * McuWidth(p, p.comps[s.ci]) + xi
  }

  lemma RightStep(p: Picture, s: Spot, before: seq<Block>, buffer: seq<Block>, xi: nat)
    requires PictureOk(p) && SpotOk(p, s) && RealRow(p, s) && RowSoFar(p, s, before, buffer, xi)
    requires BlockCount(p, s) <= xi < McuWidth(p, p.comps[s.ci])
    ensures buffer != [] && RowSoFar(p, s, before, buffer + [DcOnly(buffer[|buffer| - 1][0])], xi + 1)
  {
    hide PictureOk, RowSoFar, RealRow, Padded, DcOnly;
    RightDummy(p, s, xi);
    LastInRow(p, s, before, buffer, xi);
    RowStep(p, s, before, buffer, xi, DcOnly(buffer[|buffer| - 1][0]));
  }

  lemma BottomStep(p: Picture, s: Spot, before: seq<Block>, buffer: seq<Block>, xi: nat)
    requires PictureOk(p) && SpotOk(p, s) && !RealRow(p, s) && RowSoFar(p, s, before, buffer, xi)
    requires AboveOk(p, s, before) && xi < McuWidth(p, p.comps[s.ci])
    ensures before != [] && RowSoFar(p, s, before, buffer + [DcOnly(before[|before| - 1][0])], xi + 1)
  {
    hide PictureOk, RowSoFar, RealRow, Padded, DcOnly;
    BottomDummy(p, s, xi);
    AboveBlock(p, s, before);
    RowStep(p, s, before, buffer, xi, DcOnly(before[|before| - 1][0]));
  }

  lemma AboveBlock(p: Picture, s: Spot, before: seq<Block>)
    requires PictureOk(p) && s.ci < |p.comps| && AboveOk(p, s, before) && s.yi > 0
    ensures var c, w := p.comps[s.ci], McuWidth(p, p.comps[s.ci]);
      && c.rows != [] && w > 0 && (forall i :: 0 <= i < |c.rows| ==> c.rows[i] != [])
      && before != [] && before[|before| - 1] == Padded(c.rows, w, BlockRow(p, s) - 1, s.col * w + (w - 1))
  {
    HasBlocks(p, s.ci);
  }

  /** The last block in the buffer has the DC value that a dummy block in a dummy row repeats. */
  lemma BottomStepLast(p: Picture, s: Spot, before: seq<Block>, buffer: seq<Block>, xi: nat)
    requires PictureOk(p) && SpotOk(p, s) && !RealRow(p, s) && RowSoFar(p, s, before, buffer, xi)
    requires AboveOk(p, s, before) && xi <= McuWidth(p, p.comps[s.ci])
    ensures before != [] && buffer != [] && buffer[|buffer| - 1][0] == before[|before| - 1][0]
  {
    hide PictureOk, RealRow, Padded, McuRow;
    RealTest(p, s);
    BottomDummy(p, s, if xi == 0 then 0 else xi - 1);
    AboveBlock(p, s, before);
    if xi > 0 {
      LastInRow(p, s, before, buffer, xi);
    } else {
      assert buffer == before by { NothingInRow(p, s, before, buffer); }
    }
  }

  lemma NothingInRow(p: Picture, s: Spot, before: seq<Block>, buffer: seq<Block>)
    requires PictureOk(p) && s.ci < |p.comps| && RowSoFar(p, s, before, buffer, 0)
    ensures buffer == before
  {
    hide PictureOk, Padded;
    var row := McuRow(p, s.ci, BlockRow(p, s), s.col, 0);
    assert (buffer + row)[..|buffer|] == buffer && (before + row)[..|before|] == before;
  }

  lemma RealTest(p: Picture, s: Spot)
    requires PictureOk(p) && SpotOk(p, s)
    ensures p.comps[s.ci].v > 0 && McuWidth(p, p.comps[s.ci]) > 0
    ensures RealRow(p, s) <==> s.r + 1 < TotalRows(p) || s.y + s.yi < LastRowHeight(p, p.comps[s.ci])
  {
  }

  /** Real blocks of a block row, up to blockcnt. */
  method RealBlocks(p: Picture, s: Spot, before: seq<Block>) returns (buffer: seq<Block>, blockcnt: nat)
    requires PictureOk(p) && SpotOk(p, s) && RealRow(p, s)
    ensures blockcnt == BlockCount(p, s) && RowSoFar(p, s, before, buffer, blockcnt)
  {
    hide PictureOk, RowSoFar, RealRow, BlockCount;
    RowNotStarted(p, s, before);
    buffer := before;
    blockcnt := BlockCount(p, s);
    var xindex := 0;
    while xindex < blockcnt
      invariant xindex <= blockcnt && RowSoFar(p, s, before, buffer, xindex)
    {
      RealStep(p, s, before, buffer, xindex);
      buffer := buffer + [p.comps[s.ci].rows[BlockRow(p, s)][BlockCol(p, s, xindex)]];
      xindex := xindex + 1;
    }
  }

  method PassThruRow(p: Picture, s: Spot, before: seq<Block>) returns (buffer: seq<Block>)
    requires PictureOk(p) && SpotOk(p, s) && AboveOk(p, s, before)
    ensures buffer == before + McuRow(p, s.ci, BlockRow(p, s), s.col, 0) && EndsWithRow(p, s, buffer)
  {
    hide PictureOk, RowSoFar, RealRow, BlockCount, AboveOk, McuRow, DcOnly;
    var c := p.comps[s.ci];
    var w := McuWidth(p, c);
    RealTest(p, s);
    var bi;
    if s.r + 1 < TotalRows(p) || s.y + s.yi < LastRowHeight(p, c) {
      buffer, bi := RealBlocks(p, s, before);
      CountInWidth(p, s);
      while bi < w
        invariant BlockCount(p, s) <= bi <= w && RowSoFar(p, s, before, buffer, bi)
      {
        RightStep(p, s, before, buffer, bi);
        buffer := buffer + [DcOnly(buffer[|buffer| - 1][0])];
        bi := bi + 1;
      }
    } else {
      RowNotStarted(p, s, before);
      BottomStep(p, s, before, before, 0);
      buffer, bi := before, 0;
      while bi < w
        invariant bi <= w && RowSoFar(p, s, before, buffer, bi)
      {
        BottomStep(p, s, before, buffer, bi);
        buffer := buffer + [DcOnly(before[|before| - 1][0])];
        bi := bi + 1;
      }
    }
    RowDone(p, s, before, buffer);
  }

  lemma CountInWidth(p: Picture, s: Spot)
    requires PictureOk(p) && SpotOk(p, s)
    ensures BlockCount(p, s) <= McuWidth(p, p.comps[s.ci])
  {
  }

  lemma LastInRow(p: Picture, s: Spot, before: seq<Block>, buffer: seq<Block>, xi: nat)
    requires PictureOk(p) && s.ci < |p.comps| && RowSoFar(p, s, before, buffer, xi) && xi > 0
    ensures var c, w := p.comps[s.ci], McuWidth(p, p.comps[s.ci]);
      && c.rows != [] && w > 0 && (forall i :: 0 <= i < |c.rows| ==> c.rows[i] != [])
      && buffer != [] && buffer[|buffer| - 1] == Padded(c.rows, w, BlockRow(p, s), s.col * w + (xi - 1))
  {
    HasBlocks(p, s.ci);
  }

  lemma SpotInMcu(p: Picture, s: Spot)
    requires PictureOk(p) && s.ci < |p.comps| && s.r < TotalRows(p) && s.y < RowsIn(p, s.r) && s.col < McusPerRow(p)
    requires s.yi < McuHeight(p, p.comps[s.ci])
    ensures SpotOk(p, s)
  {
  }

  /** The MCU that compress_data builds. */
  method BuildPassThru(p: Picture, r: nat, y: nat, col: nat) returns (buffer: seq<Block>)
    requires PictureOk(p) && r < TotalRows(p) && y < RowsIn(p, r) && col < McusPerRow(p)
    ensures buffer == McuAt(p, r, y, col)
  {
    hide Padded, PictureOk, SpotOk, McuRow, McuRows, McuComps, EndsWithRow;
    buffer := [];
    assert [] + McuComps(p, r, y, col, 0) == McuComps(p, r, y, col, 0);
    for ci := 0 to |p.comps|
      invariant buffer + McuComps(p, r, y, col, ci) == McuAt(p, r, y, col)
    {
      RestStart(p, r, y, col, ci, 0);
      var h := McuHeight(p, p.comps[ci]);
      var yi := 0;
      while yi < h
        invariant yi <= h && AboveOk(p, Spot(r, y, col, ci, yi), buffer)
        invariant buffer + (McuRows(p, ci, r, y, col, yi) + McuComps(p, r, y, col, ci + 1)) == McuAt(p, r, y, col)
      {
        var s := Spot(r, y, col, ci, yi);
        SpotInMcu(p, s);
        RestStart(p, r, y, col, ci, yi);
        ghost var row, more := McuRow(p, ci, BlockRow(p, s), col, 0),
                               McuRows(p, ci, r, y, col, yi + 1) + McuComps(p, r, y, col, ci + 1);
        assert buffer + (row + more) == buffer + row + more;
        buffer := PassThruRow(p, s, buffer);
        yi := yi + 1;
      }
      RestStart(p, r, y, col, ci, yi);
    }
    NoComps(p, r, y, col);
    assert buffer + [] == buffer;
  }

  lemma NoComps(p: Picture, r: nat, y: nat, col: nat)
    requires PictureOk(p)
    ensures McuComps(p, r, y, col, |p.comps|) == []
  {
  }

  // ----- The transcoder: dummy blocks made on the fly

  predicate ZeroAc(b: Block) {
    forall k :: 1 <= k < DCTSIZE2 ==> b[k] == 0
  }

  /** The workspace keeps its AC entries zero; its DC entries are left over from earlier MCUs. */
  predicate DummyOk(dummy: array<Block>)
    reads dummy
  {
    dummy.Length == C_MAX_BLOCKS_IN_MCU && forall i :: 0 <= i < dummy.Length ==> ZeroAc(dummy[i])
  }

  lemma DcSet(b: Block, dc: Coef)
    requires ZeroAc(b)
    ensures b[0 := dc] == DcOnly(dc) && ZeroAc(b[0 := dc])
  {
  }

  lemma BottomStepOnTheFly(p: Picture, s: Spot, before: seq<Block>, buffer: seq<Block>, xi: nat)
    requires PictureOk(p) && SpotOk(p, s) && RowSoFar(p, s, before, buffer, xi) && AboveOk(p, s, before)
    requires xi < McuWidth(p, p.comps[s.ci]) && (RealRow(p, s) ==> BlockCount(p, s) <= xi)
    ensures buffer != [] && RowSoFar(p, s, before, buffer + [DcOnly(buffer[|buffer| - 1][0])], xi + 1)
  {
    hide PictureOk, RowSoFar, RealRow, Padded, DcOnly, AboveOk, BlockCount;
    if RealRow(p, s) {
      RightStep(p, s, before, buffer, xi);
    } else {
      BottomStepLast(p, s, before, buffer, xi);
      BottomStep(p, s, before, buffer, xi);
    }
  }

  lemma RowLength(p: Picture, s: Spot, before: seq<Block>, buffer: seq<Block>, xi: nat)
    requires PictureOk(p) && s.ci < |p.comps| && RowSoFar(p, s, before, buffer, xi)
    ensures |buffer| == |before| + xi
  {
  }

  method TranscodeRow(p: Picture, s: Spot, before: seq<Block>, dummy: array<Block>) returns (buffer: seq<Block>)
    requires PictureOk(p) && SpotOk(p, s) && AboveOk(p, s, before) && DummyOk(dummy)
    requires |before| + McuWidth(p, p.comps[s.ci]) <= C_MAX_BLOCKS_IN_MCU
    modifies dummy
    ensures buffer == before + McuRow(p, s.ci, BlockRow(p, s), s.col, 0) && EndsWithRow(p, s, buffer) && DummyOk(dummy)
  {
    hide PictureOk, RowSoFar, RealRow, BlockCount, AboveOk, McuRow, DcOnly, ZeroAc, EndsWithRow;
    var c := p.comps[s.ci];
    var w := McuWidth(p, c);
    var xindex;
    RealTest(p, s);
    if s.r + 1 < TotalRows(p) || s.y + s.yi < LastRowHeight(p, c) {
      buffer, xindex := RealBlocks(p, s, before);
      CountInWidth(p, s);
    } else {
      RowNotStarted(p, s, before);
      buffer, xindex := before, 0;
    }
    while xindex < w
      invariant xindex <= w && RowSoFar(p, s, before, buffer, xindex) && DummyOk(dummy)
      invariant RealRow(p, s) ==> BlockCount(p, s) <= xindex
    {
      var blkn := |buffer|;
      RowLength(p, s, before, buffer, xindex);
      BottomStepOnTheFly(p, s, before, buffer, xindex);
      DcSet(dummy[blkn], buffer[blkn - 1][0]);
      dummy[blkn] := dummy[blkn][0 := buffer[blkn - 1][0]];
      buffer := buffer + [dummy[blkn]];
      xindex := xindex + 1;
    }
    RowDone(p, s, before, buffer);
  }

  lemma RowsLeft(p: Picture, r: nat, y: nat, col: nat, ci: nat, yi: nat)
    requires PictureOk(p) && ci < |p.comps| && yi < McuHeight(p, p.comps[ci])
    ensures McuWidth(p, p.comps[ci]) <= |McuRows(p, ci, r, y, col, yi) + McuComps(p, r, y, col, ci + 1)|
  {
    hide PictureOk, McuRow;
    RowSize(p, ci, r * p.comps[ci].v + y + yi, col, 0);
  }

  /** The MCU that the transcoder's compress_output builds. */
  method BuildTranscoded(p: Picture, r: nat, y: nat, col: nat, dummy: array<Block>) returns (buffer: seq<Block>)
    requires PictureOk(p) && r < TotalRows(p) && y < RowsIn(p, r) && col < McusPerRow(p)
    requires DummyOk(dummy) && BlocksFrom(p, 0) <= C_MAX_BLOCKS_IN_MCU
    modifies dummy
    ensures buffer == McuAt(p, r, y, col) && DummyOk(dummy)
  {
    hide Padded, PictureOk, SpotOk, McuRow, McuRows, McuComps, EndsWithRow, BlocksFrom, DummyOk;
    buffer := [];
    CompsSize(p, r, y, col, 0);
    assert [] + McuComps(p, r, y, col, 0) == McuComps(p, r, y, col, 0);
    for ci := 0 to |p.comps|
      invariant buffer + McuComps(p, r, y, col, ci) == McuAt(p, r, y, col) && DummyOk(dummy)
    {
      RestStart(p, r, y, col, ci, 0);
      var h := McuHeight(p, p.comps[ci]);
      var yi := 0;
      while yi < h
        invariant yi <= h && AboveOk(p, Spot(r, y, col, ci, yi), buffer) && DummyOk(dummy)
        invariant buffer + (McuRows(p, ci, r, y, col, yi) + McuComps(p, r, y, col, ci + 1)) == McuAt(p, r, y, col)
      {
        var s := Spot(r, y, col, ci, yi);
        SpotInMcu(p, s);
        RestStart(p, r, y, col, ci, yi);
        RowsLeft(p, r, y, col, ci, yi);
        ghost var row, more := McuRow(p, ci, BlockRow(p, s), col, 0),
                               McuRows(p, ci, r, y, col, yi + 1) + McuComps(p, r, y, col, ci + 1);
        assert buffer + (row + more) == buffer + row + more;
        buffer := TranscodeRow(p, s, buffer, dummy);
        yi := yi + 1;
      }
      RestStart(p, r, y, col, ci, yi);
    }
    NoComps(p, r, y, col);
    assert buffer + [] == buffer;
  }
}
