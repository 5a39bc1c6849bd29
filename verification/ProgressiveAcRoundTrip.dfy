/**
 Lockstep of the AC band encoder and decoder over all blocks of a restart interval, by induction over the
 coefficients of a block and over the blocks: decoding what the encoder emits completes every block.
 */
module AcRoundTrip {
  import opened Bits
  import opened Wrappers
  import opened HuffmanTables
  import opened BitSource
  import opened Symbols
  import opened Feeding
  import opened Coefficients
  import opened AcBand
  import opened AcSegment

  ghost predicate AllInRange(c: Band, bs: seq<Block>)
    requires BandOk(c)
  {
    forall i :: 0 <= i < |bs| ==> InRange(c, bs[i])
  }

  /** From m, the block that the encoder is in and all blocks behind it are completed, and the decoder stands at u. */
  ghost predicate Ends(c: Band, H: HuffTbl, s: Source, m: Mid, bs: seq<Block>, hist: seq<Block>, u: Source)
    requires BandOk(c) && |m.pd.bs| == |m.pd.hs| && |bs| == |hist|
  {
    && Quiet(s, u)
    && MidPoint(c, H, s, m, hist)
       == Some((u, 0, Goals(c, m.pd.bs, m.pd.hs) + ([Goal(c, m.b, m.h, c.se + 1)] + Goals(c, bs, hist))))
  }

  ghost predicate SegEnds(c: Band, H: HuffTbl, s: Source, pd: Pend, bs: seq<Block>, hist: seq<Block>, u: Source)
    requires BandOk(c) && |pd.bs| == |pd.hs| && |bs| == |hist|
  {
    Quiet(s, u) && Point(c, H, s, pd, hist) == Some((u, 0, Goals(c, pd.bs, pd.hs) + Goals(c, bs, hist)))
  }

  lemma EndsLater(c: Band, H: HuffTbl, s: Source, m: Mid, w: Source, m': Mid, bs: seq<Block>, hist: seq<Block>,
                  done: seq<Block>, u: Source)
    requires BandOk(c) && |m.pd.bs| == |m.pd.hs| && |m'.pd.bs| == |m'.pd.hs| && |bs| == |hist|
    requires Moves(c, H, s, m, w, m', hist, done) && Ends(c, H, w, m', bs, hist, u)
    ensures Ends(c, H, s, m, bs, hist, u)
  {
    hide MidPoint, Goals, Goal;
    var tail := [Goal(c, m.b, m.h, c.se + 1)] + Goals(c, bs, hist);
    assert done + (Goals(c, m'.pd.bs, m'.pd.hs) + tail) == (done + Goals(c, m'.pd.bs, m'.pd.hs)) + tail;
  }

  // ----- One coefficient

  lemma ZeroStep(c: Band, m: Mid, k: nat, st: Run)
    requires BandOk(c) && MidOk(c, m, k, st) && k <= c.se && Mag(c, m.b, k) == 0
    ensures MidOk(c, m, k + 1, st.(r := st.r + 1))
    ensures Early(c, m.b, m.q, k) ==> Early(c, m.b, m.q, k + 1)
  {
    hide Mag, IsHistory, PendOk, Zeros, Corrections;
    NonzeroUnlessZero(c, m.b, k);
    ZerosSnoc(c, m.b, m.q, k);
    NotNewIfZero(c, m.b, k);
    NoNewSnoc(c, m.b, m.q, k);
  }

  lemma NotNewIfZero(c: Band, b: Block, k: nat)
    requires k < DCTSIZE2 && (Mag(c, b, k) == 0 || IsCorrection(c, b, k))
    ensures !IsNew(c, b, k)
  {
  }

  lemma NoNewSnoc(c: Band, b: Block, q: nat, k: nat)
    requires q <= k < DCTSIZE2 && NoNew(c, b, q, k) && !IsNew(c, b, k)
    ensures NoNew(c, b, q, k + 1)
  {
  }

  lemma CorrectionStep(c: Band, m: Mid, k: nat, st: Run)
    requires BandOk(c) && MidOk(c, m, k, st) && k <= c.se && IsCorrection(c, m.b, k)
    ensures MidOk(c, m, k + 1, st.(br := st.br + [Mag(c, m.b, k) % 2 == 1]))
    ensures Early(c, m.b, m.q, k) && st.r <= 15 ==> Early(c, m.b, m.q, k + 1)
  {
    hide Mag, IsHistory, PendOk, Zeros, Corrections, IsCorrection;
    NonzeroIfCorrection(c, m.b, k);
    ZerosSnoc(c, m.b, m.q, k);
    NotNewIfZero(c, m.b, k);
    NoNewSnoc(c, m.b, m.q, k);
  }

  lemma NewStep(c: Band, hs: DTables, t: CTables, s: Source, m: Mid, k: nat, st: Run, hist: seq<Block>,
                rest: seq<Item>, end: Ahead) returns (u: Source, m': Mid)
    requires BandOk(c) && AllLinked(hs, t) && MidOk(c, m, k, st) && InRange(c, m.b) && k <= c.se
    requires m.pd.bs == [] && st.r <= 15 && IsNew(c, m.b, k)
    requires AllHaveCodes(t, NewItems(c, m.b, k, st.r))
    requires Feeds(s, t, NewItems(c, m.b, k, st.r) + (BitItems(st.br) + rest), end)
    ensures MidOk(c, m', k + 1, Run(0, [], 0, [])) && Early(c, m'.b, m'.q, k + 1) && Feeds(u, t, rest, end)
    ensures Moves(c, hs[4 + c.tbl], s, m, u, m', hist, [])
  {
    hide Feeds, AllLinked, IsHistory, Goal, DecodeBlocks, BandFrom, Goals, Mag, IsNew, IsCorrection, InRange, NewItems;
    var newnz;
    u, newnz := NewRoundTrip(c, hs, t, s, m.b, m.h, m.q, k, st.r, m.newnz, rest, end);
    m' := Mid(m.pd, m.b, m.h, k + 1, newnz);
    PrependPrepend([], [], MidPoint(c, hs[4 + c.tbl], u, m', hist));
    assert [] + Goals(c, [], []) == Goals(c, [], []);
  }

  // ----- The end of a block

  lemma {:induction false} NothingLeft(c: Band, b: Block, q: nat, k: nat)
    requires q <= k <= DCTSIZE2 && NoNew(c, b, q, k) && Zeros(c, b, q, k) == 0 && Corrections(c, b, q, k) == []
    ensures q == k
  {
    hide Mag, IsCorrection;
    if q < k {
      LastIsNotNew(c, b, q, k);
    }
  }

  lemma LastIsNotNew(c: Band, b: Block, q: nat, k: nat)
    requires q < k <= DCTSIZE2 && NoNew(c, b, q, k)
    ensures Mag(c, b, k - 1) == 0 || IsCorrection(c, b, k - 1)
  {
    assert !IsNew(c, b, k - 1);
  }

  lemma SomethingLeft(c: Band, b: Block, q: nat, k: nat)
    requires q <= k <= DCTSIZE2 && (Zeros(c, b, q, k) > 0 || Corrections(c, b, q, k) != [])
    ensures q < k
  {
    hide Mag, IsCorrection;
  }

  /** The run of pending blocks grows by the block that the encoder is in. */
  function Grow(m: Mid): Pend {
    if m.pd.bs == [] then Pend([m.b], [m.h], m.q, m.newnz)
    else Pend(m.pd.bs + [m.b], m.pd.hs + [m.h], m.pd.k, m.pd.newnz)
  }

  lemma GrowOk(c: Band, H: HuffTbl, s: Source, m: Mid, st: Run, hist: seq<Block>)
    requires BandOk(c) && MidOk(c, m, c.se + 1, st) && (st.r > 0 || st.br != [])
    ensures PendOk(c, Grow(m), st.be + st.br) && |Grow(m).bs| == st.n + 1
    ensures MidPoint(c, H, s, m, hist) == Point(c, H, s, Grow(m), hist)
    ensures Goals(c, Grow(m).bs, Grow(m).hs) == Goals(c, m.pd.bs, m.pd.hs) + [Goal(c, m.b, m.h, c.se + 1)]
  {
    hide IsHistory, NoNew, DecodeFrom, Goal, Mag, IsCorrection;
    assert Goals(c, [m.b], [m.h]) == [Goal(c, m.b, m.h, c.se + 1)];
    GoalsConcat(c, m.pd.bs, m.pd.hs, [m.b], [m.h]);
    if m.pd.bs == [] {
      assert [m.b] == [] + [m.b] && [m.h] == [] + [m.h];
      assert [m.h][1..] + hist == hist && st.be + st.br == st.br;
      assert st.br + AllCorrections(c, [m.b][1..]) == st.br;
      SomethingLeft(c, m.b, m.q, c.se + 1);
    } else {
      var g := Grow(m);
      AllCorrectionsSnoc(c, m.pd.bs[1..], m.b);
      assert g.bs[1..] == m.pd.bs[1..] + [m.b];
      assert g.hs[1..] + hist == m.pd.hs[1..] + ([m.h] + hist);
    }
  }

  lemma QuietEnd(c: Band, H: HuffTbl, s: Source, m: Mid, st: Run, hist: seq<Block>)
    requires BandOk(c) && MidOk(c, m, c.se + 1, st) && st.r == 0 && st.br == []
    ensures m.pd.bs == [] && m.pd.hs == [] && st.n == 0 && st.be == []
    ensures MidPoint(c, H, s, m, hist) == PrependBlocks([Goal(c, m.b, m.h, c.se + 1)], DecodeBlocks(c, H, s, 0, hist))
  {
    hide IsHistory, Goal, DecodeBlocks, Zeros, Corrections, NoNew;
    NothingLeft(c, m.b, m.q, c.se + 1);
    BandEnd(c, H, s, Goal(c, m.b, m.h, m.q), m.newnz);
  }

  lemma BandEnd(c: Band, H: HuffTbl, s: Source, b: Block, newnz: seq<nat>)
    requires BandOk(c)
    ensures BandFrom(c, H, s, c.se + 1, b, newnz) == BandDone(s, 0, b)
  {
  }

  // ----- Blocks and coefficients

  lemma SegItemsCons(c: Band, bs: seq<Block>, p: Pending)
    requires BandOk(c) && bs != []
    ensures SegItems(c, bs, p) == EncodeBlock(c, bs[0], p).0 + SegItems(c, bs[1..], EncodeBlock(c, bs[0], p).1)
  {
    hide EncodeBlock;
  }

  lemma MidStart(c: Band, H: HuffTbl, s: Source, pd: Pend, p: Pending, b: Block, h: Block, hist: seq<Block>)
    requires BandOk(c) && PendOk(c, pd, p.be) && p.n == |pd.bs| < MAX_EOBRUN && IsHistory(c, b, h)
    ensures var m := Mid(pd, b, h, c.ss, []);
      MidOk(c, m, c.ss, Run(p.n, p.be, 0, [])) && Early(c, b, c.ss, c.ss)
      && MidPoint(c, H, s, m, hist) == Point(c, H, s, pd, [h] + hist)
  {
    hide DecodeFrom, DecodeBlocks, IsHistory, Goal, PendOk, IsCorrection, IsNew;
    GoalAtStart(c, b, h);
    StartOfBlock(c, H, s, h, hist);
    assert |pd.bs| == |pd.hs| by { PendSizes(c, pd, p.be); }
  }

  lemma PendSizes(c: Band, pd: Pend, be: seq<bool>)
    requires BandOk(c) && PendOk(c, pd, be)
    ensures |pd.bs| == |pd.hs| && (pd.bs == [] ==> be == [])
  {
  }

  lemma EmptyHistories(c: Band, bs: seq<Block>, hist: seq<Block>)
    requires BandOk(c) && AreHistories(c, bs, hist) && bs != []
    ensures IsHistory(c, bs[0], hist[0]) && AreHistories(c, bs[1..], hist[1..])
  {
    hide IsHistory;
  }

  /** All blocks of the segment, from a block boundary of the encoder. */
  lemma {:induction false} SegLockstep(c: Band, hs: DTables, t: CTables, s: Source, pd: Pend, bs: seq<Block>,
                                       hist: seq<Block>, p: Pending, rest: seq<Item>, end: Ahead) returns (u: Source)
    requires BandOk(c) && AllLinked(hs, t) && PendOk(c, pd, p.be) && p.n == |pd.bs| < MAX_EOBRUN
    requires AreHistories(c, bs, hist) && AllInRange(c, bs)
    requires AllHaveCodes(t, SegItems(c, bs, p)) && Feeds(s, t, SegItems(c, bs, p) + rest, end)
    ensures Feeds(u, t, rest, end) && |pd.bs| == |pd.hs| && SegEnds(c, hs[4 + c.tbl], s, pd, bs, hist, u)
    decreases |bs|, 0
  {
    hide Feeds, AllLinked, IsHistory, PendOk, Goal, DecodeBlocks, Flush, Point, EncodeBlock, EncodeCoefs, MidOk, MidPoint,
         InRange, Early;
    var H := hs[4 + c.tbl];
    PendSizes(c, pd, p.be);
    if bs == [] {
      u := FlushRoundTrip(c, hs, t, s, pd, p.be, [], rest, end);
      assert DecodeBlocks(c, H, u, 0, []) == Some((u, 0, [])) by { NoBlocks(c, H, u); }
    } else {
      var b, h := bs[0], hist[0];
      EmptyHistories(c, bs, hist);
      MidStart(c, H, s, pd, p, b, h, hist[1..]);
      SegItemsCons(c, bs, p);
      assert hist == [h] + hist[1..];
      var m := Mid(pd, b, h, c.ss, []);
      BlockItemsStart(c, b, p);
      u := BlockLockstep(c, hs, t, s, m, c.ss, Run(p.n, p.be, 0, []), bs[1..], hist[1..], rest, end);
    }
  }

  lemma NoBlocks(c: Band, H: HuffTbl, u: Source)
    requires BandOk(c)
    ensures DecodeBlocks(c, H, u, 0, []) == Some((u, 0, []))
  {
  }

  lemma BlockItemsStart(c: Band, b: Block, p: Pending)
    requires BandOk(c)
    ensures EncodeBlock(c, b, p) == EncodeCoefs(c, b, c.ss, LastNew(c, b, c.se + 1), Run(p.n, p.be, 0, []))
  {
    hide EncodeCoefs, LastNew;
  }

  /** The items from coefficient k of a block to the end of the segment. */
  function ItemsFrom(c: Band, b: Block, k: nat, st: Run, bs: seq<Block>): seq<Item>
    requires BandOk(c)
  {
    var (items, p) := EncodeCoefs(c, b, k, LastNew(c, b, c.se + 1), st);
    items + SegItems(c, bs, p)
  }

  lemma ItemsEnd(c: Band, b: Block, st: Run, bs: seq<Block>)
    requires BandOk(c)
    ensures ItemsFrom(c, b, c.se + 1, st, bs) == EndBlock(c, st).0 + SegItems(c, bs, EndBlock(c, st).1)
  {
    hide EndBlock, SegItems, LastNew;
  }

  lemma ItemsZero(c: Band, b: Block, k: nat, st: Run, bs: seq<Block>)
    requires BandOk(c) && k <= c.se && Mag(c, b, k) == 0
    ensures ItemsFrom(c, b, k, st, bs) == ItemsFrom(c, b, k + 1, st.(r := st.r + 1), bs)
  {
    hide EndBlock, SegItems, LastNew, Mag, ZrlLoop;
  }

  lemma ItemsCorrection(c: Band, b: Block, k: nat, st: Run, bs: seq<Block>)
    requires BandOk(c) && k <= c.se && IsCorrection(c, b, k)
    ensures var (zrls, st1) := ZrlsDue(c, b, k, st);
      ItemsFrom(c, b, k, st, bs) == zrls + ItemsFrom(c, b, k + 1, st1.(br := st1.br + [Mag(c, b, k) % 2 == 1]), bs)
  {
    hide EndBlock, SegItems, LastNew, Mag, IsCorrection, ZrlLoop;
    NonzeroIfCorrection(c, b, k);
    var (zrls, st1) := ZrlsDue(c, b, k, st);
    var (items, p) := EncodeCoefs(c, b, k + 1, LastNew(c, b, c.se + 1), st1.(br := st1.br + [Mag(c, b, k) % 2 == 1]));
    assert (zrls + items) + SegItems(c, bs, p) == zrls + (items + SegItems(c, bs, p));
  }

  lemma ItemsNew(c: Band, b: Block, k: nat, st: Run, bs: seq<Block>)
    requires BandOk(c) && k <= c.se && IsNew(c, b, k)
    ensures var (zrls, st1) := ZrlsDue(c, b, k, st);
      ItemsFrom(c, b, k, st, bs)
      == zrls + (Flush(c.tbl, st1.n, st1.be)
                 + (NewItems(c, b, k, st1.r) + (BitItems(st1.br) + ItemsFrom(c, b, k + 1, Run(0, [], 0, []), bs))))
  {
    hide EndBlock, SegItems, LastNew, Mag, IsCorrection, Flush, BitItems, NewItems, ZrlLoop;
    var (zrls, st1) := ZrlsDue(c, b, k, st);
    var (items, p) := EncodeCoefs(c, b, k + 1, LastNew(c, b, c.se + 1), Run(0, [], 0, []));
    var f, n, br, more := Flush(c.tbl, st1.n, st1.be), NewItems(c, b, k, st1.r), BitItems(st1.br), SegItems(c, bs, p);
    assert (zrls + f + n + br + items) + more == zrls + (f + (n + (br + (items + more))));
  }

  /** A block that leaves nothing pending ends where the blocks behind it end. */
  lemma EndsQuietly(c: Band, H: HuffTbl, s: Source, m: Mid, st: Run, bs: seq<Block>, hist: seq<Block>, u: Source)
    requires BandOk(c) && MidOk(c, m, c.se + 1, st) && st.r == 0 && st.br == [] && |bs| == |hist|
    requires SegEnds(c, H, s, NO_PEND, bs, hist, u)
    ensures |m.pd.bs| == |m.pd.hs| && Ends(c, H, s, m, bs, hist, u)
  {
    hide Goal, Goals, DecodeBlocks, MidOk, MidPoint;
    QuietEnd(c, H, s, m, st, hist);
    NoGoals(c);
    AddGoals([], [Goal(c, m.b, m.h, c.se + 1)], Goals(c, bs, hist));
  }

  /** A block that joins a run ends where the run and the blocks behind it end. */
  lemma EndsInRun(c: Band, H: HuffTbl, s: Source, m: Mid, st: Run, bs: seq<Block>, hist: seq<Block>, u: Source)
    requires BandOk(c) && MidOk(c, m, c.se + 1, st) && (st.r > 0 || st.br != []) && |bs| == |hist|
    requires |Grow(m).bs| == |Grow(m).hs| && SegEnds(c, H, s, Grow(m), bs, hist, u)
    ensures |m.pd.bs| == |m.pd.hs| && Ends(c, H, s, m, bs, hist, u)
  {
    hide Goal, Goals, Point, MidOk, MidPoint, Grow;
    MidLengths(c, m, c.se + 1, st);
    GrowOk(c, H, s, m, st, hist);
    AddGoals(Goals(c, m.pd.bs, m.pd.hs), [Goal(c, m.b, m.h, c.se + 1)], Goals(c, bs, hist));
  }

  /** A run that has been flushed ends where the blocks behind it end. */
  lemma EndsFlushed(c: Band, H: HuffTbl, s: Source, g: Pend, w: Source, bs: seq<Block>, hist: seq<Block>, u: Source)
    requires BandOk(c) && |g.bs| == |g.hs| && |bs| == |hist| && Quiet(s, w)
    requires Point(c, H, s, g, hist) == PrependBlocks(Goals(c, g.bs, g.hs), DecodeBlocks(c, H, w, 0, hist))
    requires SegEnds(c, H, w, NO_PEND, bs, hist, u)
    ensures SegEnds(c, H, s, g, bs, hist, u)
  {
    hide Goals, DecodeBlocks;
    assert Goals(c, [], []) == [] by { NoGoals(c); }
    AddGoals([], [], Goals(c, bs, hist));
    assert NO_PEND.bs == [] && NO_PEND.hs == [];
    assert Point(c, H, w, NO_PEND, hist) == DecodeBlocks(c, H, w, 0, hist);
  }

  lemma EndLockstep(c: Band, hs: DTables, t: CTables, s: Source, m: Mid, st: Run, bs: seq<Block>, hist: seq<Block>,
                    rest: seq<Item>, end: Ahead) returns (u: Source)
    requires BandOk(c) && AllLinked(hs, t) && MidOk(c, m, c.se + 1, st)
    requires AreHistories(c, bs, hist) && AllInRange(c, bs)
    requires var (items, p) := EndBlock(c, st);
      AllHaveCodes(t, items + SegItems(c, bs, p)) && Feeds(s, t, items + SegItems(c, bs, p) + rest, end)
    ensures Feeds(u, t, rest, end) && |m.pd.bs| == |m.pd.hs| && Ends(c, hs[4 + c.tbl], s, m, bs, hist, u)
    decreases |bs|, 1
  {
    hide Feeds, AllLinked, PendOk, Flush, SegItems, MidOk, InRange, AllInRange, IsHistory, Ends, SegEnds, Grow, Point,
         AllHaveCodes;
    var H := hs[4 + c.tbl];
    MidLengths(c, m, c.se + 1, st);
    var (items, p) := EndBlock(c, st);
    CodesSplit(t, items, SegItems(c, bs, p));
    assert items + SegItems(c, bs, p) + rest == items + (SegItems(c, bs, p) + rest);
    assert PendOk(c, NO_PEND, []) by { NoPendOk(c); }
    if st.r == 0 && st.br == [] {
      QuietEnd(c, H, s, m, st, hist);
      assert items + (SegItems(c, bs, p) + rest) == SegItems(c, bs, p) + rest;
      u := SegLockstep(c, hs, t, s, NO_PEND, bs, hist, p, rest, end);
      EndsQuietly(c, H, s, m, st, bs, hist, u);
    } else {
      var g := Grow(m);
      GrowOk(c, H, s, m, st, hist);
      PendSizes(c, g, st.be + st.br);
      if items == [] && p.n != 0 {
        assert items + (SegItems(c, bs, p) + rest) == SegItems(c, bs, p) + rest;
        u := SegLockstep(c, hs, t, s, g, bs, hist, p, rest, end);
      } else {
        var w := FlushRoundTrip(c, hs, t, s, g, st.be + st.br, hist, SegItems(c, bs, p) + rest, end);
        u := SegLockstep(c, hs, t, w, NO_PEND, bs, hist, p, rest, end);
        EndsFlushed(c, H, s, g, w, bs, hist, u);
      }
      EndsInRun(c, H, s, m, st, bs, hist, u);
    }
  }

  lemma NoPendOk(c: Band)
    requires BandOk(c)
    ensures PendOk(c, NO_PEND, [])
  {
  }

  lemma AddGoals(a: seq<Block>, b: seq<Block>, d: seq<Block>)
    ensures a + (b + d) == (a + b) + d && [] + d == d && [] + (b + d) == b + d
  {
  }

  /** From any coefficient of a block on. */
  lemma {:induction false} BlockLockstep(c: Band, hs: DTables, t: CTables, s: Source, m: Mid, k: nat, st: Run,
                                         bs: seq<Block>, hist: seq<Block>, rest: seq<Item>, end: Ahead)
    returns (u: Source)
    requires BandOk(c) && AllLinked(hs, t) && MidOk(c, m, k, st)
    requires k <= LastNew(c, m.b, c.se + 1) ==> Early(c, m.b, m.q, k)
    requires InRange(c, m.b) && AreHistories(c, bs, hist) && AllInRange(c, bs)
    requires AllHaveCodes(t, ItemsFrom(c, m.b, k, st, bs)) && Feeds(s, t, ItemsFrom(c, m.b, k, st, bs) + rest, end)
    ensures Feeds(u, t, rest, end) && |m.pd.bs| == |m.pd.hs| && Ends(c, hs[4 + c.tbl], s, m, bs, hist, u)
    decreases |bs|, 100 - k
  {
    hide Feeds, AllLinked, Mag, MidOk, ItemsFrom, InRange, AreHistories, AllInRange, Ends, Early, LastNew, EndBlock, SegItems,
         IsNew, IsCorrection;
    MidLengths(c, m, k, st);
    if k > c.se {
      ItemsEnd(c, m.b, st, bs);
      u := EndLockstep(c, hs, t, s, m, st, bs, hist, rest, end);
    } else if Mag(c, m.b, k) == 0 {
      ItemsZero(c, m.b, k, st, bs);
      ZeroStep(c, m, k, st);
      u := BlockLockstep(c, hs, t, s, m, k + 1, st.(r := st.r + 1), bs, hist, rest, end);
    } else {
      u := NonzeroLockstep(c, hs, t, s, m, k, st, bs, hist, rest, end);
    }
  }

  lemma ZrlsLockstep(c: Band, hs: DTables, t: CTables, s: Source, m: Mid, k: nat, st: Run, hist: seq<Block>,
                     rest: seq<Item>, end: Ahead) returns (u: Source, m': Mid, done: seq<Block>)
    requires BandOk(c) && AllLinked(hs, t) && MidOk(c, m, k, st)
    requires k <= LastNew(c, m.b, c.se + 1) ==> Early(c, m.b, m.q, k)
    requires AllHaveCodes(t, ZrlsDue(c, m.b, k, st).0) && Feeds(s, t, ZrlsDue(c, m.b, k, st).0 + rest, end)
    ensures MidOk(c, m', k, ZrlsDue(c, m.b, k, st).1)
    ensures k <= LastNew(c, m.b, c.se + 1) ==> Early(c, m'.b, m'.q, k) && ZrlsDue(c, m.b, k, st).1.r <= 15
    ensures |m.pd.bs| == |m.pd.hs| && |m'.pd.bs| == |m'.pd.hs|
    ensures Feeds(u, t, rest, end) && Moves(c, hs[4 + c.tbl], s, m, u, m', hist, done)
  {
    hide Feeds, AllLinked, MidOk, Early, LastNew, ZrlLoop, Moves;
    MidLengths(c, m, k, st);
    if k <= LastNew(c, m.b, c.se + 1) {
      u, m', done := ZrlLoopLockstep(c, hs, t, s, m, k, st, hist, rest, end);
      MidLengths(c, m', k, ZrlLoop(c.tbl, st).1);
    } else {
      assert [] + rest == rest;
      u, m', done := s, m, [];
      StayPut(c, hs[4 + c.tbl], s, m, hist, k, st);
    }
  }

  /** A coefficient that is not zero after the point transform. */
  lemma NonzeroLockstep(c: Band, hs: DTables, t: CTables, s: Source, m: Mid, k: nat, st: Run,
                        bs: seq<Block>, hist: seq<Block>, rest: seq<Item>, end: Ahead) returns (u: Source)
    requires BandOk(c) && AllLinked(hs, t) && MidOk(c, m, k, st) && k <= c.se && Mag(c, m.b, k) != 0
    requires k <= LastNew(c, m.b, c.se + 1) ==> Early(c, m.b, m.q, k)
    requires InRange(c, m.b) && AreHistories(c, bs, hist) && AllInRange(c, bs)
    requires AllHaveCodes(t, ItemsFrom(c, m.b, k, st, bs)) && Feeds(s, t, ItemsFrom(c, m.b, k, st, bs) + rest, end)
    ensures Feeds(u, t, rest, end) && |m.pd.bs| == |m.pd.hs| && Ends(c, hs[4 + c.tbl], s, m, bs, hist, u)
    decreases |bs|, 100 - k, 0
  {
    hide Feeds, AllLinked, Mag, MidOk, ItemsFrom, InRange, IsHistory, AllInRange, Ends, Early, LastNew, ZrlLoop,
         NewItems, BitItems, Flush, Moves, ZrlsDue, IsCorrection;
    var H := hs[4 + c.tbl];
    MidLengths(c, m, k, st);
    var (zrls, st1) := ZrlsDue(c, m.b, k, st);
    var w, m1, done;
    if IsCorrection(c, m.b, k) {
      var st2 := st1.(br := st1.br + [Mag(c, m.b, k) % 2 == 1]);
      var more := ItemsFrom(c, m.b, k + 1, st2, bs);
      ItemsCorrection(c, m.b, k, st, bs);
      CodesSplit(t, zrls, more);
      assert zrls + more + rest == zrls + (more + rest);
      w, m1, done := ZrlsLockstep(c, hs, t, s, m, k, st, hist, more + rest, end);
      SameBlock(c, H, s, m, w, m1, hist, done);
      CorrectionStep(c, m1, k, st1);
      u := BlockLockstep(c, hs, t, w, m1, k + 1, st2, bs, hist, rest, end);
      EndsLater(c, H, s, m, w, m1, bs, hist, done, u);
    } else {
      var st0 := Run(0, [], 0, []);
      var more := ItemsFrom(c, m.b, k + 1, st0, bs);
      var f, n, br := Flush(c.tbl, st1.n, st1.be), NewItems(c, m.b, k, st1.r), BitItems(st1.br);
      NewIsNotLate(c, m.b, k, c.se + 1);
      ItemsNew(c, m.b, k, st, bs);
      CodesSplit(t, zrls, f + (n + (br + more)));
      CodesSplit(t, f, n + (br + more));
      CodesSplit(t, n, br + more);
      CodesSplit(t, br, more);
      Reassociate(zrls, f, n, br, more, rest);
      w, m1, done := ZrlsLockstep(c, hs, t, s, m, k, st, hist, f + (n + (br + (more + rest))), end);
      SameBlock(c, H, s, m, w, m1, hist, done);
      var x, m2 := FlushStep(c, hs, t, w, m1, k, st1, hist, n + (br + (more + rest)), end);
      MidLengths(c, m2, k, Run(0, [], st1.r, st1.br));
      SameBlock(c, H, w, m1, x, m2, hist, Goals(c, m1.pd.bs, m1.pd.hs));
      var y, m3 := NewStep(c, hs, t, x, m2, k, Run(0, [], st1.r, st1.br), hist, more + rest, end);
      MidLengths(c, m3, k + 1, st0);
      SameBlock(c, H, x, m2, y, m3, hist, []);
      u := BlockLockstep(c, hs, t, y, m3, k + 1, st0, bs, hist, rest, end);
      EndsLater(c, H, x, m2, y, m3, bs, hist, [], u);
      EndsLater(c, H, w, m1, x, m2, bs, hist, Goals(c, m1.pd.bs, m1.pd.hs), u);
      EndsLater(c, H, s, m, w, m1, bs, hist, done, u);
    }
  }

  lemma SameBlock(c: Band, H: HuffTbl, s: Source, m: Mid, u: Source, m': Mid, hist: seq<Block>, done: seq<Block>)
    requires BandOk(c) && |m.pd.bs| == |m.pd.hs| && |m'.pd.bs| == |m'.pd.hs| && Moves(c, H, s, m, u, m', hist, done)
    ensures m'.b == m.b && m'.h == m.h
  {
  }

  lemma Reassociate(a: seq<Item>, b: seq<Item>, d: seq<Item>, e: seq<Item>, f: seq<Item>, g: seq<Item>)
    ensures (a + (b + (d + (e + f)))) + g == a + (b + (d + (e + (f + g))))
  {
    assert (e + f) + g == e + (f + g);
    assert (d + (e + f)) + g == d + ((e + f) + g);
    assert (b + (d + (e + f))) + g == b + ((d + (e + f)) + g);
  }

  /**
   T.81 G.1.2.2 and G.1.2.3: for all blocks of a restart interval, first or refinement scan, decoding what the
   encoder emits turns every block's history into the block truncated at the scan's bit position.
   */
  lemma BandRoundTrip(c: Band, hs: DTables, t: CTables, s: Source, bs: seq<Block>, hist: seq<Block>,
                      rest: seq<Item>, end: Ahead) returns (u: Source)
    requires BandOk(c) && AllLinked(hs, t) && AreHistories(c, bs, hist) && AllInRange(c, bs)
    requires AllHaveCodes(t, SegItems(c, bs, Pending(0, []))) && Feeds(s, t, SegItems(c, bs, Pending(0, [])) + rest, end)
    ensures DecodeBlocks(c, hs[4 + c.tbl], s, 0, hist) == Some((u, 0, Goals(c, bs, hist)))
    ensures Feeds(u, t, rest, end) && Quiet(s, u)
  {
    hide Feeds, AllLinked, SegItems, DecodeBlocks;
    NoPendOk(c);
    u := SegLockstep(c, hs, t, s, NO_PEND, bs, hist, Pending(0, []), rest, end);
    NoGoals(c);
    assert [] + Goals(c, bs, hist) == Goals(c, bs, hist);
  }
}
