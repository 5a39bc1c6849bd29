/**
 What the symbols of an AC scan tell about end-of-band runs, by their numbers: runs span as many blocks as they can, a
 run is ended before its time only for its correction bits, and no ZRL symbol is wasted on zeros at the end of a band.
 */
module EobRuns {
  import opened Bits
  import opened Wrappers
  import opened HuffmanTables
  import opened Symbols
  import opened Coefficients
  import opened SequentialCodec
  import opened AcBand
  import opened AcSegment
  import opened AcRoundTrip
  import opened AcEncoders

  /** EOB0 to EOB14 */
  predicate IsEob(it: Item) {
    it.Sym? && it.ac && it.sym % 16 == 0 && it.sym < 0xF0
  }

  predicate IsZrl(it: Item) {
    it.Sym? && it.ac && it.sym == 0xF0
  }

  /** The number of values that follow item i, up to the next symbol. */
  function RawsBehind(items: seq<Item>, i: nat): (n: nat)
    requires i < |items|
    ensures i + 1 + n <= |items|
    decreases |items| - i
  {
    if i + 1 < |items| && items[i + 1].Raw? then 1 + RawsBehind(items, i + 1) else 0
  }

  function NextSymbol(items: seq<Item>, i: nat): (j: nat)
    requires i < |items|
    ensures i < j <= |items|
  {
    i + 1 + RawsBehind(items, i)
  }

  /** The run of blocks that an EOBn symbol and its n appended bits stand for. */
  function BlocksOf(items: seq<Item>, i: nat): int
    requires i < |items| && IsEob(items[i])
  {
    var n := items[i].sym / 16;
    if n > 0 && i + 1 < |items| && items[i + 1].Raw? then Pow2(n) + Mask(items[i + 1].val, n) else Pow2(n)
  }

  /** The correction bits behind an EOBn symbol and its appended bits. */
  function CorrectionsOf(items: seq<Item>, i: nat): int
    requires i < |items| && IsEob(items[i])
  {
    RawsBehind(items, i) - if items[i].sym < 16 then 0 else 1
  }

  /** An end-of-band symbol directly in front of another one stands for 0x7FFF blocks, or for more than 937 correction bits. */
  predicate RunsAreFull(items: seq<Item>) {
    forall i :: 0 <= i < |items| && IsEob(items[i]) && NextSymbol(items, i) < |items| && IsEob(items[NextSymbol(items, i)]) ==>
      BlocksOf(items, i) == 0x7FFF || CorrectionsOf(items, i) > 937
  }

  /** A ZRL symbol is followed by a symbol of the same block, in the end one of a coefficient. */
  predicate ZrlsAreNeeded(items: seq<Item>) {
    forall i :: 0 <= i < |items| && IsZrl(items[i]) ==>
      NextSymbol(items, i) < |items| && !IsEob(items[NextSymbol(items, i)])
  }

  predicate Economical(items: seq<Item>) {
    && (items != [] ==> items[0].Sym?)
    && RunsAreFull(items) && ZrlsAreNeeded(items)
  }

  // ----- A symbol and its values in front

  predicate AllRaw(raws: seq<Item>) {
    forall i :: 0 <= i < |raws| ==> raws[i].Raw?
  }

  lemma {:induction false} RawsInFront(a: seq<Item>, y: seq<Item>, i: nat)
    requires i < |a| && AllRaw(a[i + 1..]) && (y != [] ==> y[0].Sym?)
    ensures RawsBehind(a + y, i) == |a| - i - 1
    decreases |a| - i
  {
    if i + 1 < |a| {
      assert a[i + 1..][0] == a[i + 1] && a[i + 1..][1..] == a[i + 2..];
      RawsInFront(a, y, i + 1);
    }
  }

  lemma {:induction false} RawsLater(a: seq<Item>, y: seq<Item>, i: nat)
    requires i < |y|
    ensures RawsBehind(a + y, |a| + i) == RawsBehind(y, i)
    decreases |y| - i
  {
    if i + 1 < |y| && y[i + 1].Raw? {
      RawsLater(a, y, i + 1);
    }
  }

  predicate NotEobFirst(y: seq<Item>) {
    y != [] && y[0].Sym? && !IsEob(y[0])
  }

  /** What is behind symbol i of y is behind it with anything in front, too. */
  lemma Later(a: seq<Item>, y: seq<Item>, i: nat)
    requires i < |y| && y[i].Sym?
    ensures NextSymbol(a + y, |a| + i) == |a| + NextSymbol(y, i)
    ensures IsEob(y[i]) ==>
      BlocksOf(a + y, |a| + i) == BlocksOf(y, i) && CorrectionsOf(a + y, |a| + i) == CorrectionsOf(y, i)
  {
    hide Mask, Pow2;
    RawsLater(a, y, i);
  }

  lemma First(s: Item, raws: seq<Item>, y: seq<Item>)
    requires s.Sym? && AllRaw(raws) && (y != [] ==> y[0].Sym?)
    ensures NextSymbol([s] + raws + y, 0) == 1 + |raws|
    ensures IsEob(s) ==>
      && BlocksOf([s] + raws + y, 0) == BlocksOf([s] + raws, 0)
      && CorrectionsOf([s] + raws + y, 0) == |raws| - if s.sym < 16 then 0 else 1
  {
    hide Mask, Pow2;
    var a := [s] + raws;
    assert a[1..] == raws;
    RawsInFront(a, y, 0);
  }

  lemma InFront(s: Item, raws: seq<Item>, y: seq<Item>)
    requires s.Sym? && AllRaw(raws) && Economical(y)
    requires IsZrl(s) ==> NotEobFirst(y)
    requires IsEob(s) ==>
      y == [] || NotEobFirst(y) || BlocksOf([s] + raws, 0) == 0x7FFF || |raws| - (if s.sym < 16 then 0 else 1) > 937
    ensures Economical([s] + raws + y) && ([s] + raws + y)[0] == s
  {
    hide BlocksOf, CorrectionsOf, NextSymbol;
    var a := [s] + raws;
    First(s, raws, y);
    forall i | 0 <= i < |a + y| && (a + y)[i].Sym?
      ensures i == 0 || i >= |a|
    {
    }
    forall i | 0 <= i < |y| && y[i].Sym?
      ensures NextSymbol(a + y, |a| + i) == |a| + NextSymbol(y, i)
      ensures IsEob(y[i]) ==>
        BlocksOf(a + y, |a| + i) == BlocksOf(y, i) && CorrectionsOf(a + y, |a| + i) == CorrectionsOf(y, i)
    {
      Later(a, y, i);
    }
    FullInFront(a, y);
    NeededInFront(a, y);
  }

  lemma FullInFront(a: seq<Item>, y: seq<Item>)
    requires a != [] && RunsAreFull(y) && forall i :: 0 < i < |a| ==> !a[i].Sym?
    requires forall i :: 0 <= i < |y| && y[i].Sym? ==> NextSymbol(a + y, |a| + i) == |a| + NextSymbol(y, i)
    requires forall i :: 0 <= i < |y| && IsEob(y[i]) ==>
      BlocksOf(a + y, |a| + i) == BlocksOf(y, i) && CorrectionsOf(a + y, |a| + i) == CorrectionsOf(y, i)
    requires IsEob(a[0]) && NextSymbol(a + y, 0) < |a + y| && IsEob((a + y)[NextSymbol(a + y, 0)]) ==>
      BlocksOf(a + y, 0) == 0x7FFF || CorrectionsOf(a + y, 0) > 937
    ensures RunsAreFull(a + y)
  {
    hide BlocksOf, CorrectionsOf, NextSymbol;
    forall i | 0 <= i < |a + y| && IsEob((a + y)[i]) && NextSymbol(a + y, i) < |a + y| && IsEob((a + y)[NextSymbol(a + y, i)])
      ensures BlocksOf(a + y, i) == 0x7FFF || CorrectionsOf(a + y, i) > 937
    {
      if i > 0 {
        var j := i - |a|;
        assert i == |a| + j && (a + y)[i] == y[j];
      }
    }
  }

  lemma NeededInFront(a: seq<Item>, y: seq<Item>)
    requires a != [] && ZrlsAreNeeded(y) && forall i :: 0 < i < |a| ==> !a[i].Sym?
    requires forall i :: 0 <= i < |y| && y[i].Sym? ==> NextSymbol(a + y, |a| + i) == |a| + NextSymbol(y, i)
    requires IsZrl(a[0]) ==> NextSymbol(a + y, 0) < |a + y| && !IsEob((a + y)[NextSymbol(a + y, 0)])
    ensures ZrlsAreNeeded(a + y)
  {
    hide NextSymbol;
    forall i | 0 <= i < |a + y| && IsZrl((a + y)[i])
      ensures NextSymbol(a + y, i) < |a + y| && !IsEob((a + y)[NextSymbol(a + y, i)])
    {
      if i > 0 {
        var j := i - |a|;
        assert i == |a| + j && (a + y)[i] == y[j];
      }
    }
  }

  // ----- What the encoder puts in front

  lemma {:induction false} BitsAreRaw(bs: seq<bool>)
    ensures AllRaw(BitItems(bs)) && |BitItems(bs)| == |bs|
  {
    if bs != [] {
      BitsAreRaw(bs[1..]);
    }
  }

  /** The run that is emitted is the one that was counted. */
  lemma RunIsCounted(tbl: nat, n: nat, raws: seq<Item>)
    requires 0 < n <= MAX_EOBRUN
    ensures IsEob(EobItems(tbl, n)[0]) && BlocksOf(EobItems(tbl, n) + raws, 0) == n
    ensures EobItems(tbl, n)[0].sym < 16 <==> |EobItems(tbl, n)| == 1
  {
    RunLength(n);
    NBitsBounds(n);
    LowBits(n, NBits(n) - 1);
  }

  lemma LowBits(n: nat, k: nat)
    requires Pow2(k) <= n < Pow2(k + 1)
    ensures Pow2(k) + Mask(n, k) == n
  {
    MaskPlus(n - Pow2(k), k);
    MaskSmall(n - Pow2(k), k);
  }

  lemma {:induction false} MaskPlus(x: int, k: nat)
    ensures Mask(x + Pow2(k), k) == Mask(x, k)
    decreases k
  {
    if k > 0 {
      assert (x + 2 * Pow2(k - 1)) / 2 == x / 2 + Pow2(k - 1);
      MaskPlus(x / 2, k - 1);
    }
  }

  lemma FlushInFront(tbl: nat, n: nat, be: seq<bool>, y: seq<Item>)
    requires n <= MAX_EOBRUN && Economical(y)
    requires n > 0 ==> y == [] || NotEobFirst(y) || n == MAX_EOBRUN || |be| > 937
    ensures Economical(Flush(tbl, n, be) + y)
    ensures n == 0 ==> Flush(tbl, n, be) + y == y
  {
    hide EobItems, Economical;
    BitsAreRaw(be);
    assert [] + y == y;
    if n > 0 {
      RunIsCounted(tbl, n, BitItems(be));
      var e := EobItems(tbl, n);
      EobShape(tbl, n);
      var raws := e[1..] + BitItems(be);
      assert [e[0]] + raws == e + BitItems(be);
      InFront(e[0], raws, y);
    }
  }

  lemma EobShape(tbl: nat, n: nat)
    requires n > 0
    ensures |EobItems(tbl, n)| >= 1 && EobItems(tbl, n)[0].Sym? && AllRaw(EobItems(tbl, n)[1..])
    ensures |EobItems(tbl, n)| <= 2
  {
  }

  /** ZRL symbols in front of the symbol of a coefficient, or of more of their kind. */
  lemma {:induction false} ZrlsInFront(tbl: nat, st: Run, y: seq<Item>)
    requires st.n <= MAX_EOBRUN && Economical(y) && NotEobFirst(y)
    ensures Economical(ZrlLoop(tbl, st).0 + y)
    ensures st.r <= 15 || st.n == 0 ==> NotEobFirst(ZrlLoop(tbl, st).0 + y)
    decreases st.r
  {
    hide Economical, Flush;
    if st.r <= 15 {
      assert [] + y == y;
    } else {
      var next := Run(0, [], st.r - 16, []);
      var f, z, bits, more := Flush(tbl, st.n, st.be), Sym(true, tbl, 0xF0), BitItems(st.br), ZrlLoop(tbl, next).0;
      ZrlsInFront(tbl, next, y);
      BitsAreRaw(st.br);
      InFront(z, bits, more + y);
      FlushInFront(tbl, st.n, st.be, [z] + bits + (more + y));
      assert f + [z] + bits + more + y == f + ([z] + bits + (more + y));
    }
  }

  lemma NewShape(c: Band, b: Block, k: nat, r: nat)
    requires BandOk(c) && c.ss <= k <= c.se && InRange(c, b) && IsNew(c, b, k)
    ensures var n := NewItems(c, b, k, r);
      |n| == 2 && n[0].Sym? && n[1].Raw? && !IsEob(n[0]) && !IsZrl(n[0])
  {
    hide Mag, NBits;
    var v := Signed(b[k] < 0, Mag(c, b, k));
    NBitsBounds(Abs(v));
  }

  /** Behind the symbols due at coefficient k, all is economical; in front of a new coefficient no run is ended at once. */
  lemma {:induction false} CoefsEconomical(c: Band, b: Block, k: nat, st: Run, bs: seq<Block>)
    requires BandOk(c) && c.ss <= k <= c.se + 1 && InRange(c, b) && AllInRange(c, bs) && st.n < MAX_EOBRUN
    ensures Economical(ItemsFrom(c, b, k, st, bs))
    ensures k <= LastNew(c, b, c.se + 1) && st.n == 0 ==> NotEobFirst(ItemsFrom(c, b, k, st, bs))
    decreases |bs|, 2, c.se + 1 - k
  {
    hide Economical, Flush, BitItems, NewItems, ZrlLoop, Mag, LastNew, InRange, ItemsFrom, SegItems, IsCorrection, NotEobFirst;
    var eob := LastNew(c, b, c.se + 1);
    if k > c.se {
      ItemsEnd(c, b, st, bs);
      EndEconomical(c, st, bs);
    } else if Mag(c, b, k) == 0 {
      ItemsZero(c, b, k, st, bs);
      NoneNewIfZero(c, b, k);
      CoefsEconomical(c, b, k + 1, st.(r := st.r + 1), bs);
    } else {
      var (zrls, st1) := ZrlsDue(c, b, k, st);
      ZrlLoopShort(c.tbl, st);
      ZrlLoopRun(c.tbl, st);
      if IsCorrection(c, b, k) {
        ItemsCorrection(c, b, k, st, bs);
        var next := st1.(br := st1.br + [Mag(c, b, k) % 2 == 1]);
        CoefsEconomical(c, b, k + 1, next, bs);
        var y := ItemsFrom(c, b, k + 1, next, bs);
        assert [] + y == y;
        if k <= eob {
          NoneNewIfCorrection(c, b, k);
          if st.r > 15 || st.n == 0 {
            ZrlsInFront(c.tbl, st, y);
          } else {
            NoZrls(c.tbl, st);
          }
        }
      } else {
        ItemsNew(c, b, k, st, bs);
        NewIsNotLate(c, b, k, c.se + 1);
        NewEconomical(c, b, k, st, bs);
      }
    }
  }

  lemma NoZrls(tbl: nat, st: Run)
    requires st.r <= 15
    ensures ZrlLoop(tbl, st) == ([], st)
  {
  }

  lemma {:induction false} ZrlLoopRun(tbl: nat, st: Run)
    ensures ZrlLoop(tbl, st).1.n <= st.n && (st.r > 15 ==> ZrlLoop(tbl, st).1.n == 0)
    decreases st.r
  {
    hide Flush, BitItems;
    if st.r > 15 {
      ZrlLoopRun(tbl, Run(0, [], st.r - 16, []));
    }
  }

  /** The symbol of a new coefficient, with what it forces out. */
  lemma NewEconomical(c: Band, b: Block, k: nat, st: Run, bs: seq<Block>)
    requires BandOk(c) && c.ss <= k <= c.se && InRange(c, b) && AllInRange(c, bs) && st.n < MAX_EOBRUN && IsNew(c, b, k)
    ensures var (zrls, st1) := ZrlLoop(c.tbl, st);
      var y := zrls + (Flush(c.tbl, st1.n, st1.be)
               + (NewItems(c, b, k, st1.r) + (BitItems(st1.br) + ItemsFrom(c, b, k + 1, Run(0, [], 0, []), bs))));
      Economical(y) && (st.n == 0 ==> NotEobFirst(y))
    decreases |bs|, 2, c.se + 1 - k, 0
  {
    hide Economical, Flush, BitItems, NewItems, ZrlLoop, Mag, LastNew, InRange, ItemsFrom, SegItems, IsNew;
    var (zrls, st1) := ZrlLoop(c.tbl, st);
    CoefsEconomical(c, b, k + 1, Run(0, [], 0, []), bs);
    var rest, n, bits := ItemsFrom(c, b, k + 1, Run(0, [], 0, []), bs), NewItems(c, b, k, st1.r), BitItems(st1.br);
    ZrlLoopRun(c.tbl, st);
    NewShape(c, b, k, st1.r);
    BitsAreRaw(st1.br);
    InFront(n[0], [n[1]] + bits, rest);
    var y := n + (bits + rest);
    assert [n[0]] + ([n[1]] + bits) + rest == y;
    FlushInFront(c.tbl, st1.n, st1.be, y);
    var f := Flush(c.tbl, st1.n, st1.be) + y;
    if st.r > 15 {
      ZrlsInFront(c.tbl, st, f);
    } else {
      NoZrls(c.tbl, st);
      assert [] + f == f;
    }
  }

  lemma NoneNewIfZero(c: Band, b: Block, k: nat)
    requires BandOk(c) && c.ss <= k <= c.se && Mag(c, b, k) == 0
    ensures k <= LastNew(c, b, c.se + 1) ==> k + 1 <= LastNew(c, b, c.se + 1)
  {
    hide Mag;
    LastIsNew(c, b, c.se + 1);
  }

  lemma NoneNewIfCorrection(c: Band, b: Block, k: nat)
    requires BandOk(c) && c.ss <= k <= c.se && IsCorrection(c, b, k)
    ensures k <= LastNew(c, b, c.se + 1) ==> k + 1 <= LastNew(c, b, c.se + 1)
  {
    hide Mag;
    LastIsNew(c, b, c.se + 1);
  }

  lemma {:induction false} LastIsNew(c: Band, b: Block, j: nat)
    requires BandOk(c) && c.ss <= j <= DCTSIZE2
    ensures LastNew(c, b, j) > 0 ==> IsNew(c, b, LastNew(c, b, j))
    decreases j
  {
    hide IsNew;
    if j > c.ss {
      LastIsNew(c, b, j - 1);
    }
  }

  /** The end of a block counts it, and ends a run only if that is full. */
  lemma EndEconomical(c: Band, st: Run, bs: seq<Block>)
    requires BandOk(c) && AllInRange(c, bs) && st.n < MAX_EOBRUN
    ensures var (items, p) := EndBlock(c, st); Economical(items + SegItems(c, bs, p))
    decreases |bs|, 1
  {
    hide Economical, Flush, SegItems, AllInRange;
    var (items, p) := EndBlock(c, st);
    SegEconomical(c, bs, p);
    var y := SegItems(c, bs, p);
    assert [] + y == y;
    if items != [] {
      FlushInFront(c.tbl, st.n + 1, st.be + st.br, y);
    }
  }

  lemma {:induction false} SegEconomical(c: Band, bs: seq<Block>, p: Pending)
    requires BandOk(c) && AllInRange(c, bs) && p.n < MAX_EOBRUN
    ensures Economical(SegItems(c, bs, p))
    decreases |bs|, 0
  {
    hide Economical, EncodeBlock, Flush, ItemsFrom, InRange;
    if bs == [] {
      NoItemsEconomical();
      FlushInFront(c.tbl, p.n, p.be, []);
      assert Flush(c.tbl, p.n, p.be) + [] == Flush(c.tbl, p.n, p.be);
    } else {
      SegItemsCons(c, bs, p);
      BlockItemsStart(c, bs[0], p);
      StartsHere(c, bs, p);
      CoefsEconomical(c, bs[0], c.ss, Run(p.n, p.be, 0, []), bs[1..]);
    }
  }

  lemma StartsHere(c: Band, bs: seq<Block>, p: Pending)
    requires BandOk(c) && bs != []
    ensures SegItems(c, bs, p) == ItemsFrom(c, bs[0], c.ss, Run(p.n, p.be, 0, []), bs[1..])
  {
    hide EncodeCoefs, LastNew;
  }

  lemma NoItemsEconomical()
    ensures Economical([])
  {
  }

  /**
   The items of a restart interval of an AC scan, first or refinement: an end-of-band run goes on over the blocks until it
   stands for 0x7FFF of them or the buffer of correction bits may overflow, or until a block has a coefficient to code; and a
   ZRL symbol is emitted only in front of one.
   */
  lemma RunsAreLongest(c: Band, bs: seq<Block>)
    requires BandOk(c) && AllInRange(c, bs)
    ensures RunsAreFull(SegItems(c, bs, Pending(0, []))) && ZrlsAreNeeded(SegItems(c, bs, Pending(0, [])))
  {
    hide SegItems, AllInRange, RunsAreFull, ZrlsAreNeeded;
    SegEconomical(c, bs, Pending(0, []));
  }

  // ----- Blocks with nothing in the band

  predicate ZeroBand(c: Band, b: Block)
    requires BandOk(c)
  {
    forall k :: c.ss <= k <= c.se ==> Mag(c, b, k) == 0
  }

  lemma {:induction false} ZeroCoefs(c: Band, b: Block, k: nat, eob: nat, st: Run)
    requires BandOk(c) && ZeroBand(c, b) && c.ss <= k <= c.se + 1
    ensures EncodeCoefs(c, b, k, eob, st) == EndBlock(c, st.(r := st.r + (c.se + 1 - k)))
    decreases c.se + 1 - k
  {
    hide Mag, EndBlock;
    if k <= c.se {
      ZeroCoefs(c, b, k + 1, eob, st.(r := st.r + 1));
    } else {
      assert st.(r := st.r + 0) == st;
    }
  }

  lemma {:induction false} ZeroBlocksPending(c: Band, bs: seq<Block>, n: nat)
    requires BandOk(c) && n + |bs| <= MAX_EOBRUN && (bs == [] ==> n < MAX_EOBRUN)
    requires forall i :: 0 <= i < |bs| ==> ZeroBand(c, bs[i])
    ensures SegItems(c, bs, Pending(n, [])) == Flush(c.tbl, n + |bs|, [])
    decreases |bs|
  {
    hide ZeroBand, Flush, EncodeBlock;
    if bs != [] {
      SegItemsCons(c, bs, Pending(n, []));
      BlockItemsStart(c, bs[0], Pending(n, []));
      ZeroCoefs(c, bs[0], c.ss, LastNew(c, bs[0], c.se + 1), Run(n, [], 0, []));
      if n + 1 == MAX_EOBRUN {
        assert bs[1..] == [];
        NothingToFlush(c.tbl);
      } else {
        ZeroBlocksPending(c, bs[1..], n + 1);
        assert [] + Flush(c.tbl, n + |bs|, []) == Flush(c.tbl, n + |bs|, []);
      }
    }
  }

  lemma NothingToFlush(tbl: nat)
    ensures Flush(tbl, 0, []) == []
    ensures Flush(tbl, MAX_EOBRUN, []) + [] == Flush(tbl, MAX_EOBRUN, [])
  {
  }

  /**
   Up to 0x7FFF blocks with nothing in the band are one symbol: EOBn, where n is one less than the number of bits of their
   number, and its n low bits.
   */
  lemma ZeroBlocksAreOneRun(c: Band, bs: seq<Block>)
    requires BandOk(c) && 0 < |bs| <= 0x7FFF && forall i :: 0 <= i < |bs| ==> ZeroBand(c, bs[i])
    ensures exists n ::
      && 0 <= n <= 14 && Pow2(n) <= |bs| < Pow2(n + 1)
      && SegItems(c, bs, Pending(0, [])) == [Sym(true, c.tbl, 16 * n)] + if n > 0 then [Raw(|bs|, n)] else []
  {
    hide ZeroBand, SegItems, Pow2;
    ZeroBlocksPending(c, bs, 0);
    RunLength(|bs|);
    NBitsBounds(|bs|);
    var n := NBits(|bs|) - 1;
    assert EobItems(c.tbl, |bs|) + BitItems([]) == EobItems(c.tbl, |bs|);
    assert 0 <= n <= 14 && Pow2(n) <= |bs| < Pow2(n + 1);
  }
}
