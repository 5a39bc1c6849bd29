/**
 The statistics pass of the sequential encoder (htest_one_block of jchuff.c), written independently of
 encode_one_block: it counts exactly the symbols that encode_one_block emits.
 */
module GatherPass {
  import opened Wrappers
  import opened Symbols
  import opened Emitters
  import opened Coefficients
  import opened NaturalOrder
  import opened SequentialCodec
  import opened BlockEncoders

  /** now has been increased from was by the number of times that the symbols of table tbl occur among the items. */
  ghost predicate CountedUp(was: seq<nat>, now: seq<nat>, items: seq<Item>, ac: bool, tbl: nat) {
    |was| == |now| == 257 && forall s :: 0 <= s < 256 ==> now[s] == was[s] + Count(items, Sym(ac, tbl, s))
  }

  lemma CountOne(it: Item, it': Item)
    ensures Count([it], it') == if it == it' then 1 else 0
  {
    assert [it][..0] == [];
  }

  lemma CountPair(it: Item, other: Item, it': Item)
    requires other != it'
    ensures Count([it, other], it') == if it == it' then 1 else 0
  {
    assert [it, other][..1] == [it];
    CountOne(it, it');
  }

  /** One more symbol, with its appended bits, which are not counted. */
  lemma CountUp(was: seq<nat>, now: seq<nat>, done: seq<Item>, ac: bool, tbl: nat, sym: nat, more: seq<Item>)
    requires CountedUp(was, now, done, ac, tbl) && sym < 256
    requires more == [Sym(ac, tbl, sym)] || exists v, n :: more == [Sym(ac, tbl, sym), Raw(v, n)]
    ensures CountedUp(was, now[sym := now[sym] + 1], done + more, ac, tbl)
  {
    forall s | 0 <= s < 256
      ensures now[sym := now[sym] + 1][s] == was[s] + Count(done + more, Sym(ac, tbl, s))
    {
      CountConcat(done, more, Sym(ac, tbl, s));
      CountOne(Sym(ac, tbl, sym), Sym(ac, tbl, s));
      if |more| == 2 {
        CountPair(Sym(ac, tbl, sym), more[1], Sym(ac, tbl, s));
      }
    }
  }

  /** Symbols of the other class leave the counts alone. */
  lemma CountOther(was: seq<nat>, now: seq<nat>, a: seq<Item>, b: seq<Item>, ac: bool, tbl: nat)
    requires CountedUp(was, now, a, ac, tbl)
    requires forall s :: 0 <= s < 256 ==> Sym(ac, tbl, s) !in b
    ensures CountedUp(was, now, a + b, ac, tbl) && CountedUp(was, now, b + a, ac, tbl)
  {
    forall s | 0 <= s < 256
      ensures Count(b, Sym(ac, tbl, s)) == 0
    {
      CountedIffPresent(b, Sym(ac, tbl, s));
    }
    forall s | 0 <= s < 256
      ensures Count(a + b, Sym(ac, tbl, s)) == Count(a, Sym(ac, tbl, s)) == Count(b + a, Sym(ac, tbl, s))
    {
      CountConcat(a, b, Sym(ac, tbl, s));
      CountConcat(b, a, Sym(ac, tbl, s));
    }
  }

  lemma {:induction false} ZrlsAreAc(r: nat, tbl: nat, it: Item)
    ensures it in Zrls(r, tbl) ==> it.Sym? && it.ac
    decreases r
  {
    if r > 15 {
      ZrlsAreAc(r - 16, tbl, it);
    }
  }

  lemma {:induction false} AcItemsAreAc(b: Block, k: nat, r: nat, tbl: nat, it: Item)
    requires k <= DCTSIZE2
    ensures it in AcItems(b, k, r, tbl) ==> it.Raw? || it.ac
    decreases DCTSIZE2 - k
  {
    hide NBits, Zrls;
    if k < DCTSIZE2 {
      if b[k] == 0 {
        AcItemsAreAc(b, k + 1, r + 1, tbl, it);
      } else {
        ZrlsAreAc(r, tbl, it);
        AcItemsAreAc(b, k + 1, 0, tbl, it);
      }
    }
  }

  /** No item has been counted yet. */
  lemma NothingCounted(was: seq<nat>, ac: bool, tbl: nat)
    requires |was| == 257
    ensures CountedUp(was, was, [], ac, tbl)
  {
  }

  /** The counts of a run of zeros longer than 15. */
  method CountZrls(counts: array<nat>, run: nat, ghost tbl: nat, ghost was: seq<nat>, ghost done: seq<Item>)
    returns (r: nat)
    requires counts.Length == 257 && CountedUp(was, counts[..], done, true, tbl)
    modifies counts
    ensures r == run % 16 && CountedUp(was, counts[..], done + Zrls(run, tbl), true, tbl)
  {
    hide CountedUp, Zrls;
    r := run;
    ghost var cur := done;
    while r > 15
      invariant r % 16 == run % 16 && CountedUp(was, counts[..], cur, true, tbl)
      invariant cur + Zrls(r, tbl) == done + Zrls(run, tbl)
    {
      CountUp(was, counts[..], cur, true, tbl, 0xF0, [Sym(true, tbl, 0xF0)]);
      ZrlsStep(cur, r, tbl);
      ghost var now := counts[..];
      counts[0xF0] := counts[0xF0] + 1;
      assert counts[..] == now[0xF0 := now[0xF0] + 1];
      cur := cur + [Sym(true, tbl, 0xF0)];
      r := r - 16;
    }
    ZrlsEnd(cur, r, tbl);
  }

  method HtestOneBlock(block: array<Coef>, lastDc: int, dcCounts: array<nat>, acCounts: array<nat>,
                       ghost dctbl: nat, ghost actbl: nat) returns (st: Status)
    requires block.Length == DCTSIZE2 && dcCounts.Length == 257 && acCounts.Length == 257 && dcCounts != acCounts
    modifies dcCounts, acCounts
    ensures var b := InZigzag(block[..]);
      && (st.Good? <==> DcInRange(b[0] - lastDc) && AcInRange(b))
      && (st.Bad? ==> st.error == BadDctCoef)
      && (st.Good? ==>
          && CountedUp(old(dcCounts[..]), dcCounts[..], BlockItems(b, lastDc, dctbl, actbl), false, dctbl)
          && CountedUp(old(acCounts[..]), acCounts[..], BlockItems(b, lastDc, dctbl, actbl), true, actbl))
  {
    hide CountedUp, Natural, NBits, AcItems, AcInRange;
    ghost var b := InZigzag(block[..]);
    FirstIsDc();
    var temp := block[0] - lastDc;
    ghost var dcItems, acItems := DcItems(temp, dctbl), AcItems(b, 1, 0, actbl);
    var nbits := CountBits(if temp < 0 then -temp else temp);
    NBitsFit(Abs(temp));
    if nbits > MAX_COEF_BITS + 1 {
      return Bad(BadDctCoef);
    }
    ghost var was := dcCounts[..];
    NothingCounted(was, false, dctbl);
    CountUp(was, was, [], false, dctbl, nbits, dcItems);
    assert [] + dcItems == dcItems;
    dcCounts[nbits] := dcCounts[nbits] + 1;
    assert dcCounts[..] == was[nbits := was[nbits] + 1];
    st := HtestAc(block, acCounts, actbl);
    if st.Good? {
      DcDoesNotCount(old(acCounts[..]), acCounts[..], temp, dctbl, acItems, actbl);
      AcDoesNotCount(was, dcCounts[..], dcItems, dctbl, b, actbl);
    }
  }

  lemma DcDoesNotCount(was: seq<nat>, now: seq<nat>, diff: int, dctbl: nat, acItems: seq<Item>, actbl: nat)
    requires CountedUp(was, now, acItems, true, actbl)
    ensures CountedUp(was, now, DcItems(diff, dctbl) + acItems, true, actbl)
  {
    hide CountedUp, NBits;
    CountOther(was, now, acItems, DcItems(diff, dctbl), true, actbl);
  }

  lemma AcDoesNotCount(was: seq<nat>, now: seq<nat>, dcItems: seq<Item>, dctbl: nat, b: Block, actbl: nat)
    requires CountedUp(was, now, dcItems, false, dctbl)
    ensures CountedUp(was, now, dcItems + AcItems(b, 1, 0, actbl), false, dctbl)
  {
    hide CountedUp, AcItems;
    forall s | 0 <= s < 256
      ensures Sym(false, dctbl, s) !in AcItems(b, 1, 0, actbl)
    {
      AcItemsAreAc(b, 1, 0, actbl, Sym(false, dctbl, s));
    }
    CountOther(was, now, dcItems, AcItems(b, 1, 0, actbl), false, dctbl);
  }

  /** What remains to be counted of the AC coefficients. */
  ghost predicate AcLeft(b: Block, k: nat, r: nat, tbl: nat, done: seq<Item>)
    requires 1 <= k <= DCTSIZE2
  {
    && done + AcItems(b, k, r, tbl) == AcItems(b, 1, 0, tbl)
    && forall j :: 1 <= j < k ==> NBits(Abs(b[j])) <= MAX_COEF_BITS
  }

  lemma AcLeftStep(b: Block, k: nat, r: nat, tbl: nat, done: seq<Item>)
    requires 1 <= k < DCTSIZE2 && AcLeft(b, k, r, tbl, done) && NBits(Abs(b[k])) <= MAX_COEF_BITS
    ensures b[k] == 0 ==> AcLeft(b, k + 1, r + 1, tbl, done)
    ensures b[k] != 0 ==> AcLeft(b, k + 1, 0, tbl, done + Zrls(r, tbl) + ValueItems(b[k], r % 16, tbl))
  {
    hide NBits, Zrls;
    if b[k] != 0 {
      assert RunItems(b[k], r, tbl) == Zrls(r, tbl) + ValueItems(b[k], r % 16, tbl);
      var z, v, more := Zrls(r, tbl), ValueItems(b[k], r % 16, tbl), AcItems(b, k + 1, 0, tbl);
      assert done + (z + v + more) == done + z + v + more;
    }
  }

  lemma AcLeftEnd(b: Block, r: nat, tbl: nat, done: seq<Item>)
    requires AcLeft(b, DCTSIZE2, r, tbl, done)
    ensures AcInRange(b) && AcItems(b, 1, 0, tbl) == done + (if r > 0 then [Sym(true, tbl, 0)] else [])
  {
  }

  method HtestAc(block: array<Coef>, counts: array<nat>, ghost tbl: nat) returns (st: Status)
    requires block.Length == DCTSIZE2 && counts.Length == 257
    modifies counts
    ensures var b := InZigzag(block[..]);
      && (st.Good? <==> AcInRange(b))
      && (st.Bad? ==> st.error == BadDctCoef)
      && (st.Good? ==> CountedUp(old(counts[..]), counts[..], AcItems(b, 1, 0, tbl), true, tbl))
  {
    hide CountedUp, Natural, NBits, AcItems, AcLeft, Zrls;
    ghost var b, was, done: seq<Item> := InZigzag(block[..]), counts[..], [];
    NothingCounted(was, true, tbl);
    AcLeftStart(b, tbl);
    var r: nat := 0;
    for k := 1 to DCTSIZE2
      invariant AcLeft(b, k, r, tbl, done) && CountedUp(was, counts[..], done, true, tbl)
    {
      var temp: int := block[Natural(k)];
      if temp == 0 {
        NBitsFit(0);
        AcLeftStep(b, k, r, tbl, done);
        r := r + 1;
      } else {
        ghost var r0 := r;
        r := CountZrls(counts, r, tbl, was, done);
        if temp < 0 {
          temp := -temp;
        }
        var nbits := CountBitsNonzero(temp);
        if nbits > MAX_COEF_BITS {
          return Bad(BadDctCoef);
        }
        AcLeftStep(b, k, r0, tbl, done);
        CountUp(was, counts[..], done + Zrls(r0, tbl), true, tbl, 16 * r + nbits, ValueItems(b[k], r, tbl));
        ghost var now := counts[..];
        counts[16 * r + nbits] := counts[16 * r + nbits] + 1;
        assert counts[..] == now[16 * r + nbits := now[16 * r + nbits] + 1];
        done := done + Zrls(r0, tbl) + ValueItems(b[k], r, tbl);
        r := 0;
      }
    }
    AcLeftEnd(b, r, tbl, done);
    if r > 0 {
      CountUp(was, counts[..], done, true, tbl, 0, [Sym(true, tbl, 0)]);
      ghost var now := counts[..];
      counts[0] := counts[0] + 1;
      assert counts[..] == now[0 := now[0] + 1];
    } else {
      assert done + [] == done;
    }
    st := Good;
  }

  lemma AcLeftStart(b: Block, tbl: nat)
    ensures AcLeft(b, 1, 0, tbl, [])
  {
    hide AcItems;
    assert [] + AcItems(b, 1, 0, tbl) == AcItems(b, 1, 0, tbl);
  }
}
