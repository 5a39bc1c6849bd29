/**
 Sequential coding of one block as functions: what encode_one_block (jchuff.c) emits and what decode_mcu (jdhuff.c)
 makes of the bits it reads.  Blocks are in zigzag order here; the methods translate through jpeg_natural_order.
 */
module Feeding {
  import opened Bits
  import opened Wrappers
  import opened HuffmanTables
  import opened BitSource
  import opened Symbols

  /** The decoder's table i was built from the JHUFF_TBL that gave the encoder's table i. */
  ghost predicate Linked(h: HuffTbl, c: CDerivedTbl) {
    ValidCounts(h.bits) && IsCDerived(h, c)
  }

  type DTables = t: seq<HuffTbl> | |t| == 8
    witness seq(8, _ => HuffTbl(seq(17, _ => 0), seq(256, _ => 0)))

  ghost predicate AllLinked(hs: DTables, t: CTables) {
    forall i :: 0 <= i < 8 ==> Linked(hs[i], t[i])
  }

  /** s has the given items ahead of it, and behind them what `end` says. */
  ghost predicate Feeds(s: Source, t: CTables, items: seq<Item>, end: Ahead) {
    Lookahead(s) == Some(end.(bits := ItemsBits(t, items) + end.bits))
  }

  lemma CodesSplit(t: CTables, a: seq<Item>, b: seq<Item>)
    requires AllHaveCodes(t, a + b)
    ensures AllHaveCodes(t, a) && AllHaveCodes(t, b)
  {
    forall i | 0 <= i < |a| ensures HasCode(t, a[i]) { assert a[i] == (a + b)[i]; }
    forall i | 0 <= i < |b| ensures HasCode(t, b[i]) { assert b[i] == (a + b)[|a| + i]; }
  }

  lemma CodeIsCodeWord(h: HuffTbl, c: CDerivedTbl, sym: nat) returns (p: nat)
    requires Linked(h, c) && sym < 256 && c.ehufsi[sym] > 0
    ensures p < Size(h.bits) && h.huffval[p] == sym
    ensures ToBits(c.ehufco[sym], c.ehufsi[sym]) == CodeWord(h.bits, p)
  {
    assert sym in h.huffval[..Size(h.bits)];
    p :| 0 <= p < Size(h.bits) && h.huffval[p] == sym;
  }

  lemma ReadSym(hs: DTables, t: CTables, s: Source, it: Item, rest: seq<Item>, end: Ahead)
    requires AllLinked(hs, t) && it.Sym? && HasCode(t, it) && Feeds(s, t, [it] + rest, end)
    ensures HuffDecode(hs[TableIndex(it.ac, it.tbl)], s).Some?
    ensures var (sym, u) := HuffDecode(hs[TableIndex(it.ac, it.tbl)], s).value;
      sym == it.sym && Feeds(u, t, rest, end) && Quiet(s, u)
  {
    hide HuffDecode, Lookahead, ItemsBits;
    var i := TableIndex(it.ac, it.tbl);
    var p := CodeIsCodeWord(hs[i], t[i], it.sym);
    ItemsBitsCons(t, it, rest);
    var w := ItemsBits(t, rest) + end.bits;
    assert ItemsBits(t, [it] + rest) + end.bits == CodeWord(hs[i].bits, p) + w;
    DecodeInvertsEncode(hs[i], p, s, w);
  }

  lemma ReadRaw(t: CTables, s: Source, it: Item, rest: seq<Item>, end: Ahead)
    requires it.Raw? && WellFormed(it) && Feeds(s, t, [it] + rest, end)
    ensures GetBits(s, it.size).Some?
    ensures var (v, u) := GetBits(s, it.size).value;
      v == Mask(it.val, it.size) && Feeds(u, t, rest, end) && Quiet(s, u)
  {
    hide GetBits, Lookahead, ItemsBits;
    ItemsBitsCons(t, it, rest);
    var b := ToBits(it.val, it.size);
    var w := ItemsBits(t, rest) + end.bits;
    assert ItemsBits(t, [it] + rest) + end.bits == b + w;
    assert (b + w)[..it.size] == b && (b + w)[it.size..] == w;
    GetBitsExact(s, it.size);
    FromToBits(it.val, it.size);
  }
}

module Coefficients {
  import opened Bits
  import opened Symbols

  const DCTSIZE2 := 64
  const MAX_COMPONENTS := 10
  const MAX_COMPS_IN_SCAN := 4
  const MAX_COEF_BITS := 10

  /** JCOEF, a 16-bit integer. */
  type Coef = x: int | -32768 <= x < 32768

  /** The conversion to JCOEF. */
  function ToCoef(v: int): (x: Coef)
    ensures -32768 <= v < 32768 ==> x == v
  {
    (v + 32768) % 65536 - 32768
  }

  /** The coefficients of a block in zigzag order. */
  type Block = b: seq<Coef> | |b| == DCTSIZE2 witness seq(DCTSIZE2, _ => 0)

  function Abs(v: int): nat {
    if v < 0 then -v else v
  }

  /** The number of bits of a magnitude. */
  function NBits(v: nat): nat {
    if v == 0 then 0 else 1 + NBits(v / 2)
  }

  /** The appended bits are the low bits of v, or of v - 1 if v is negative. */
  function Appended(v: int): int {
    if v < 0 then v - 1 else v
  }

  /** HUFF_EXTEND (Figure F.12) */
  function HuffExtend(x: int, s: nat): int
    requires s >= 1
  {
    if x < Pow2(s - 1) then x - Pow2(s) + 1 else x
  }

  lemma {:induction false} NBitsBounds(v: nat)
    ensures v < Pow2(NBits(v))
    ensures v > 0 ==> NBits(v) >= 1 && Pow2(NBits(v) - 1) <= v
  {
    if v > 0 {
      NBitsBounds(v / 2);
    }
  }

  /** The category and the appended bits determine the value. */
  lemma ExtendInvertsAppended(v: int)
    requires v != 0
    ensures HuffExtend(Mask(Appended(v), NBits(Abs(v))), NBits(Abs(v))) == v
  {
    var n := NBits(Abs(v));
    NBitsBounds(Abs(v));
    if v > 0 {
      MaskSmall(v, n);
    } else {
      MaskNegative(v - 1, n);
    }
  }

  lemma {:induction false} NBitsMonotone(v: nat, w: nat)
    requires v <= w
    ensures NBits(v) <= NBits(w)
    decreases v
  {
    if v > 0 {
      NBitsMonotone(v / 2, w / 2);
    }
  }

  /** The jpeg_natural_order table sends k >= 64 to the last coefficient. */
  function Put(b: Block, k: nat, v: int): Block {
    b[(if k < DCTSIZE2 then k else DCTSIZE2 - 1) := ToCoef(v)]
  }
}

module SequentialCodec {
  import opened Bits
  import opened Wrappers
  import opened HuffmanTables
  import opened BitSource
  import opened Symbols
  import opened Feeding
  import opened Coefficients

  // ----- Encoder

  predicate DcInRange(diff: int) {
    NBits(Abs(diff)) <= MAX_COEF_BITS + 1
  }

  predicate AcInRange(b: Block) {
    forall k :: 1 <= k < DCTSIZE2 ==> NBits(Abs(b[k])) <= MAX_COEF_BITS
  }

  function DcItems(diff: int, tbl: nat): seq<Item> {
    var n := NBits(Abs(diff));
    [Sym(false, tbl, n)] + (if n == 0 then [] else [Raw(Appended(diff), n)])
  }

  /** One 0xF0 symbol for every 16 zeros of a run, as long as more than 15 are left. */
  function Zrls(r: nat, tbl: nat): seq<Item> {
    if r <= 15 then [] else [Sym(true, tbl, 0xF0)] + Zrls(r - 16, tbl)
  }

  /** The items of a nonzero coefficient v behind a run of r zeros. */
  function RunItems(v: int, r: nat, tbl: nat): seq<Item> {
    Zrls(r, tbl) + [Sym(true, tbl, 16 * (r % 16) + NBits(Abs(v))), Raw(Appended(v), NBits(Abs(v)))]
  }

  /** Coefficients k.. of the block, behind r zeros. */
  function AcItems(b: Block, k: nat, r: nat, tbl: nat): seq<Item>
    requires k <= DCTSIZE2
    decreases DCTSIZE2 - k
  {
    if k == DCTSIZE2 then if r > 0 then [Sym(true, tbl, 0)] else []
    else if b[k] == 0 then AcItems(b, k + 1, r + 1, tbl)
    else RunItems(b[k], r, tbl) + AcItems(b, k + 1, 0, tbl)
  }

  function BlockItems(b: Block, lastDc: int, dctbl: nat, actbl: nat): seq<Item> {
    DcItems(b[0] - lastDc, dctbl) + AcItems(b, 1, 0, actbl)
  }

  // ----- Decoder

  datatype BlockResult = Done(src: Source, lastDc: int, block: Block) | Suspended(block: Block)

  /** The difference of a DC coefficient; symbols of an accepted DC table are below 16. */
  function DcDiff(h: HuffTbl, s: Source): Option<(int, Source)> {
    match HuffDecode(h, s)
    case None => None
    case Some((n, t)) =>
      if n == 0 || n >= 16 then Some((0, t))
      else
        match GetBits(t, n)
        case None => None
        case Some((x, u)) => Some((HuffExtend(x, n), u))
  }

  /** Coefficients k.. of a block; when they are not needed the bits are read all the same. */
  function DecodeAc(h: HuffTbl, s: Source, k: nat, needed: bool, lastDc: int, b: Block): BlockResult
    decreases DCTSIZE2 - k
  {
    if k >= DCTSIZE2 then Done(s, lastDc, b)
    else
      match HuffDecode(h, s)
      case None => Suspended(b)
      case Some((sym, t)) =>
        var r, n := sym / 16, sym % 16;
        if n != 0 then
          match GetBits(t, n)
          case None => Suspended(b)
          case Some((x, u)) =>
            DecodeAc(h, u, k + r + 1, needed, lastDc, if needed then Put(b, k + r, HuffExtend(x, n)) else b)
        else if r != 15 then Done(t, lastDc, b)
        else DecodeAc(h, t, k + 16, needed, lastDc, b)
  }

  function DecodeBlock(dc: HuffTbl, ac: HuffTbl, s: Source, dcNeeded: bool, acNeeded: bool, lastDc: int, b: Block): BlockResult
  {
    match DcDiff(dc, s)
    case None => Suspended(b)
    case Some((diff, t)) =>
      if dcNeeded then DecodeAc(ac, t, 1, acNeeded, lastDc + diff, Put(b, 0, lastDc + diff))
      else DecodeAc(ac, t, 1, acNeeded, lastDc, b)
  }

  // ----- Round trip

  lemma DcRoundTrip(hs: DTables, t: CTables, s: Source, diff: int, tbl: nat, rest: seq<Item>, end: Ahead)
    requires AllLinked(hs, t) && tbl < NUM_HUFF_TBLS && DcInRange(diff)
    requires AllHaveCodes(t, DcItems(diff, tbl)) && Feeds(s, t, DcItems(diff, tbl) + rest, end)
    ensures DcDiff(hs[tbl], s).Some?
    ensures var (d, u) := DcDiff(hs[tbl], s).value;
      d == diff && Feeds(u, t, rest, end) && Quiet(s, u)
  {
    var items := DcItems(diff, tbl);
    var n := NBits(Abs(diff));
    assert HasCode(t, items[0]);
    assert items + rest == [items[0]] + (items[1..] + rest);
    ReadSym(hs, t, s, items[0], items[1..] + rest, end);
    var u := HuffDecode(hs[tbl], s).value.1;
    if n == 0 {
      assert items[1..] + rest == rest;
    } else {
      assert HasCode(t, items[1]);
      assert items[1..] + rest == [items[1]] + rest;
      ReadRaw(t, u, items[1], rest, end);
      ExtendInvertsAppended(diff);
    }
  }

  /** The decoded block has the first k coefficients of b and zeros behind them. */
  function Prefix(b: Block, k: nat): Block
    requires k <= DCTSIZE2
  {
    seq(DCTSIZE2, i requires 0 <= i < DCTSIZE2 => if i < k then b[i] else 0)
  }

  lemma ZrlStep(h: HuffTbl, s: Source, k: nat, dc: int, cur: Block)
    requires HuffDecode(h, s).Some? && HuffDecode(h, s).value.0 == 0xF0 && k < DCTSIZE2
    ensures DecodeAc(h, s, k, true, dc, cur) == DecodeAc(h, HuffDecode(h, s).value.1, k + 16, true, dc, cur)
  {
    hide HuffDecode, GetBits;
  }

  lemma RunStep(h: HuffTbl, s: Source, k: nat, r: nat, n: nat, dc: int, cur: Block)
    requires HuffDecode(h, s).Some? && HuffDecode(h, s).value.0 == 16 * r + n && 1 <= n <= 15 && r <= 15 && k < DCTSIZE2
    requires GetBits(HuffDecode(h, s).value.1, n).Some?
    ensures var (x, u) := GetBits(HuffDecode(h, s).value.1, n).value;
      DecodeAc(h, s, k, true, dc, cur) == DecodeAc(h, u, k + r + 1, true, dc, Put(cur, k + r, HuffExtend(x, n)))
  {
    hide HuffDecode, GetBits, ItemsBits;
    assert (16 * r + n) / 16 == r && (16 * r + n) % 16 == n;
  }

  /** ZRL symbols move the decoder by 16 positions each. */
  lemma {:induction false} ZrlRoundTrip(hs: DTables, t: CTables, s: Source, k: nat, r: nat, tbl: nat, rest: seq<Item>,
                                        end: Ahead, dc: int, cur: Block) returns (u: Source)
    requires AllLinked(hs, t) && tbl < NUM_HUFF_TBLS && k + r < DCTSIZE2
    requires AllHaveCodes(t, Zrls(r, tbl)) && Feeds(s, t, Zrls(r, tbl) + rest, end)
    ensures Feeds(u, t, rest, end) && Quiet(s, u)
    ensures DecodeAc(hs[4 + tbl], s, k, true, dc, cur) == DecodeAc(hs[4 + tbl], u, k + (r - r % 16), true, dc, cur)
    decreases r
  {
    hide HuffDecode, GetBits, ItemsBits, DecodeAc, Feeds, AllLinked;
    if r <= 15 {
      assert Zrls(r, tbl) + rest == rest;
      u := s;
    } else {
      var zrl, more := Sym(true, tbl, 0xF0), Zrls(r - 16, tbl);
      CodesSplit(t, [zrl], more);
      assert HasCode(t, [zrl][0]);
      assert Zrls(r, tbl) + rest == [zrl] + (more + rest);
      ReadSym(hs, t, s, zrl, more + rest, end);
      ZrlStep(hs[4 + tbl], s, k, dc, cur);
      u := ZrlRoundTrip(hs, t, HuffDecode(hs[4 + tbl], s).value.1, k + 16, r - 16, tbl, rest, end, dc, cur);
      assert (r - 16) % 16 == r % 16;
    }
  }

  lemma RunRoundTrip(hs: DTables, t: CTables, s: Source, k: nat, r: nat, v: int, tbl: nat, rest: seq<Item>,
                     end: Ahead, dc: int, cur: Block) returns (u: Source)
    requires AllLinked(hs, t) && tbl < NUM_HUFF_TBLS && k + r < DCTSIZE2
    requires v != 0 && NBits(Abs(v)) <= MAX_COEF_BITS
    requires AllHaveCodes(t, RunItems(v, r, tbl)) && Feeds(s, t, RunItems(v, r, tbl) + rest, end)
    ensures Feeds(u, t, rest, end) && Quiet(s, u)
    ensures DecodeAc(hs[4 + tbl], s, k, true, dc, cur) == DecodeAc(hs[4 + tbl], u, k + r + 1, true, dc, Put(cur, k + r, v))
  {
    hide HuffDecode, GetBits, ItemsBits, DecodeAc, Feeds, AllLinked, HuffExtend, Mask, Pow2;
    var h, n, z := hs[4 + tbl], NBits(Abs(v)), Zrls(r, tbl);
    NBitsBounds(Abs(v));
    var sym, raw := Sym(true, tbl, 16 * (r % 16) + n), Raw(Appended(v), n);
    CodesSplit(t, z, [sym, raw]);
    assert HasCode(t, [sym, raw][0]) && HasCode(t, [sym, raw][1]);
    assert RunItems(v, r, tbl) + rest == z + ([sym] + ([raw] + rest));
    var w := ZrlRoundTrip(hs, t, s, k, r, tbl, [sym] + ([raw] + rest), end, dc, cur);
    ReadSym(hs, t, w, sym, [raw] + rest, end);
    var x := HuffDecode(h, w).value.1;
    ReadRaw(t, x, raw, rest, end);
    u := GetBits(x, n).value.1;
    ExtendInvertsAppended(v);
    RunStep(h, w, k + (r - r % 16), r % 16, n, dc, cur);
  }

  lemma EndOfBlock(hs: DTables, t: CTables, s: Source, b: Block, r: nat, tbl: nat, rest: seq<Item>, end: Ahead, dc: int)
    returns (u: Source)
    requires AllLinked(hs, t) && tbl < NUM_HUFF_TBLS
    requires r < DCTSIZE2 && forall i :: DCTSIZE2 - r <= i < DCTSIZE2 ==> b[i] == 0
    requires AllHaveCodes(t, AcItems(b, DCTSIZE2, r, tbl)) && Feeds(s, t, AcItems(b, DCTSIZE2, r, tbl) + rest, end)
    ensures DecodeAc(hs[4 + tbl], s, DCTSIZE2 - r, true, dc, Prefix(b, DCTSIZE2 - r)) == Done(u, dc, b)
    ensures Feeds(u, t, rest, end) && Quiet(s, u)
  {
    hide HuffDecode, GetBits, ItemsBits, Feeds, AllLinked;
    assert Prefix(b, DCTSIZE2 - r) == b;
    if r > 0 {
      var eob := Sym(true, tbl, 0);
      assert HasCode(t, [eob][0]);
      ReadSym(hs, t, s, eob, rest, end);
      u := HuffDecode(hs[4 + tbl], s).value.1;
    } else {
      assert [] + rest == rest;
      u := s;
    }
  }

  lemma {:induction false} AcRoundTrip(hs: DTables, t: CTables, s: Source, b: Block, k: nat, r: nat, tbl: nat,
                                       rest: seq<Item>, end: Ahead, dc: int) returns (u: Source)
    requires AllLinked(hs, t) && tbl < NUM_HUFF_TBLS && AcInRange(b)
    requires 1 <= k <= DCTSIZE2 && r < k && forall i :: k - r <= i < k ==> b[i] == 0
    requires AllHaveCodes(t, AcItems(b, k, r, tbl)) && Feeds(s, t, AcItems(b, k, r, tbl) + rest, end)
    ensures DecodeAc(hs[4 + tbl], s, k - r, true, dc, Prefix(b, k - r)) == Done(u, dc, b)
    ensures Feeds(u, t, rest, end) && Quiet(s, u)
    decreases DCTSIZE2 - k
  {
    hide HuffDecode, GetBits, ItemsBits, DecodeAc, Feeds, AllLinked;
    if k == DCTSIZE2 {
      u := EndOfBlock(hs, t, s, b, r, tbl, rest, end, dc);
    } else if b[k] == 0 {
      u := AcRoundTrip(hs, t, s, b, k + 1, r + 1, tbl, rest, end, dc);
    } else {
      var run, more := RunItems(b[k], r, tbl), AcItems(b, k + 1, 0, tbl);
      CodesSplit(t, run, more);
      assert AcItems(b, k, r, tbl) + rest == run + (more + rest);
      u := RunRoundTrip(hs, t, s, k - r, r, b[k], tbl, more + rest, end, dc, Prefix(b, k - r));
      assert Put(Prefix(b, k - r), k, b[k]) == Prefix(b, k + 1);
      u := AcRoundTrip(hs, t, u, b, k + 1, 0, tbl, rest, end, dc);
    }
  }

  /** One block: what encode_one_block emits is decoded to the same coefficients, and every bit of it is consumed. */
  lemma BlockRoundTrip(hs: DTables, t: CTables, s: Source, b: Block, lastDc: int, dctbl: nat, actbl: nat,
                       rest: seq<Item>, end: Ahead, zero: Block) returns (u: Source)
    requires AllLinked(hs, t) && dctbl < NUM_HUFF_TBLS && actbl < NUM_HUFF_TBLS
    requires AcInRange(b) && DcInRange(b[0] - lastDc) && zero == seq(DCTSIZE2, _ => 0)
    requires AllHaveCodes(t, BlockItems(b, lastDc, dctbl, actbl))
    requires Feeds(s, t, BlockItems(b, lastDc, dctbl, actbl) + rest, end)
    ensures DecodeBlock(hs[dctbl], hs[4 + actbl], s, true, true, lastDc, zero) == Done(u, b[0], b)
    ensures Feeds(u, t, rest, end) && Quiet(s, u)
  {
    hide HuffDecode, GetBits, ItemsBits, DecodeAc, DcDiff, Feeds, AllLinked, AcItems, DcItems;
    var d, a := DcItems(b[0] - lastDc, dctbl), AcItems(b, 1, 0, actbl);
    CodesSplit(t, d, a);
    assert BlockItems(b, lastDc, dctbl, actbl) + rest == d + (a + rest);
    DcRoundTrip(hs, t, s, b[0] - lastDc, dctbl, a + rest, end);
    u := DcDiff(hs[dctbl], s).value.1;
    assert Put(zero, 0, b[0]) == Prefix(b, 1);
    u := AcRoundTrip(hs, t, u, b, 1, 0, actbl, rest, end, b[0]);
  }
}
