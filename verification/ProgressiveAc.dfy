/**
 Progressive coding of one AC band, first and refinement scans (encode_mcu_AC_first, encode_mcu_AC_refine and
 emit_eobrun of jcphuff.c; decode_mcu_AC_first and decode_mcu_AC_refine of jdphuff.c), as functions on blocks in
 zigzag order.
 */
module AcBand {
  import opened Bits
  import opened Wrappers
  import opened HuffmanTables
  import opened BitSource
  import opened Symbols
  import opened Coefficients
  import opened SequentialCodec

  const MAX_CORR_BITS := 1000
  const MAX_EOBRUN := 0x7FFF

  /** The parameters of an AC scan: coefficients ss..se, bit position al, Huffman table, first or refinement scan. */
  datatype Band = Band(ss: nat, se: nat, al: nat, tbl: nat, refine: bool)

  predicate BandOk(c: Band) {
    1 <= c.ss <= c.se < DCTSIZE2 && c.al <= 13 && c.tbl < NUM_HUFF_TBLS
  }

  // ----- Point transform

  /** The magnitude of coefficient k after the point transform. */
  function Mag(c: Band, b: Block, k: nat): nat
    requires k < DCTSIZE2
  {
    ShrNonneg(Abs(b[k]), c.al);
    Shr(Abs(b[k]), c.al)
  }

  lemma {:induction false} ShrNonneg(x: nat, k: nat)
    ensures Shr(x, k) >= 0
    decreases k
  {
    if k > 0 {
      ShrNonneg(x / 2, k - 1);
    }
  }

  function Signed(neg: bool, v: nat): int {
    if neg then 0 - v else v
  }

  /** A coefficient with its bits below al cut off, rounding towards zero. */
  function TruncAc(v: Coef, al: nat): Coef {
    ShrNonneg(Abs(v), al);
    ShrBounds(Abs(v), al);
    Signed(v < 0, Shl(Shr(Abs(v), al), al))
  }

  /** A refinement scan sends one more bit of what an earlier scan has already made nonzero. */
  predicate IsCorrection(c: Band, b: Block, k: nat)
    requires k < DCTSIZE2
  {
    c.refine && Mag(c, b, k) > 1
  }

  predicate IsNew(c: Band, b: Block, k: nat)
    requires k < DCTSIZE2
  {
    Mag(c, b, k) > 0 && !IsCorrection(c, b, k)
  }

  // ----- Encoder

  function BitItem(b: bool): Item {
    Raw(if b then 1 else 0, 1)
  }

  function BitItems(bs: seq<bool>): seq<Item> {
    if bs == [] then [] else [BitItem(bs[0])] + BitItems(bs[1..])
  }

  /** The symbol of an end-of-band run of n blocks and its appended bits. */
  function EobItems(tbl: nat, n: nat): seq<Item>
    requires n > 0
  {
    var nb := NBits(n) - 1;
    [Sym(true, tbl, 16 * nb)] + (if nb > 0 then [Raw(n, nb)] else [])
  }

  /** emit_eobrun: a pending run and the correction bits of its blocks. */
  function Flush(tbl: nat, n: nat, be: seq<bool>): seq<Item> {
    if n == 0 then [] else EobItems(tbl, n) + BitItems(be)
  }

  /** The encoder within a block: n blocks and the bits be are pending; r zeros and the bits br since the last symbol. */
  datatype Run = Run(n: nat, be: seq<bool>, r: nat, br: seq<bool>)

  /** ZRL symbols, as long as more than 15 zeros are outstanding. */
  function ZrlLoop(tbl: nat, st: Run): (seq<Item>, Run)
    decreases st.r
  {
    if st.r <= 15 then ([], st)
    else
      var (items, st') := ZrlLoop(tbl, Run(0, [], st.r - 16, []));
      (Flush(tbl, st.n, st.be) + [Sym(true, tbl, 0xF0)] + BitItems(st.br) + items, st')
  }

  /** The symbol of a newly nonzero coefficient behind r zeros, and its appended bits. */
  function NewItems(c: Band, b: Block, k: nat, r: nat): seq<Item>
    requires k < DCTSIZE2
  {
    var v := Signed(b[k] < 0, Mag(c, b, k));
    if c.refine then [Sym(true, c.tbl, 16 * r + 1), BitItem(b[k] >= 0)]
    else [Sym(true, c.tbl, 16 * r + NBits(Abs(v))), Raw(Appended(v), NBits(Abs(v)))]
  }

  /** Index of the last newly nonzero coefficient among those below k, 0 if there is none. */
  function LastNew(c: Band, b: Block, k: nat): (e: nat)
    requires c.ss <= k <= DCTSIZE2
    ensures e == 0 || c.ss <= e < k
  {
    if k == c.ss then 0 else if IsNew(c, b, k - 1) then k - 1 else LastNew(c, b, k - 1)
  }

  lemma {:induction false} NewIsNotLate(c: Band, b: Block, k: nat, j: nat)
    requires c.ss <= k < j <= DCTSIZE2 && IsNew(c, b, k)
    ensures k <= LastNew(c, b, j)
    decreases j
  {
    hide IsNew;
    if k < j - 1 {
      NewIsNotLate(c, b, k, j - 1);
    }
  }

  /** The ZRL symbols in front of coefficient k: none behind the last newly nonzero one. */
  function ZrlsDue(c: Band, b: Block, k: nat, st: Run): (seq<Item>, Run)
    requires BandOk(c)
  {
    if k <= LastNew(c, b, c.se + 1) then ZrlLoop(c.tbl, st) else ([], st)
  }

  datatype Pending = Pending(n: nat, be: seq<bool>)

  /** The end of a block: an end of band is counted, and forced out when a counter or the bit buffer is about to overflow. */
  function EndBlock(c: Band, st: Run): (seq<Item>, Pending) {
    if st.r > 0 || st.br != [] then
      var n, be := st.n + 1, st.be + st.br;
      if n == MAX_EOBRUN || |be| > MAX_CORR_BITS - DCTSIZE2 + 1 then (Flush(c.tbl, n, be), Pending(0, []))
      else ([], Pending(n, be))
    else ([], Pending(st.n, st.be))
  }

  function EncodeCoefs(c: Band, b: Block, k: nat, eob: nat, st: Run): (seq<Item>, Pending)
    requires c.se < DCTSIZE2
    decreases DCTSIZE2 - k
  {
    if k > c.se then EndBlock(c, st)
    else if Mag(c, b, k) == 0 then EncodeCoefs(c, b, k + 1, eob, st.(r := st.r + 1))
    else
      var (zrls, st1) := if k <= eob then ZrlLoop(c.tbl, st) else ([], st);
      if IsCorrection(c, b, k) then
        var (items, p) := EncodeCoefs(c, b, k + 1, eob, st1.(br := st1.br + [Mag(c, b, k) % 2 == 1]));
        (zrls + items, p)
      else
        var (items, p) := EncodeCoefs(c, b, k + 1, eob, Run(0, [], 0, []));
        (zrls + Flush(c.tbl, st1.n, st1.be) + NewItems(c, b, k, st1.r) + BitItems(st1.br) + items, p)
  }

  function EncodeBlock(c: Band, b: Block, p: Pending): (seq<Item>, Pending)
    requires BandOk(c)
  {
    EncodeCoefs(c, b, c.ss, LastNew(c, b, c.se + 1), Run(p.n, p.be, 0, []))
  }

  /** No coefficient that a symbol is emitted for needs more than 10 bits (always so in a refinement scan). */
  predicate InRange(c: Band, b: Block)
    requires BandOk(c)
  {
    c.refine || forall k :: c.ss <= k <= c.se ==> NBits(Mag(c, b, k)) <= MAX_COEF_BITS
  }

  // ----- Decoder

  datatype BandResult = BandDone(src: Source, eobrun: nat, block: Block) | BandSuspended(block: Block)

  /** The value 2^r + appended bits of an EOBr symbol. */
  function EobRun(s: Source, r: nat): (e: Option<(nat, Source)>)
    requires r <= 14
    ensures e.Some? ==> e.value.0 > 0
  {
    if r == 0 then Some((1, s))
    else
      match GetBits(s, r)
      case None => None
      case Some((x, u)) => Some((Pow2(r) + x, u))
  }

  /** First scan: from position k, outside an end-of-band run. */
  function FirstBand(c: Band, h: HuffTbl, s: Source, k: nat, b: Block): BandResult
    requires c.se < DCTSIZE2
    decreases DCTSIZE2 - k
  {
    if k > c.se then BandDone(s, 0, b)
    else
      match HuffDecode(h, s)
      case None => BandSuspended(b)
      case Some((sym, t)) =>
        var r, n := sym / 16, sym % 16;
        if n != 0 then
          match GetBits(t, n)
          case None => BandSuspended(b)
          case Some((x, u)) => FirstBand(c, h, u, k + r + 1, Put(b, k + r, Shl(HuffExtend(x, n), c.al)))
        else if r == 15 then FirstBand(c, h, t, k + 16, b)
        else
          match EobRun(t, r)
          case None => BandSuspended(b)
          case Some((run, u)) => BandDone(u, run - 1, b)
  }

  /** (coef & p1) != 0 */
  predicate BitSet(v: int, al: nat) {
    Shr(v, al) % 2 == 1
  }

  /** A correction bit: a one moves the coefficient away from zero, unless an earlier attempt has already done so. */
  function Corrected(v: Coef, al: nat, bit: int): Coef {
    if bit == 0 || BitSet(v, al) then v
    else if v >= 0 then ToCoef(v + Pow2(al))
    else ToCoef(v - Pow2(al))
  }

  /** Rollback: the coefficients that this attempt made nonzero become zero again. */
  function Undo(b: Block, newnz: seq<nat>): Block
    decreases |newnz|
  {
    if newnz == [] then b else Undo(Put(b, newnz[|newnz| - 1], 0), newnz[..|newnz| - 1])
  }

  /** Refinement scan: correction bits for the rest of the band, behind its last symbol. */
  function RefineRest(c: Band, s: Source, k: nat, run: nat, b: Block, newnz: seq<nat>): BandResult
    requires c.se < DCTSIZE2 && run > 0
    decreases DCTSIZE2 - k
  {
    if k > c.se then BandDone(s, run - 1, b)
    else if b[k] == 0 then RefineRest(c, s, k + 1, run, b, newnz)
    else
      match GetBits(s, 1)
      case None => BandSuspended(Undo(b, newnz))
      case Some((x, u)) => RefineRest(c, u, k + 1, run, b[k := Corrected(b[k], c.al, x)], newnz)
  }

  datatype Advance = Stop(src: Source, k: nat, block: Block) | Stuck(block: Block)

  /** Refinement scan: past already-nonzero coefficients, with their correction bits, and r zero ones. */
  function AdvanceOver(c: Band, s: Source, k: nat, r: nat, b: Block): (a: Advance)
    requires k <= c.se < DCTSIZE2
    ensures a.Stop? ==> k <= a.k <= c.se + 1
    decreases DCTSIZE2 - k
  {
    if b[k] != 0 then
      match GetBits(s, 1)
      case None => Stuck(b)
      case Some((x, u)) =>
        var b' := b[k := Corrected(b[k], c.al, x)];
        if k == c.se then Stop(u, k + 1, b') else AdvanceOver(c, u, k + 1, r, b')
    else if r == 0 then Stop(s, k, b)
    else if k == c.se then Stop(s, k + 1, b)
    else AdvanceOver(c, s, k + 1, r - 1, b)
  }

  /** The source behind the sign bit of a new coefficient; a size other than 1 is only warned about. */
  function SignBit(s: Source, n: nat): Option<(int, Source)> {
    GetBits(if n == 1 then s else Warn(s), 1)
  }

  function NewCoef(c: Band, x: int): int {
    if x != 0 then Pow2(c.al) else -Pow2(c.al)
  }

  /** Refinement scan: from position k, outside an end-of-band run. */
  function RefineBand(c: Band, h: HuffTbl, s: Source, k: nat, b: Block, newnz: seq<nat>): BandResult
    requires c.se < DCTSIZE2
    decreases DCTSIZE2 - k
  {
    if k > c.se then BandDone(s, 0, b)
    else
      match HuffDecode(h, s)
      case None => BandSuspended(Undo(b, newnz))
      case Some((sym, t)) =>
        var r, n := sym / 16, sym % 16;
        if n == 0 && r != 15 then
          match EobRun(t, r)
          case None => BandSuspended(Undo(b, newnz))
          case Some((run, u)) => RefineRest(c, u, k, run, b, newnz)
        else if n == 0 then
          match AdvanceOver(c, t, k, r, b)
          case Stuck(b') => BandSuspended(Undo(b', newnz))
          case Stop(u, k', b') => RefineBand(c, h, u, k' + 1, b', newnz)
        else
          match SignBit(t, n)
          case None => BandSuspended(Undo(b, newnz))
          case Some((x, u)) =>
            match AdvanceOver(c, u, k, r, b)
            case Stuck(b') => BandSuspended(Undo(b', newnz))
            case Stop(w, k', b') =>
              RefineBand(c, h, w, k' + 1, Put(b', k', NewCoef(c, x)), newnz + [k'])
  }

  /** One block of an AC scan. */
  function DecodeBand(c: Band, h: HuffTbl, s: Source, eobrun: nat, b: Block): BandResult
    requires BandOk(c)
  {
    if c.refine then
      if eobrun > 0 then RefineRest(c, s, c.ss, eobrun, b, []) else RefineBand(c, h, s, c.ss, b, [])
    else
      if eobrun > 0 then BandDone(s, eobrun - 1, b) else FirstBand(c, h, s, c.ss, b)
  }
}
