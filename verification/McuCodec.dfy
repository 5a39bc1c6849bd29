/**
 Coding of whole MCUs in every kind of scan, as functions: the blocks of an MCU in sequential, DC first and DC
 refinement scans (encode_mcu_huff, encode_mcu_DC_first, encode_mcu_DC_refine and their decoders), the one block of an
 AC scan (module AcBand), and the MCUs of a restart interval.
 */
module McuCodec {
  import opened Bits
  import opened Wrappers
  import opened HuffmanTables
  import opened BitSource
  import opened Symbols
  import opened Feeding
  import opened Coefficients
  import opened SequentialCodec
  import opened AcBand
  import opened AcSegment
  import opened AcRoundTrip

  datatype Kind = Sequential | DcFirst | DcRefine | AcScan

  /**
   What the coders use of the scan parameters.  membership[i] is the component of the i'th block of an MCU; dcTbl and
   acTbl are per component, and so is what the application needs of a sequential scan.
   */
  datatype Scan = Scan(kind: Kind, membership: seq<nat>, dcTbl: seq<nat>, acTbl: seq<nat>, al: nat, band: Band,
                       needed: seq<bool>, acNeeded: seq<bool>)

  predicate ScanOk(c: Scan) {
    && |c.dcTbl| == |c.acTbl| == |c.needed| == |c.acNeeded| == MAX_COMPS_IN_SCAN
    && (forall i :: 0 <= i < MAX_COMPS_IN_SCAN ==> c.dcTbl[i] < NUM_HUFF_TBLS && c.acTbl[i] < NUM_HUFF_TBLS)
    && (forall i :: 0 <= i < MAX_COMPS_IN_SCAN && c.acNeeded[i] ==> c.needed[i])
    && (forall i :: 0 <= i < |c.membership| ==> c.membership[i] < MAX_COMPS_IN_SCAN)
    && c.al <= 13 && BandOk(c.band)
    && (c.kind == AcScan ==> |c.membership| == 1)
  }

  type Mcu = seq<Block>

  predicate IsMcu(c: Scan, mcu: Mcu) {
    |mcu| == |c.membership|
  }

  /** The DC predictions, one per component of the scan. */
  type LastDc = l: seq<int> | |l| == MAX_COMPS_IN_SCAN witness [0, 0, 0, 0]

  const NO_DC: LastDc := [0, 0, 0, 0]

  // ----- Encoder

  /** The DC value that is coded: after the point transform in a progressive scan. */
  function Level(c: Scan, b: Block): int {
    if c.kind == Sequential then b[0] else Shr(b[0], c.al)
  }

  /** One block of component ci. */
  function UnitItems(c: Scan, b: Block, ci: nat, last: LastDc): seq<Item>
    requires ScanOk(c) && ci < MAX_COMPS_IN_SCAN
  {
    match c.kind
    case Sequential => BlockItems(b, last[ci], c.dcTbl[ci], c.acTbl[ci])
    case DcFirst => DcItems(Level(c, b) - last[ci], c.dcTbl[ci])
    case _ => [Raw(Shr(b[0], c.al), 1)]
  }

  predicate UnitInRange(c: Scan, b: Block, ci: nat, last: LastDc)
    requires ci < MAX_COMPS_IN_SCAN
  {
    && (c.kind == Sequential || c.kind == DcFirst ==> DcInRange(Level(c, b) - last[ci]))
    && (c.kind == Sequential ==> AcInRange(b))
  }

  /** The predictions behind block i of an MCU. */
  function NextLast(c: Scan, mcu: Mcu, i: nat, last: LastDc): LastDc
    requires ScanOk(c) && IsMcu(c, mcu) && i < |mcu|
  {
    last[c.membership[i] := Level(c, mcu[i])]
  }

  function LastAfter(c: Scan, mcu: Mcu, i: nat, last: LastDc): LastDc
    requires ScanOk(c) && IsMcu(c, mcu) && i <= |mcu|
    decreases |mcu| - i
  {
    if i == |mcu| then last else LastAfter(c, mcu, i + 1, NextLast(c, mcu, i, last))
  }

  function UnitsItems(c: Scan, mcu: Mcu, i: nat, last: LastDc): seq<Item>
    requires ScanOk(c) && IsMcu(c, mcu) && i <= |mcu|
    decreases |mcu| - i
  {
    if i == |mcu| then []
    else UnitItems(c, mcu[i], c.membership[i], last) + UnitsItems(c, mcu, i + 1, NextLast(c, mcu, i, last))
  }

  predicate UnitsInRange(c: Scan, mcu: Mcu, i: nat, last: LastDc)
    requires ScanOk(c) && IsMcu(c, mcu) && i <= |mcu|
    decreases |mcu| - i
  {
    i < |mcu| ==>
      UnitInRange(c, mcu[i], c.membership[i], last) && UnitsInRange(c, mcu, i + 1, NextLast(c, mcu, i, last))
  }

  predicate AreMcus(c: Scan, mcus: seq<Mcu>) {
    forall i :: 0 <= i < |mcus| ==> IsMcu(c, mcus[i])
  }

  function McusItems(c: Scan, mcus: seq<Mcu>, last: LastDc): seq<Item>
    requires ScanOk(c) && AreMcus(c, mcus)
  {
    if mcus == [] then []
    else UnitsItems(c, mcus[0], 0, last) + McusItems(c, mcus[1..], LastAfter(c, mcus[0], 0, last))
  }

  predicate McusInRange(c: Scan, mcus: seq<Mcu>, last: LastDc)
    requires ScanOk(c) && AreMcus(c, mcus)
  {
    mcus != [] ==>
      UnitsInRange(c, mcus[0], 0, last) && McusInRange(c, mcus[1..], LastAfter(c, mcus[0], 0, last))
  }

  function FirstBlocks(mcus: seq<Mcu>): seq<Block>
    requires forall i :: 0 <= i < |mcus| ==> |mcus[i]| == 1
  {
    seq(|mcus|, i requires 0 <= i < |mcus| => mcus[i][0])
  }

  /** Everything that is emitted for the MCUs of a restart interval. */
  function IntervalItems(c: Scan, mcus: seq<Mcu>): seq<Item>
    requires ScanOk(c) && AreMcus(c, mcus)
  {
    if c.kind == AcScan then SegItems(c.band, FirstBlocks(mcus), Pending(0, [])) else McusItems(c, mcus, NO_DC)
  }

  /** The encoder does not end with JERR_BAD_DCT_COEF. */
  ghost predicate IntervalInRange(c: Scan, mcus: seq<Mcu>)
    requires ScanOk(c) && AreMcus(c, mcus)
  {
    if c.kind == AcScan then AllInRange(c.band, FirstBlocks(mcus)) else McusInRange(c, mcus, NO_DC)
  }

  // ----- Decoder

  datatype UnitsResult = UnitsDone(src: Source, last: LastDc, mcu: Mcu) | UnitsSuspended(mcu: Mcu)

  /** coef |= p1 */
  function SetBit(v: Coef, al: nat): Coef {
    if BitSet(v, al) then v else ToCoef(v + Pow2(al))
  }

  /** One block of component ci: the source and the prediction behind it, and the block. */
  function DecodeUnit(c: Scan, hs: DTables, s: Source, ci: nat, lastDc: int, b: Block): BlockResult
    requires ScanOk(c) && ci < MAX_COMPS_IN_SCAN
  {
    match c.kind
    case Sequential =>
      DecodeBlock(hs[c.dcTbl[ci]], hs[4 + c.acTbl[ci]], s, c.needed[ci], c.acNeeded[ci], lastDc, b)
    case DcFirst =>
      (match DcDiff(hs[c.dcTbl[ci]], s)
       case None => Suspended(b)
       case Some((diff, t)) => Done(t, lastDc + diff, Put(b, 0, Shl(lastDc + diff, c.al))))
    case _ =>
      (match GetBits(s, 1)
       case None => Suspended(b)
       case Some((x, t)) => Done(t, lastDc, if x != 0 then b[0 := SetBit(b[0], c.al)] else b))
  }

  /** Blocks i.. of an MCU. */
  function DecodeUnits(c: Scan, hs: DTables, s: Source, last: LastDc, mcu: Mcu, i: nat): UnitsResult
    requires ScanOk(c) && IsMcu(c, mcu) && i <= |mcu|
    decreases |mcu| - i
  {
    hide DecodeUnit;
    if i == |mcu| then UnitsDone(s, last, mcu)
    else
      var ci := c.membership[i];
      match DecodeUnit(c, hs, s, ci, last[ci], mcu[i])
      case Suspended(b) => UnitsSuspended(mcu[i := b])
      case Done(t, dc, b) => DecodeUnits(c, hs, t, last[ci := dc], mcu[i := b], i + 1)
  }

  /** What survives from MCU to MCU of a restart interval. */
  datatype Core = Core(src: Source, last: LastDc, eobrun: nat)

  datatype McuResult = McuDone(core: Core, mcu: Mcu) | McuSuspended(mcu: Mcu)

  /** decode_mcu, decode_mcu_DC_first, decode_mcu_DC_refine, decode_mcu_AC_first and decode_mcu_AC_refine. */
  function DecodeMcu(c: Scan, hs: DTables, core: Core, mcu: Mcu): McuResult
    requires ScanOk(c) && IsMcu(c, mcu)
  {
    if core.src.starved && c.kind != DcRefine then McuDone(core, mcu)
    else if c.kind == AcScan then
      match DecodeBand(c.band, hs[4 + c.band.tbl], core.src, core.eobrun, mcu[0])
      case BandSuspended(b) => McuSuspended([b])
      case BandDone(t, e, b) => McuDone(Core(t, core.last, e), [b])
    else
      match DecodeUnits(c, hs, core.src, core.last, mcu, 0)
      case UnitsSuspended(m) => McuSuspended(m)
      case UnitsDone(t, last, m) => McuDone(Core(t, last, core.eobrun), m)
  }

  function DecodeInterval(c: Scan, hs: DTables, core: Core, mcus: seq<Mcu>): Option<(Core, seq<Mcu>)>
    requires ScanOk(c) && AreMcus(c, mcus)
    decreases |mcus|
  {
    hide DecodeMcu;
    if mcus == [] then Some((core, []))
    else
      match DecodeMcu(c, hs, core, mcus[0])
      case McuSuspended(_) => None
      case McuDone(core', mcu) =>
        match DecodeInterval(c, hs, core', mcus[1..])
        case None => None
        case Some((core'', more)) => Some((core'', [mcu] + more))
  }

  // ----- What the scan makes of an MCU

  /** The DC value cut off at bit al, rounding down. */
  function TruncDc(v: Coef, al: nat): Coef
    requires al <= 14
  {
    TruncDcRange(v, al);
    Shl(Shr(v, al), al)
  }

  lemma TruncDcRange(v: Coef, al: nat)
    requires al <= 14
    ensures -32768 <= Shl(Shr(v, al), al) <= v
  {
    ShrBounds(v, al);
    ShrMonotone(-32768, v, al);
    ShlMonotone(Shr(-32768, al), Shr(v, al), al);
    assert -32768 == Shl(Shl(-1, 15 - al), al) by { ShlShl(-1, 15 - al, al); assert Shl(-1, 15) == -32768; }
    ShrShlAdd(Shl(-1, 15 - al), 0, al);
  }

  lemma {:induction false} ShlShl(v: int, a: nat, b: nat)
    ensures Shl(Shl(v, a), b) == Shl(v, a + b)
    decreases b
  {
    if b > 0 {
      ShlShl(v, a, b - 1);
    }
  }

  /** What a DC refinement makes of the value known, whether or not it goes with v. */
  function RefinedDc(v: Coef, known: Coef, al: nat): Coef {
    if BitSet(v, al) then SetBit(known, al) else known
  }

  /** The decoder's copy of block b before the scan. */
  ghost predicate IsUnitHistory(c: Scan, b: Block, h: Block)
    requires ScanOk(c)
  {
    match c.kind
    case Sequential => h == seq(DCTSIZE2, _ => 0)
    case DcFirst => true
    case DcRefine => true
    case AcScan => IsHistory(c.band, b, h)
  }

  /** The decoder's copy after the scan. */
  function UnitGoal(c: Scan, b: Block, h: Block, ci: nat): Block
    requires ScanOk(c) && ci < MAX_COMPS_IN_SCAN
  {
    match c.kind
    case Sequential => if c.acNeeded[ci] then b else if c.needed[ci] then h[0 := b[0]] else h
    case AcScan => Goal(c.band, b, h, c.band.se + 1)
    case DcFirst => h[0 := TruncDc(b[0], c.al)]
    case DcRefine => h[0 := RefinedDc(b[0], h[0], c.al)]
  }

  function McuGoal(c: Scan, mcu: Mcu, h: Mcu): Mcu
    requires ScanOk(c) && IsMcu(c, mcu) && IsMcu(c, h)
  {
    seq(|mcu|, i requires 0 <= i < |mcu| => UnitGoal(c, mcu[i], h[i], c.membership[i]))
  }

  ghost predicate IsMcuHistory(c: Scan, mcu: Mcu, h: Mcu)
    requires ScanOk(c)
  {
    IsMcu(c, mcu) && IsMcu(c, h) && forall i :: 0 <= i < |mcu| ==> IsUnitHistory(c, mcu[i], h[i])
  }

  ghost predicate AreMcuHistories(c: Scan, mcus: seq<Mcu>, hist: seq<Mcu>)
    requires ScanOk(c)
  {
    |mcus| == |hist| && forall i :: 0 <= i < |mcus| ==> IsMcuHistory(c, mcus[i], hist[i])
  }

  function McuGoals(c: Scan, mcus: seq<Mcu>, hist: seq<Mcu>): seq<Mcu>
    requires ScanOk(c) && AreMcus(c, mcus) && AreMcus(c, hist) && |mcus| == |hist|
  {
    seq(|mcus|, i requires 0 <= i < |mcus| => McuGoal(c, mcus[i], hist[i]))
  }
}
