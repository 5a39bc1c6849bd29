/**
 The Huffman decoders of a scan (jdhuff.c and jdphuff.c) with the restart handling of jdmarker.c: each call decodes an
 MCU or reports that it has to suspend.  A call is exactly a Step of module ScanCodec.
 */
module ScanDecoders {
  import opened Bits
  import opened Wrappers
  import opened HuffmanTables
  import opened BitSource
  import opened BitReaders
  import opened Symbols
  import opened Feeding
  import opened Coefficients
  import opened NaturalOrder
  import opened SequentialCodec
  import opened BlockDecoders
  import opened AcBand
  import opened McuCodec
  import opened RestartMarkers
  import opened ScanCodec

  type DerivedTables = t: seq<DDerivedTbl> | |t| == 8
    witness seq(8, _ => DDerivedTbl(seq(18, _ => 0), seq(17, _ => 0), seq(256, _ => 0), seq(256, _ => 0),
                                    HuffTbl(seq(17, _ => 0), seq(256, _ => 0))))

  ghost predicate AllDerived(ts: DerivedTables) {
    forall i :: 0 <= i < 8 ==> IsDDerived(ts[i].pub, ts[i])
  }

  /** The JHUFF_TBLs of the derived tables. */
  function Pubs(ts: DerivedTables): DTables {
    seq(8, i requires 0 <= i < 8 => ts[i].pub)
  }

  predicate AreBlocks(c: Scan, blocks: seq<array<Coef>>) {
    && |blocks| == |c.membership|
    && (forall i :: 0 <= i < |blocks| ==> blocks[i].Length == DCTSIZE2)
    && (forall i, j :: 0 <= i < j < |blocks| ==> blocks[i] != blocks[j])
  }

  /** One block of an MCU in a scan that is not an AC scan; the result is the DC prediction behind it. */
  method DecodeUnitAt(c: Scan, ts: DerivedTables, br: BitReader, ci: nat, lastDc: int, block: array<Coef>)
    returns (r: Option<int>)
    requires ScanOk(c) && c.kind != AcScan && AllDerived(ts) && br.Valid() && ci < MAX_COMPS_IN_SCAN
    requires block.Length == DCTSIZE2
    modifies br, block
    ensures br.Valid()
    ensures var d := DecodeUnit(c, Pubs(ts), old(br.Src()), ci, lastDc, old(Zz(block)));
      d == match r case None => Suspended(Zz(block)) case Some(dc) => Done(br.Src(), dc, Zz(block))
    ensures Unstopped(old(br.Src()), br.Src()) && (r.None? ==> br.unreadMarker == 0)
  {
    hide DcDiff, DecodeAc, GetBits, IsDDerived, Zz, Shl, Shr, Pow2, ToCoef;
    ghost var s0 := br.Src();
    if c.kind == DcRefine {
      BitsUnstopped(s0, 1);
      var bit := br.ReadBits(1);
      if bit.None? {
        return None;
      }
      if bit.value != 0 {
        var coef := Fetch(block, 0);
        if !BitSet(coef, c.al) {
          Store(block, 0, coef + Pow2(c.al));
        } else {
          assert Zz(block)[0 := coef] == Zz(block);
        }
      }
      return Some(lastDc);
    }
    DcUnstopped(ts[c.dcTbl[ci]].pub, s0);
    var diff := DecodeDcDiff(br, ts[c.dcTbl[ci]]);
    if diff.None? {
      return None;
    }
    var s := diff.value;
    var dc := lastDc;
    if c.kind == DcFirst {
      dc := lastDc + s;
      Store(block, 0, Shl(dc, c.al));
      return Some(dc);
    }
    if c.needed[ci] {
      dc := s + lastDc;
      Store(block, 0, dc);
    }
    AcUnstopped(ts[4 + c.acTbl[ci]].pub, br.Src(), 1, c.acNeeded[ci], dc, Zz(block));
    var ok := DecodeAcCoefs(br, ts[4 + c.acTbl[ci]], c.acNeeded[ci], dc, block);
    r := if ok then Some(dc) else None;
  }

  lemma DcUnstopped(h: HuffTbl, s: Source)
    ensures DcDiff(h, s).Some? ==> Unstopped(s, DcDiff(h, s).value.1)
  {
    hide HuffDecode, GetBits, HuffExtend;
    HuffUnstopped(h, s);
    match HuffDecode(h, s)
    case None =>
    case Some((n, t)) => if 0 < n < 16 { BitsUnstopped(t, n); }
  }

  lemma {:induction false} AcUnstopped(h: HuffTbl, s: Source, k: nat, needed: bool, dc: int, b: Block)
    ensures DecodeAc(h, s, k, needed, dc, b).Done? ==> Unstopped(s, DecodeAc(h, s, k, needed, dc, b).src)
    decreases DCTSIZE2 - k
  {
    hide HuffDecode, GetBits, HuffExtend, Put;
    if k < DCTSIZE2 {
      HuffUnstopped(h, s);
      match HuffDecode(h, s)
      case None =>
      case Some((sym, t)) =>
        var r, n := sym / 16, sym % 16;
        if n != 0 {
          BitsUnstopped(t, n);
          match GetBits(t, n)
          case None =>
          case Some((x, u)) => AcUnstopped(h, u, k + r + 1, needed, dc, if needed then Put(b, k + r, HuffExtend(x, n)) else b);
        } else if r == 15 {
          AcUnstopped(h, t, k + 16, needed, dc, b);
        }
    }
  }

  lemma UnitsStep(c: Scan, hs: DTables, s: Source, last: LastDc, mcu: Mcu, i: nat)
    requires ScanOk(c) && IsMcu(c, mcu) && i < |mcu|
    ensures DecodeUnits(c, hs, s, last, mcu, i) ==
      match DecodeUnit(c, hs, s, c.membership[i], last[c.membership[i]], mcu[i])
      case Suspended(b) => UnitsSuspended(mcu[i := b])
      case Done(t, dc, b) => DecodeUnits(c, hs, t, last[c.membership[i] := dc], mcu[i := b], i + 1)
  {
    hide DecodeUnit;
  }

  /** The loop over the blocks of an MCU. */
  method DecodeUnitsAt(c: Scan, ts: DerivedTables, br: BitReader, lastDc: LastDc, blocks: seq<array<Coef>>)
    returns (r: Option<LastDc>)
    requires ScanOk(c) && c.kind != AcScan && AllDerived(ts) && br.Valid() && AreBlocks(c, blocks)
    modifies br, blocks
    ensures br.Valid()
    ensures var d := DecodeUnits(c, Pubs(ts), old(br.Src()), lastDc, old(Stored(blocks)), 0);
      d == match r case None => UnitsSuspended(Stored(blocks)) case Some(last) => UnitsDone(br.Src(), last, Stored(blocks))
    ensures r.None? ==> Unstopped(old(br.Src()), br.Src()) && br.unreadMarker == 0
  {
    hide DecodeUnit, AllDerived, InZigzag, DecodeUnits;
    var last := lastDc;
    ghost var s0, hs := br.Src(), Pubs(ts);
    ghost var total := DecodeUnits(c, hs, s0, lastDc, Stored(blocks), 0);
    for blkn := 0 to |blocks|
      invariant br.Valid() && Unstopped(s0, br.Src())
      invariant DecodeUnits(c, hs, br.Src(), last, Stored(blocks), blkn) == total
    {
      var ci := c.membership[blkn];
      ghost var before := Stored(blocks);
      UnitsStep(c, hs, br.Src(), last, before, blkn);
      var dc := DecodeUnitAt(c, ts, br, ci, last[ci], blocks[blkn]);
      assert Stored(blocks) == before[blkn := Zz(blocks[blkn])];
      if dc.None? {
        return None;
      }
      last := last[ci := dc.value];
    }
    UnitsOver(c, hs, br.Src(), last, Stored(blocks));
    r := Some(last);
  }

  lemma UnitsOver(c: Scan, hs: DTables, s: Source, last: LastDc, mcu: Mcu)
    requires ScanOk(c) && IsMcu(c, mcu)
    ensures DecodeUnits(c, hs, s, last, mcu, |mcu|) == UnitsDone(s, last, mcu)
  {
  }

  class ScanDecoder {
    const c: Scan
    const interval: nat
    const tables: DerivedTables

    /** The data source, from the restart point on, and what the marker reader keeps. */
    var rest: seq<byte>
    var unreadMarker: byte
    var discardedBytes: nat
    var nextRestartNum: nat

    var getBuffer: nat
    var bitsLeft: nat
    var insufficientData: bool
    var lastDc: LastDc
    var eobrun: nat
    var restartsToGo: nat
    var warnings: int

    /** start_pass_huff_decoder and start_pass_phuff_decoder, given the derived tables, behind an SOS marker. */
    constructor (c: Scan, interval: nat, tables: DerivedTables, input: seq<byte>)
      requires ScanOk(c) && AllDerived(tables)
      ensures Valid() && this.c == c && this.interval == interval && this.tables == tables
      ensures St() == State(Core(Source(input, [], 0, false, 0), NO_DC, 0), 0, 0, interval)
    {
      this.c, this.interval, this.tables := c, interval, tables;
      rest, unreadMarker, discardedBytes, nextRestartNum := input, 0, 0, 0;
      getBuffer, bitsLeft, insufficientData, lastDc, eobrun := 0, 0, false, NO_DC, 0;
      restartsToGo, warnings := interval, 0;
    }

    ghost predicate Valid()
      reads this
    {
      ScanOk(c) && AllDerived(tables) && bitsLeft <= 32 && nextRestartNum < 8
    }

    ghost function Src(): Source
      reads this
    {
      Source(rest, Held(getBuffer, bitsLeft), unreadMarker, insufficientData, warnings)
    }

    ghost function Rd(): Reader
      reads this
    {
      Reader(Src(), discardedBytes, nextRestartNum)
    }

    ghost function St(): State
      reads this
    {
      State(Core(Src(), lastDc, eobrun), discardedBytes, nextRestartNum, restartsToGo)
    }

    /** The data source delivers more input. */
    method Supply(more: seq<byte>)
      requires Valid()
      modifies `rest
      ensures Valid() && St() == ExtendState(old(St()), more)
    {
      rest := rest + more;
    }

    // ----- Markers

    /** next_marker */
    method SeekNextMarker() returns (ok: bool)
      requires Valid()
      modifies `rest, `discardedBytes, `unreadMarker, `warnings
      ensures Valid() && SeekMarker(old(Rd())) == if ok then Ready(Rd()) else Waiting(Rd())
    {
      hide Held, AllDerived;
      while true
        invariant NextMarker(rest, discardedBytes) == NextMarker(old(rest), old(discardedBytes))
        invariant unreadMarker == old(unreadMarker) && warnings == old(warnings)
        decreases |rest|
      {
        if rest == [] {
          return false;
        }
        if rest[0] != 0xFF {
          discardedBytes := discardedBytes + 1;
          rest := rest[1..];
        } else {
          var next := rest[1..];
          ghost var behind := next;
          while next != [] && next[0] == 0xFF
            modifies {}
            invariant SkipFF(next) == SkipFF(behind) && |next| <= |behind|
          {
            next := next[1..];
          }
          if next == [] {
            return false;
          }
          if next[0] != 0 {
            if discardedBytes != 0 {
              warnings := warnings + 1;
              discardedBytes := 0;
            }
            unreadMarker := next[0];
            rest := next[1..];
            return true;
          }
          discardedBytes := discardedBytes + 2;
          rest := next[1..];
        }
      }
    }

    /** jpeg_resync_to_restart */
    method ResyncToRestart(desired: nat) returns (ok: bool)
      requires Valid() && desired < 8
      modifies `rest, `discardedBytes, `unreadMarker, `warnings
      ensures Valid() && Resync(old(Rd()), desired) == if ok then Ready(Rd()) else Waiting(Rd())
    {
      hide SeekMarker, AllDerived, ResyncAction, Held;
      while true
        invariant Valid() && Resync(Rd(), desired) == Resync(old(Rd()), desired)
        invariant nextRestartNum == old(nextRestartNum) && St() == old(St()).(core := St().core, discarded := St().discarded)
        decreases |rest|
      {
        ResyncStep(Rd(), desired);
        match ResyncAction(unreadMarker, desired)
        case Discard =>
          unreadMarker := 0;
          return true;
        case Advance =>
          ok := SeekNextMarker();
          if !ok {
            return;
          }
        case Leave =>
          return true;
      }
    }

    /** read_restart_marker */
    method ReadRestart() returns (ok: bool)
      requires Valid()
      modifies `rest, `discardedBytes, `unreadMarker, `warnings, `nextRestartNum
      ensures Valid() && ReadRestartMarker(old(Rd())) == if ok then Ready(Rd()) else Waiting(Rd())
    {
      hide SeekMarker, AllDerived, Resync, Held;
      if unreadMarker == 0 {
        SeekKeepsNum(Rd());
        ok := SeekNextMarker();
        if !ok {
          return;
        }
      }
      if unreadMarker == M_RST0 + nextRestartNum {
        unreadMarker := 0;
      } else {
        ok := ResyncToRestart(nextRestartNum);
        if !ok {
          return;
        }
        warnings := warnings + 1;
      }
      nextRestartNum := (nextRestartNum + 1) % 8;
      ok := true;
    }

    /** process_restart */
    method RestartNow() returns (ok: bool)
      requires Valid()
      modifies this
      ensures Valid() && ProcessRestart(old(Rd())) == if ok then Ready(Rd()) else Waiting(Rd())
      ensures ok ==> lastDc == NO_DC && eobrun == 0 && restartsToGo == interval
      ensures !ok ==> lastDc == old(lastDc) && eobrun == old(eobrun) && restartsToGo == old(restartsToGo)
    {
      hide ReadRestartMarker, AllDerived;
      discardedBytes := discardedBytes + bitsLeft / 8;
      bitsLeft := 0;
      ok := ReadRestart();
      if !ok {
        return;
      }
      lastDc, eobrun := NO_DC, 0;
      restartsToGo := interval;
      if unreadMarker == 0 {
        insufficientData := false;
      }
    }

    // ----- MCUs

    /** decode_mcu and the four decode_mcu_* routines: false when the data source cannot supply the input needed. */
    method DecodeNextMcu(blocks: seq<array<Coef>>) returns (ok: bool)
      requires Valid() && AreBlocks(c, blocks)
      modifies this, blocks
      ensures Valid()
      ensures var r := Step(c, Pubs(tables), interval, old(St()), old(Stored(blocks)));
        r == if ok then Stepped(St(), Stored(blocks)) else Paused(St(), Stored(blocks))
    {
      hide ProcessRestart, AllDerived, Held, DecodeMcu, InZigzag;
      if interval != 0 && restartsToGo == 0 {
        ok := RestartNow();
        if !ok {
          return;
        }
      }
      ok := DecodeData(blocks);
      if ok {
        restartsToGo := CountDown(restartsToGo);
      }
    }

    /** The MCU itself, behind the restart marker if there was one. */
    method DecodeData(blocks: seq<array<Coef>>) returns (ok: bool)
      requires Valid() && AreBlocks(c, blocks)
      modifies this, blocks
      ensures Valid()
      ensures var d := DecodeMcu(c, Pubs(tables), old(St()).core, old(Stored(blocks)));
        d == if ok then McuDone(St().core, Stored(blocks)) else McuSuspended(Stored(blocks))
      ensures St() == old(St()).(core := St().core) && (!ok ==> St() == old(St()))
    {
      hide AllDerived, Held, InZigzag, DecodeMcu;
      ok := true;
      StarvedDecodes(c, Pubs(tables), St().core, Stored(blocks));
      if !insufficientData || c.kind == DcRefine {
        var br := new BitReader(rest, getBuffer, bitsLeft, unreadMarker, insufficientData, warnings);
        ok := DecodeWith(br, blocks);
        unreadMarker, insufficientData := br.unreadMarker, br.insufficientData;
        if ok {
          rest, getBuffer, bitsLeft, warnings := br.rest, br.getBuffer, br.bitsLeft, br.warnings;
        }
      }
    }

    /** The MCU, on the local copies of the source's fields */
    method DecodeWith(br: BitReader, blocks: seq<array<Coef>>) returns (ok: bool)
      requires Valid() && AreBlocks(c, blocks) && br.Valid() && (br.Src().starved ==> c.kind == DcRefine)
      modifies `eobrun, `lastDc, br, blocks
      ensures br.Valid()
      ensures var d := DecodeMcu(c, Pubs(tables), Core(old(br.Src()), old(lastDc), old(eobrun)), old(Stored(blocks)));
        d == if ok then McuDone(Core(br.Src(), lastDc, eobrun), Stored(blocks)) else McuSuspended(Stored(blocks))
      ensures !ok ==> lastDc == old(lastDc) && eobrun == old(eobrun)
      ensures !ok ==> Unstopped(old(br.Src()), br.Src()) && br.unreadMarker == 0
    {
      hide AllDerived, Held, DecodeBand, DecodeUnits, InZigzag;
      if c.kind == AcScan {
        var run := DecodeBandAt(br, blocks[0]);
        assert Stored(blocks) == [Zz(blocks[0])];
        ok := run.Some?;
        if ok {
          eobrun := run.value;
        }
      } else {
        var last := DecodeUnitsAt(c, tables, br, lastDc, blocks);
        ok := last.Some?;
        if ok {
          lastDc := last.value;
        }
      }
    }

    method DecodeBandAt(br: BitReader, block: array<Coef>) returns (r: Option<nat>)
      requires Valid() && c.kind == AcScan && br.Valid() && block.Length == DCTSIZE2
      modifies br, block
      ensures br.Valid()
      ensures var d := DecodeBand(c.band, Pubs(tables)[4 + c.band.tbl], old(br.Src()), eobrun, old(Zz(block)));
        d == match r case None => BandSuspended(Zz(block)) case Some(run) => BandDone(br.Src(), run, Zz(block))
      ensures r.None? ==> Unstopped(old(br.Src()), br.Src()) && br.unreadMarker == 0
    {
      hide IsDDerived, Held, DecodeBand, Zz;
      if c.band.refine {
        r := DecodeAcRefine(c.band, br, tables[4 + c.band.tbl], eobrun, block);
      } else {
        r := DecodeAcFirst(c.band, br, tables[4 + c.band.tbl], eobrun, block);
      }
    }
  }

  lemma StarvedDecodes(c: Scan, hs: DTables, core: Core, mcu: Mcu)
    requires ScanOk(c) && IsMcu(c, mcu)
    ensures core.src.starved && c.kind != DcRefine ==> DecodeMcu(c, hs, core, mcu) == McuDone(core, mcu)
  {
  }

  lemma ResyncStep(rd: Reader, desired: nat)
    ensures Resync(rd, desired) ==
      match ResyncAction(rd.src.marker, desired)
      case Discard => Ready(rd.(src := rd.src.(marker := 0)))
      case Leave => Ready(rd)
      case Advance =>
        match SeekMarker(rd)
        case Waiting(w) => Waiting(w)
        case Ready(r) => Resync(r, desired)
    ensures SeekMarker(rd).Ready? ==> |SeekMarker(rd).rd.src.rest| < |rd.src.rest|
    ensures SeekMarker(rd).rd.nextNum == rd.nextNum
  {
    hide NextMarker, ResyncAction;
  }

  lemma SeekKeepsNum(rd: Reader)
    ensures SeekMarker(rd).rd.nextNum == rd.nextNum
  {
    hide NextMarker;
  }
}
