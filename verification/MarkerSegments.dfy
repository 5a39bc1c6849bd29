/**
 Marker segments (section B.2 of ITU-T T.81) as the decompressor parses them (get_dqt, get_dht, get_sof, get_sos and
 get_dri of jdmarker.c).  A parser assigns to fields of the decompressor as it goes along; when it runs out of bytes it
 is called again later, from the start of the segment.
 */
module MarkerSegments {
  import opened Bits
  import opened Wrappers
  import opened Coefficients
  import opened NaturalOrder

  const NUM_TBLS := 4

  /** The fields of the decompressor that the parsers assign to. */
  datatype Cell =
    | QuantVal(n: nat, k: nat) | HuffCount(ac: bool, n: nat, i: nat) | HuffValue(ac: bool, n: nat, i: nat)
    | Progressive | Arith | Precision | Height | Width | NumComponents
    | CompId(ci: nat) | HSamp(ci: nat) | VSamp(ci: nat) | QuantNo(ci: nat)
    | CompsInScan | CurComp(i: nat) | DcTblNo(ci: nat) | AcTblNo(ci: nat) | Ss | Se | Ah | Al | NextRestartNum
    | RestartInterval

  type Fields = map<Cell, int>

  /** The parser needs more bytes, fails, or is done, with its next byte at pos. */
  datatype Seg = Need(f: Fields) | Fail(error: Error) | Done(f: Fields, pos: nat)

  function TwoBytes(b: seq<byte>, pos: nat): (n: nat)
    requires pos + 2 <= |b|
    ensures n < 65536
  {
    b[pos] as nat * 256 + b[pos + 1] as nat
  }

  // ----- DRI

  function GetDri(f: Fields, b: seq<byte>): (s: Seg)
    ensures s.Done? ==> s.pos <= |b|
  {
    if |b| < 2 then Need(f)
    else if TwoBytes(b, 0) != 4 then Fail(BadLength)
    else if |b| < 4 then Need(f)
    else Done(f[RestartInterval := TwoBytes(b, 2)], 4)
  }

  // ----- DQT

  /** Entries k.. of quantization table n */
  function QuantEntries(f: Fields, b: seq<byte>, pos: nat, n: nat, wide: bool, k: nat): (s: Seg)
    requires k <= DCTSIZE2
    ensures s.Done? && pos <= |b| ==> s.pos <= |b|
    decreases DCTSIZE2 - k
  {
    var size := if wide then 2 else 1;
    if k == DCTSIZE2 then Done(f, pos)
    else if pos + size > |b| then Need(f)
    else
      var v := if wide then TwoBytes(b, pos) else b[pos] as nat;
      QuantEntries(f[QuantVal(n, Natural(k)) := v], b, pos + size, n, wide, k + 1)
  }

  function QuantTables(f: Fields, b: seq<byte>, pos: nat, length: int): (s: Seg)
    ensures s.Done? && pos <= |b| ==> s.pos <= |b|
    decreases length
  {
    if length == 0 then Done(f, pos)
    else if length < 0 then Fail(BadLength)
    else if pos >= |b| then Need(f)
    else
      var n, prec := b[pos] as nat % 16, b[pos] as nat / 16;
      if n >= NUM_TBLS then Fail(DqtIndex)
      else
        match QuantEntries(f, b, pos + 1, n, prec != 0, 0)
        case Done(g, p) => QuantTables(g, b, p, length - (DCTSIZE2 + 1) - (if prec != 0 then DCTSIZE2 else 0))
        case s => s
  }

  function GetDqt(f: Fields, b: seq<byte>): (s: Seg)
    ensures s.Done? ==> s.pos <= |b|
  {
    if |b| < 2 then Need(f) else QuantTables(f, b, 2, TwoBytes(b, 0) - 2)
  }

  // ----- DHT

  function SumBytes(s: seq<byte>): nat {
    if s == [] then 0 else SumBytes(s[..|s| - 1]) + s[|s| - 1] as nat
  }

  function StoreCounts(f: Fields, ac: bool, n: nat, counts: seq<byte>): Fields {
    if counts == [] then f
    else StoreCounts(f, ac, n, counts[..|counts| - 1])[HuffCount(ac, n, |counts|) := counts[|counts| - 1] as int]
  }

  function StoreValues(f: Fields, ac: bool, n: nat, vals: seq<byte>): Fields {
    if vals == [] then f
    else StoreValues(f, ac, n, vals[..|vals| - 1])[HuffValue(ac, n, |vals| - 1) := vals[|vals| - 1] as int]
  }

  function StoreHuff(f: Fields, ac: bool, n: nat, counts: seq<byte>, vals: seq<byte>): Fields {
    StoreValues(StoreCounts(f, ac, n, counts), ac, n, vals)
  }

  function HuffTables(f: Fields, b: seq<byte>, pos: nat, length: int): (s: Seg)
    ensures s.Done? && pos <= |b| ==> s.pos <= |b|
    decreases length
  {
    if length == 0 then Done(f, pos)
    else if length <= 16 then Fail(BadLength)
    else if pos + 17 > |b| then Need(f)
    else
      var index, counts := b[pos] as nat, b[pos + 1..pos + 17];
      var count := SumBytes(counts);
      if count > 256 || count > length - 17 then Fail(BadHuffTable)
      else if pos + 17 + count > |b| then Need(f)
      else
        var ac := index / 16 % 2 == 1;
        var n := if ac then index - 16 else index;
        if n >= NUM_TBLS then Fail(DhtIndex)
        else HuffTables(StoreHuff(f, ac, n, counts, b[pos + 17..pos + 17 + count]), b, pos + 17 + count, length - 17 - count)
  }

  function GetDht(f: Fields, b: seq<byte>): (s: Seg)
    ensures s.Done? ==> s.pos <= |b|
  {
    if |b| < 2 then Need(f) else HuffTables(f, b, 2, TwoBytes(b, 0) - 2)
  }

  // ----- SOF

  function SofComps(f: Fields, b: seq<byte>, pos: nat, ci: nat, count: nat): (s: Seg)
    requires ci <= count
    ensures s.Done? && pos <= |b| ==> s.pos <= |b|
    decreases count - ci
  {
    if ci == count then Done(f, pos)
    else if pos >= |b| then Need(f)
    else
      var f1 := f[CompId(ci) := b[pos] as int];
      if pos + 1 >= |b| then Need(f1)
      else
        var f2 := f1[HSamp(ci) := b[pos + 1] as int / 16][VSamp(ci) := b[pos + 1] as int % 16];
        if pos + 2 >= |b| then Need(f2)
        else SofComps(f2[QuantNo(ci) := b[pos + 2] as int], b, pos + 3, ci + 1, count)
  }

  function ToInt(b: bool): int {
    if b then 1 else 0
  }

  /** INPUT_2BYTES has stored the high byte before it suspends in front of the low one. */
  function HalfRead(f: Fields, b: seq<byte>, cell: Cell, pos: nat): Fields {
    if pos < |b| then f[cell := b[pos] as int * 256] else f
  }

  function GetSof(f: Fields, b: seq<byte>, progressive: bool, arith: bool, sawSof: bool): (s: Seg)
    ensures s.Done? ==> s.pos <= |b|
  {
    var f0 := f[Progressive := ToInt(progressive)][Arith := ToInt(arith)];
    if |b| < 3 then Need(f0)
    else
      var f1 := f0[Precision := b[2] as int];
      if |b| < 5 then Need(HalfRead(f1, b, Height, 3))
      else
        var f2 := f1[Height := TwoBytes(b, 3)];
        if |b| < 7 then Need(HalfRead(f2, b, Width, 5))
        else
          var f3 := f2[Width := TwoBytes(b, 5)];
          if |b| < 8 then Need(f3)
          else
            var count := b[7] as nat;
            if sawSof then Fail(SofDuplicate)
            else if TwoBytes(b, 3) == 0 || TwoBytes(b, 5) == 0 || count == 0 then Fail(EmptyImage)
            else if TwoBytes(b, 0) - 8 != 3 * count then Fail(BadLength)
            else SofComps(f3[NumComponents := count], b, 8, 0, count)
  }

  // ----- SOS

  /** The component ids that the frame header gave. */
  function Ids(f: Fields): (ids: seq<int>) {
    var count: nat := if NumComponents in f && f[NumComponents] >= 0 then f[NumComponents] else 0;
    IdsFrom(f, count)
  }

  function IdsFrom(f: Fields, count: nat): (ids: seq<int>)
    ensures |ids| == count
    ensures forall i :: 0 <= i < count ==> ids[i] == if CompId(i) in f then f[CompId(i)] else -1
  {
    if count == 0 then [] else IdsFrom(f, count - 1) + [if CompId(count - 1) in f then f[CompId(count - 1)] else -1]
  }

  /** The first component with the id, or the number of components */
  function FindId(ids: seq<int>, cc: int, ci: nat): (r: nat)
    requires ci <= |ids|
    ensures ci <= r <= |ids| && (forall i :: ci <= i < r ==> ids[i] != cc) && (r < |ids| ==> ids[r] == cc)
    decreases |ids| - ci
  {
    if ci == |ids| || ids[ci] == cc then ci else FindId(ids, cc, ci + 1)
  }

  function SosTail(f: Fields, b: seq<byte>, pos: nat): (s: Seg)
    ensures s.Done? && pos <= |b| ==> s.pos <= |b|
  {
    if pos >= |b| then Need(f)
    else
      var f1 := f[Ss := b[pos] as int];
      if pos + 1 >= |b| then Need(f1)
      else
        var f2 := f1[Se := b[pos + 1] as int];
        if pos + 2 >= |b| then Need(f2)
        else Done(f2[Ah := b[pos + 2] as int / 16][Al := b[pos + 2] as int % 16][NextRestartNum := 0], pos + 3)
  }

  function SosComps(f: Fields, b: seq<byte>, pos: nat, i: nat, n: nat, ids: seq<int>): (s: Seg)
    requires i <= n
    ensures s.Done? && pos <= |b| ==> s.pos <= |b|
    decreases n - i
  {
    if i == n then SosTail(f, b, pos)
    else if pos + 2 > |b| then Need(f)
    else
      var ci, c := FindId(ids, b[pos] as int, 0), b[pos + 1] as int;
      if ci == |ids| then Fail(BadComponentId)
      else SosComps(f[CurComp(i) := ci][DcTblNo(ci) := c / 16][AcTblNo(ci) := c % 16], b, pos + 2, i + 1, n, ids)
  }

  function GetSos(f: Fields, b: seq<byte>, sawSof: bool, ids: seq<int>): (s: Seg)
    ensures s.Done? ==> s.pos <= |b|
  {
    if !sawSof then Fail(SosNoSof)
    else if |b| < 3 then Need(f)
    else
      var n := b[2] as nat;
      if TwoBytes(b, 0) != 2 * n + 6 || n < 1 || n > MAX_COMPS_IN_SCAN then Fail(BadLength)
      else SosComps(f[CompsInScan := n], b, 3, 0, n, ids)
  }

  // ----- Assignments of a segment do not depend on what was there

  function Over(base: Fields, s: Seg): Seg {
    match s
    case Need(f) => Need(base + f)
    case Fail(e) => Fail(e)
    case Done(f, p) => Done(base + f, p)
  }

  lemma OverSet(base: Fields, f: Fields, c: Cell, v: int)
    ensures (base + f)[c := v] == base + f[c := v]
  {
  }

  lemma {:induction false} QuantEntriesOver(base: Fields, f: Fields, b: seq<byte>, pos: nat, n: nat, wide: bool, k: nat)
    requires k <= DCTSIZE2
    ensures QuantEntries(base + f, b, pos, n, wide, k) == Over(base, QuantEntries(f, b, pos, n, wide, k))
    decreases DCTSIZE2 - k
  {
    hide Natural;
    var size := if wide then 2 else 1;
    if k < DCTSIZE2 && pos + size <= |b| {
      var v := if wide then TwoBytes(b, pos) else b[pos] as nat;
      OverSet(base, f, QuantVal(n, Natural(k)), v);
      QuantEntriesOver(base, f[QuantVal(n, Natural(k)) := v], b, pos + size, n, wide, k + 1);
    }
  }

  lemma {:induction false} QuantTablesOver(base: Fields, f: Fields, b: seq<byte>, pos: nat, length: int)
    ensures QuantTables(base + f, b, pos, length) == Over(base, QuantTables(f, b, pos, length))
    decreases length
  {
    hide QuantEntries;
    if length > 0 && pos < |b| {
      var n, prec := b[pos] as nat % 16, b[pos] as nat / 16;
      if n < NUM_TBLS {
        QuantEntriesOver(base, f, b, pos + 1, n, prec != 0, 0);
        match QuantEntries(f, b, pos + 1, n, prec != 0, 0) {
          case Done(g, p) =>
            QuantTablesOver(base, g, b, p, length - (DCTSIZE2 + 1) - (if prec != 0 then DCTSIZE2 else 0));
          case _ =>
        }
      }
    }
  }

  lemma {:induction false} StoreCountsOver(base: Fields, f: Fields, ac: bool, n: nat, counts: seq<byte>)
    ensures StoreCounts(base + f, ac, n, counts) == base + StoreCounts(f, ac, n, counts)
    decreases |counts|
  {
    if counts != [] {
      StoreCountsOver(base, f, ac, n, counts[..|counts| - 1]);
    }
  }

  lemma {:induction false} StoreValuesOver(base: Fields, f: Fields, ac: bool, n: nat, vals: seq<byte>)
    ensures StoreValues(base + f, ac, n, vals) == base + StoreValues(f, ac, n, vals)
    decreases |vals|
  {
    if vals != [] {
      StoreValuesOver(base, f, ac, n, vals[..|vals| - 1]);
    }
  }

  lemma {:induction false} HuffTablesOver(base: Fields, f: Fields, b: seq<byte>, pos: nat, length: int)
    ensures HuffTables(base + f, b, pos, length) == Over(base, HuffTables(f, b, pos, length))
    decreases length
  {
    hide SumBytes, StoreCounts, StoreValues;
    if length > 16 && pos + 17 <= |b| {
      var index, counts := b[pos] as nat, b[pos + 1..pos + 17];
      var count := SumBytes(counts);
      if count <= 256 && count <= length - 17 && pos + 17 + count <= |b| {
        var ac := index / 16 % 2 == 1;
        var n := if ac then index - 16 else index;
        if n < NUM_TBLS {
          var vals := b[pos + 17..pos + 17 + count];
          StoreCountsOver(base, f, ac, n, counts);
          StoreValuesOver(base, StoreCounts(f, ac, n, counts), ac, n, vals);
          HuffTablesOver(base, StoreHuff(f, ac, n, counts, vals), b, pos + 17 + count, length - 17 - count);
        }
      }
    }
  }

  lemma {:induction false} SofCompsOver(base: Fields, f: Fields, b: seq<byte>, pos: nat, ci: nat, count: nat)
    requires ci <= count
    ensures SofComps(base + f, b, pos, ci, count) == Over(base, SofComps(f, b, pos, ci, count))
    decreases count - ci
  {
    if ci < count && pos < |b| {
      var f1 := f[CompId(ci) := b[pos] as int];
      OverSet(base, f, CompId(ci), b[pos] as int);
      if pos + 1 < |b| {
        var h, v := b[pos + 1] as int / 16, b[pos + 1] as int % 16;
        OverSet(base, f1, HSamp(ci), h);
        OverSet(base, f1[HSamp(ci) := h], VSamp(ci), v);
        var f2 := f1[HSamp(ci) := h][VSamp(ci) := v];
        if pos + 2 < |b| {
          OverSet(base, f2, QuantNo(ci), b[pos + 2] as int);
          SofCompsOver(base, f2[QuantNo(ci) := b[pos + 2] as int], b, pos + 3, ci + 1, count);
        }
      }
    }
  }

  lemma HalfOver(base: Fields, f: Fields, b: seq<byte>, cell: Cell, pos: nat)
    ensures HalfRead(base + f, b, cell, pos) == base + HalfRead(f, b, cell, pos)
  {
  }

  lemma GetSofOver(base: Fields, b: seq<byte>, progressive: bool, arith: bool, sawSof: bool)
    ensures GetSof(base, b, progressive, arith, sawSof) == Over(base, GetSof(map[], b, progressive, arith, sawSof))
  {
    hide SofComps, HalfRead;
    var e: Fields := map[];
    assert base + e == base;
    var f0 := e[Progressive := ToInt(progressive)][Arith := ToInt(arith)];
    OverSet(base, e, Progressive, ToInt(progressive));
    OverSet(base, e[Progressive := ToInt(progressive)], Arith, ToInt(arith));
    if |b| >= 3 {
      OverSet(base, f0, Precision, b[2] as int);
      var f1 := f0[Precision := b[2] as int];
      HalfOver(base, f1, b, Height, 3);
      if |b| >= 5 {
        OverSet(base, f1, Height, TwoBytes(b, 3));
        var f2 := f1[Height := TwoBytes(b, 3)];
        HalfOver(base, f2, b, Width, 5);
        if |b| >= 7 {
          OverSet(base, f2, Width, TwoBytes(b, 5));
          var f3 := f2[Width := TwoBytes(b, 5)];
          if |b| >= 8 {
            OverSet(base, f3, NumComponents, b[7] as int);
            SofCompsOver(base, f3[NumComponents := b[7] as int], b, 8, 0, b[7] as nat);
          }
        }
      }
    }
  }

  lemma SosTailOver(base: Fields, f: Fields, b: seq<byte>, pos: nat)
    ensures SosTail(base + f, b, pos) == Over(base, SosTail(f, b, pos))
  {
    if pos < |b| {
      OverSet(base, f, Ss, b[pos] as int);
      var f1 := f[Ss := b[pos] as int];
      if pos + 1 < |b| {
        OverSet(base, f1, Se, b[pos + 1] as int);
        var f2 := f1[Se := b[pos + 1] as int];
        if pos + 2 < |b| {
          var h, l := b[pos + 2] as int / 16, b[pos + 2] as int % 16;
          OverSet(base, f2, Ah, h);
          OverSet(base, f2[Ah := h], Al, l);
          OverSet(base, f2[Ah := h][Al := l], NextRestartNum, 0);
        }
      }
    }
  }

  lemma {:induction false} SosCompsOver(base: Fields, f: Fields, b: seq<byte>, pos: nat, i: nat, n: nat, ids: seq<int>)
    requires i <= n
    ensures SosComps(base + f, b, pos, i, n, ids) == Over(base, SosComps(f, b, pos, i, n, ids))
    decreases n - i
  {
    hide SosTail, FindId;
    if i == n {
      SosTailOver(base, f, b, pos);
    } else if pos + 2 <= |b| {
      var ci, c := FindId(ids, b[pos] as int, 0), b[pos + 1] as int;
      if ci < |ids| {
        OverSet(base, f, CurComp(i), ci);
        OverSet(base, f[CurComp(i) := ci], DcTblNo(ci), c / 16);
        OverSet(base, f[CurComp(i) := ci][DcTblNo(ci) := c / 16], AcTblNo(ci), c % 16);
        SosCompsOver(base, f[CurComp(i) := ci][DcTblNo(ci) := c / 16][AcTblNo(ci) := c % 16], b, pos + 2, i + 1, n, ids);
      }
    }
  }

  // ----- More bytes

  /** t is what a parser arrives at with more bytes than it had when it arrived at s. */
  predicate Later(s: Seg, t: Seg) {
    match s
    case Need(f) => t.Fail? || f.Keys <= t.f.Keys
    case _ => t == s
  }

  predicate Grows(f: Fields, s: Seg) {
    s.Fail? || f.Keys <= s.f.Keys
  }

  lemma {:induction false} QuantEntriesMore(f: Fields, b: seq<byte>, c: seq<byte>, pos: nat, n: nat, wide: bool, k: nat)
    requires k <= DCTSIZE2 && b <= c
    ensures Grows(f, QuantEntries(f, c, pos, n, wide, k))
    ensures Later(QuantEntries(f, b, pos, n, wide, k), QuantEntries(f, c, pos, n, wide, k))
    decreases DCTSIZE2 - k
  {
    hide Natural;
    var size := if wide then 2 else 1;
    if k < DCTSIZE2 && pos + size <= |c| {
      var v := if wide then TwoBytes(c, pos) else c[pos] as nat;
      QuantEntriesMore(f[QuantVal(n, Natural(k)) := v], b, c, pos + size, n, wide, k + 1);
    }
  }

  lemma {:induction false} QuantTablesMore(f: Fields, b: seq<byte>, c: seq<byte>, pos: nat, length: int)
    requires b <= c
    ensures Grows(f, QuantTables(f, c, pos, length)) && Later(QuantTables(f, b, pos, length), QuantTables(f, c, pos, length))
    decreases length
  {
    hide QuantEntries;
    if length > 0 && pos < |c| {
      var n, prec := c[pos] as nat % 16, c[pos] as nat / 16;
      if n < NUM_TBLS {
        QuantEntriesMore(f, b, c, pos + 1, n, prec != 0, 0);
        match QuantEntries(f, c, pos + 1, n, prec != 0, 0) {
          case Done(g, p) =>
            QuantTablesMore(g, b, c, p, length - (DCTSIZE2 + 1) - (if prec != 0 then DCTSIZE2 else 0));
          case _ =>
        }
      }
    }
  }

  lemma {:induction false} StoreCountsGrows(f: Fields, ac: bool, n: nat, counts: seq<byte>)
    ensures f.Keys <= StoreCounts(f, ac, n, counts).Keys
    decreases |counts|
  {
    if counts != [] {
      StoreCountsGrows(f, ac, n, counts[..|counts| - 1]);
    }
  }

  lemma {:induction false} StoreValuesGrows(f: Fields, ac: bool, n: nat, vals: seq<byte>)
    ensures f.Keys <= StoreValues(f, ac, n, vals).Keys
    decreases |vals|
  {
    if vals != [] {
      StoreValuesGrows(f, ac, n, vals[..|vals| - 1]);
    }
  }

  lemma {:induction false} HuffTablesMore(f: Fields, b: seq<byte>, c: seq<byte>, pos: nat, length: int)
    requires b <= c
    ensures Grows(f, HuffTables(f, c, pos, length)) && Later(HuffTables(f, b, pos, length), HuffTables(f, c, pos, length))
    decreases length
  {
    hide SumBytes, StoreCounts, StoreValues;
    if length > 16 && pos + 17 <= |c| {
      var index, counts := c[pos] as nat, c[pos + 1..pos + 17];
      if pos + 17 <= |b| {
        assert b[pos + 1..pos + 17] == counts;
      }
      var count := SumBytes(counts);
      if count <= 256 && count <= length - 17 && pos + 17 + count <= |c| {
        var ac := index / 16 % 2 == 1;
        var n := if ac then index - 16 else index;
        if n < NUM_TBLS {
          var vals := c[pos + 17..pos + 17 + count];
          if pos + 17 + count <= |b| {
            assert b[pos + 17..pos + 17 + count] == vals;
          }
          StoreCountsGrows(f, ac, n, counts);
          StoreValuesGrows(StoreCounts(f, ac, n, counts), ac, n, vals);
          HuffTablesMore(StoreHuff(f, ac, n, counts, vals), b, c, pos + 17 + count, length - 17 - count);
        }
      }
    }
  }

  lemma {:induction false} SofCompsMore(f: Fields, b: seq<byte>, c: seq<byte>, pos: nat, ci: nat, count: nat)
    requires ci <= count && b <= c
    ensures Grows(f, SofComps(f, c, pos, ci, count))
    ensures Later(SofComps(f, b, pos, ci, count), SofComps(f, c, pos, ci, count))
    decreases count - ci
  {
    if ci < count && pos + 2 < |c| {
      var f2 := f[CompId(ci) := c[pos] as int][HSamp(ci) := c[pos + 1] as int / 16][VSamp(ci) := c[pos + 1] as int % 16];
      SofCompsMore(f2[QuantNo(ci) := c[pos + 2] as int], b, c, pos + 3, ci + 1, count);
    }
  }

  lemma {:induction false} SosCompsMore(f: Fields, b: seq<byte>, c: seq<byte>, pos: nat, i: nat, n: nat, ids: seq<int>)
    requires i <= n && b <= c
    ensures Grows(f, SosComps(f, c, pos, i, n, ids))
    ensures Later(SosComps(f, b, pos, i, n, ids), SosComps(f, c, pos, i, n, ids))
    decreases n - i
  {
    hide FindId;
    if i < n && pos + 2 <= |c| {
      var ci, v := FindId(ids, c[pos] as int, 0), c[pos + 1] as int;
      if ci < |ids| {
        SosCompsMore(f[CurComp(i) := ci][DcTblNo(ci) := v / 16][AcTblNo(ci) := v % 16], b, c, pos + 2, i + 1, n, ids);
      }
    }
  }
}
