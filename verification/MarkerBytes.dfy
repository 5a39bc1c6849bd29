/**
 Marker segments as the compressor emits them (emit_dqt, emit_dht, emit_dri, emit_sof and emit_sos of jcmarker.c), and
 the proof that the decompressor's parsers read back what is in them.
 */
module MarkerBytes {
  import opened Bits
  import opened Wrappers
  import opened Coefficients
  import opened NaturalOrder
  import opened MarkerSegments

  type QuantTbl = q: seq<nat> | |q| == DCTSIZE2 && forall i :: 0 <= i < |q| ==> q[i] < 65536
    witness seq(DCTSIZE2, _ => 0)

  /** bits[1..16] and the values that they call for */
  datatype RawHuffDef = HuffDef(bits: seq<byte>, vals: seq<byte>)
  type HuffDef = d: RawHuffDef | |d.bits| == 16 && SumBytes(d.bits) == |d.vals| && |d.vals| <= 256
    witness HuffDef(seq(16, _ => 0), ZeroVals())

  function ZeroVals(): (v: seq<byte>)
    ensures SumBytes(seq(16, _ => 0)) == |v| && |v| <= 256
  {
    ZeroSum(16);
    []
  }

  lemma {:induction false} ZeroSum(n: nat)
    ensures SumBytes(seq(n, _ => 0)) == 0
  {
    if n > 0 {
      var s: seq<byte> := seq(n, _ => 0);
      var t: seq<byte> := seq(n - 1, _ => 0);
      assert s[..n - 1] == t;
      ZeroSum(n - 1);
    }
  }

  /** emit_2bytes */
  function Be(n: nat): (b: seq<byte>)
    requires n < 65536
    ensures |b| == 2 && TwoBytes(b, 0) == n
  {
    [n / 256, n % 256]
  }

  lemma BeAt(b: seq<byte>, pos: nat, n: nat, rest: seq<byte>)
    requires n < 65536 && pos <= |b| && b[pos..] == Be(n) + rest
    ensures pos + 2 <= |b| && TwoBytes(b, pos) == n && b[pos + 2..] == rest
  {
    assert b[pos..][0] == Be(n)[0] && b[pos..][1] == Be(n)[1];
    assert b[pos..][2..] == rest;
  }

  lemma ByteAt(b: seq<byte>, pos: nat, v: byte, rest: seq<byte>)
    requires pos <= |b| && b[pos..] == [v] + rest
    ensures pos < |b| && b[pos] == v && b[pos + 1..] == rest
  {
    assert b[pos..][0] == v;
    assert b[pos..][1..] == rest;
  }

  // ----- DRI

  function DriBody(interval: nat): seq<byte>
    requires interval < 65536
  {
    Be(4) + Be(interval)
  }

  lemma DriRead(f: Fields, interval: nat, tail: seq<byte>)
    requires interval < 65536
    ensures GetDri(f, DriBody(interval) + tail) == Done(f[RestartInterval := interval], |DriBody(interval)|)
  {
    var b := DriBody(interval) + tail;
    assert b[0..] == Be(4) + (Be(interval) + tail);
    BeAt(b, 0, 4, Be(interval) + tail);
    BeAt(b, 2, interval, tail);
  }

  // ----- DQT

  predicate Wide(q: QuantTbl) {
    exists i :: 0 <= i < |q| && q[i] > 255
  }

  function QuantBytes(q: QuantTbl, wide: bool, k: nat): (b: seq<byte>)
    requires k <= DCTSIZE2
    ensures |b| == (DCTSIZE2 - k) * (if wide then 2 else 1)
    decreases DCTSIZE2 - k
  {
    if k == DCTSIZE2 then []
    else
      var v := q[Natural(k)];
      (if wide then [v / 256, v % 256] else [v % 256]) + QuantBytes(q, wide, k + 1)
  }

  function DqtBody(n: nat, q: QuantTbl): seq<byte>
    requires n < NUM_TBLS
  {
    Be(if Wide(q) then 2 * DCTSIZE2 + 3 else DCTSIZE2 + 3) + ([n + if Wide(q) then 16 else 0] + QuantBytes(q, Wide(q), 0))
  }

  /** Entries k.. in zigzag order of table n */
  function QuantCells(n: nat, q: QuantTbl, k: nat): Fields {
    map j: nat | j < DCTSIZE2 && Zigzag(j) >= k :: QuantVal(n, j) := q[j]
  }

  lemma QuantCellIn(n: nat, q: QuantTbl, k: nat, c: Cell)
    ensures c in QuantCells(n, q, k) <==> c.QuantVal? && c.n == n && c.k < DCTSIZE2 && Zigzag(c.k) >= k
    ensures c in QuantCells(n, q, k) ==> QuantCells(n, q, k)[c] == q[c.k]
  {
    hide Zigzag;
  }

  lemma QuantCellsStep(f: Fields, n: nat, q: QuantTbl, k: nat)
    requires k < DCTSIZE2
    ensures f[QuantVal(n, Natural(k)) := q[Natural(k)]] + QuantCells(n, q, k + 1) == f + QuantCells(n, q, k)
    ensures f + QuantCells(n, q, DCTSIZE2) == f
  {
    hide Natural, Zigzag, QuantCells;
    ZigzagOfNatural(k);
    var l, r := f[QuantVal(n, Natural(k)) := q[Natural(k)]] + QuantCells(n, q, k + 1), f + QuantCells(n, q, k);
    forall c: Cell
      ensures (c in l <==> c in r) && (c in l ==> l[c] == r[c]) && c !in QuantCells(n, q, DCTSIZE2)
    {
      QuantCellIn(n, q, k, c);
      QuantCellIn(n, q, k + 1, c);
      QuantCellIn(n, q, DCTSIZE2, c);
      if c.QuantVal? && c.k < DCTSIZE2 {
        ZigzagOfNatural(c.k);
      }
    }
    assert l == r;
  }

  lemma {:induction false} QuantRead(f: Fields, b: seq<byte>, pos: nat, n: nat, q: QuantTbl, wide: bool, k: nat, tail: seq<byte>)
    requires k <= DCTSIZE2 && pos <= |b| && b[pos..] == QuantBytes(q, wide, k) + tail && (Wide(q) ==> wide)
    ensures QuantEntries(f, b, pos, n, wide, k) == Done(f + QuantCells(n, q, k), |b| - |tail|)
    decreases DCTSIZE2 - k
  {
    hide Natural, QuantCells, Wide;
    if k == DCTSIZE2 {
      QuantCellsStep(f, n, q, 0);
    } else {
      var v := q[Natural(k)];
      var more := QuantBytes(q, wide, k + 1) + tail;
      QuantCellsStep(f, n, q, k);
      if wide {
        assert b[pos..] == Be(v) + more;
        BeAt(b, pos, v, more);
        QuantRead(f[QuantVal(n, Natural(k)) := v], b, pos + 2, n, q, wide, k + 1, tail);
      } else {
        NarrowEntry(q, Natural(k));
        assert b[pos..] == [v] + more;
        ByteAt(b, pos, v, more);
        QuantRead(f[QuantVal(n, Natural(k)) := v], b, pos + 1, n, q, wide, k + 1, tail);
      }
    }
  }

  lemma NarrowEntry(q: QuantTbl, i: nat)
    requires i < DCTSIZE2 && !Wide(q)
    ensures q[i] < 256
  {
  }

  lemma DqtRead(f: Fields, n: nat, q: QuantTbl, tail: seq<byte>)
    requires n < NUM_TBLS
    ensures GetDqt(f, DqtBody(n, q) + tail) == Done(f + QuantCells(n, q, 0), |DqtBody(n, q)|)
  {
    hide QuantCells, Wide, QuantEntries, QuantBytes;
    var b, wide := DqtBody(n, q) + tail, Wide(q);
    var length, index := if wide then 2 * DCTSIZE2 + 3 else DCTSIZE2 + 3, n + if wide then 16 else 0;
    var more := QuantBytes(q, wide, 0) + tail;
    assert b[0..] == Be(length) + ([index] + more);
    BeAt(b, 0, length, [index] + more);
    ByteAt(b, 2, index, more);
    QuantRead(f, b, 3, n, q, wide, 0, tail);
    var end := |b| - |tail|;
    assert index % 16 == n && (index / 16 != 0) == wide;
    assert QuantTables(f + QuantCells(n, q, 0), b, end, 0) == Done(f + QuantCells(n, q, 0), end);
    assert QuantTables(f, b, 2, length - 2) == QuantTables(f + QuantCells(n, q, 0), b, end, 0);
  }

  // ----- DHT

  function DhtBody(ac: bool, n: nat, d: HuffDef): seq<byte>
    requires n < NUM_TBLS
  {
    Be(|d.vals| + 19) + ([n + if ac then 16 else 0] + (d.bits + d.vals))
  }

  lemma DhtRead(f: Fields, ac: bool, n: nat, d: HuffDef, tail: seq<byte>)
    requires n < NUM_TBLS
    ensures GetDht(f, DhtBody(ac, n, d) + tail) == Done(StoreHuff(f, ac, n, d.bits, d.vals), |DhtBody(ac, n, d)|)
  {
    hide StoreHuff, SumBytes;
    var b, index := DhtBody(ac, n, d) + tail, n + if ac then 16 else 0;
    var more := d.bits + d.vals + tail;
    assert b[0..] == Be(|d.vals| + 19) + ([index] + more);
    BeAt(b, 0, |d.vals| + 19, [index] + more);
    ByteAt(b, 2, index, more);
    assert b[3..19] == b[3..][..16] == d.bits;
    assert b[19..19 + |d.vals|] == b[3..][16..16 + |d.vals|] == d.vals;
    assert |b| == 19 + |d.vals| + |tail|;
    var g, end := StoreHuff(f, ac, n, d.bits, d.vals), 19 + |d.vals|;
    assert HuffTables(g, b, end, 0) == Done(g, end);
    assert HuffTables(f, b, 2, |d.vals| + 17) == HuffTables(g, b, end, 0);
  }

  /** The table is in the fields. */
  ghost predicate HuffIn(f: Fields, ac: bool, n: nat, d: HuffDef) {
    && (forall i: nat :: 1 <= i <= 16 ==> HuffCount(ac, n, i) in f && f[HuffCount(ac, n, i)] == d.bits[i - 1])
    && forall i: nat :: i < |d.vals| ==> HuffValue(ac, n, i) in f && f[HuffValue(ac, n, i)] == d.vals[i]
  }

  lemma {:induction false} CountsStored(f: Fields, ac: bool, n: nat, counts: seq<byte>, c: Cell)
    ensures var g := StoreCounts(f, ac, n, counts);
      if c.HuffCount? && c.ac == ac && c.n == n && 1 <= c.i <= |counts| then c in g && g[c] == counts[c.i - 1]
      else (c in g <==> c in f) && (c in f ==> g[c] == f[c])
    decreases |counts|
  {
    if counts != [] {
      CountsStored(f, ac, n, counts[..|counts| - 1], c);
    }
  }

  lemma {:induction false} ValuesStored(f: Fields, ac: bool, n: nat, vals: seq<byte>, c: Cell)
    ensures var g := StoreValues(f, ac, n, vals);
      if c.HuffValue? && c.ac == ac && c.n == n && c.i < |vals| then c in g && g[c] == vals[c.i]
      else (c in g <==> c in f) && (c in f ==> g[c] == f[c])
    decreases |vals|
  {
    if vals != [] {
      ValuesStored(f, ac, n, vals[..|vals| - 1], c);
    }
  }

  predicate IsHuffCell(c: Cell, ac: bool, n: nat) {
    (c.HuffCount? && c.ac == ac && c.n == n) || (c.HuffValue? && c.ac == ac && c.n == n)
  }

  /** Nothing changes but the cells of one Huffman table. */
  lemma HuffStored(f: Fields, ac: bool, n: nat, d: HuffDef, c: Cell)
    ensures var g := StoreHuff(f, ac, n, d.bits, d.vals);
      && HuffIn(g, ac, n, d)
      && (!IsHuffCell(c, ac, n) ==> (c in g <==> c in f) && (c in f ==> g[c] == f[c]))
  {
    hide StoreCounts, StoreValues;
    var g, h := StoreHuff(f, ac, n, d.bits, d.vals), StoreCounts(f, ac, n, d.bits);
    forall x: Cell
      ensures x.HuffCount? && x.ac == ac && x.n == n && 1 <= x.i <= 16 ==> x in g && g[x] == d.bits[x.i - 1]
      ensures x.HuffValue? && x.ac == ac && x.n == n && x.i < |d.vals| ==> x in g && g[x] == d.vals[x.i]
    {
      CountsStored(f, ac, n, d.bits, x);
      ValuesStored(h, ac, n, d.vals, x);
    }
    CountsStored(f, ac, n, d.bits, c);
    ValuesStored(h, ac, n, d.vals, c);
  }

  // ----- SOF

  datatype RawComp = Comp(id: byte, h: nat, v: nat, tq: nat, dcTbl: nat, acTbl: nat)

  /** A component as the frame header describes it */
  type Comp = c: RawComp | 1 <= c.h <= 4 && 1 <= c.v <= 4 && c.tq < NUM_TBLS && c.dcTbl < NUM_TBLS && c.acTbl < NUM_TBLS
    witness Comp(0, 1, 1, 0, 0, 0)

  function CompBytes(cs: seq<Comp>): (b: seq<byte>)
    ensures |b| == 3 * |cs|
  {
    if cs == [] then [] else [cs[0].id, cs[0].h * 16 + cs[0].v, cs[0].tq] + CompBytes(cs[1..])
  }

  function SofBody(precision: byte, height: nat, width: nat, cs: seq<Comp>): seq<byte>
    requires height < 65536 && width < 65536 && |cs| < 256
  {
    Be(3 * |cs| + 8) + ([precision] + (Be(height) + (Be(width) + ([|cs|] + CompBytes(cs)))))
  }

  /** Component ci and the ones behind it, in the fields */
  function CompCells(f: Fields, cs: seq<Comp>, ci: nat): Fields
    decreases |cs|
  {
    if cs == [] then f
    else CompCells(f[CompId(ci) := cs[0].id][HSamp(ci) := cs[0].h][VSamp(ci) := cs[0].v][QuantNo(ci) := cs[0].tq],
                   cs[1..], ci + 1)
  }

  lemma {:induction false} CompsRead(f: Fields, b: seq<byte>, pos: nat, cs: seq<Comp>, ci: nat, tail: seq<byte>)
    requires pos <= |b| && b[pos..] == CompBytes(cs) + tail
    ensures SofComps(f, b, pos, ci, ci + |cs|) == Done(CompCells(f, cs, ci), |b| - |tail|)
    decreases |cs|
  {
    if cs != [] {
      var c := cs[0];
      var more := CompBytes(cs[1..]) + tail;
      assert b[pos..] == [c.id] + ([c.h * 16 + c.v] + ([c.tq] + more));
      ByteAt(b, pos, c.id, [c.h * 16 + c.v] + ([c.tq] + more));
      ByteAt(b, pos + 1, c.h * 16 + c.v, [c.tq] + more);
      ByteAt(b, pos + 2, c.tq, more);
      CompsRead(f[CompId(ci) := c.id][HSamp(ci) := c.h][VSamp(ci) := c.v][QuantNo(ci) := c.tq], b, pos + 3, cs[1..], ci + 1, tail);
    }
  }

  function SofCells(f: Fields, progressive: bool, precision: byte, height: nat, width: nat, cs: seq<Comp>): Fields {
    CompCells(f[Progressive := ToInt(progressive)][Arith := 0][Precision := precision][Height := height][Width := width]
              [NumComponents := |cs|], cs, 0)
  }

  lemma SofRead(f: Fields, progressive: bool, precision: byte, height: nat, width: nat, cs: seq<Comp>, tail: seq<byte>)
    requires 0 < height < 65536 && 0 < width < 65536 && 0 < |cs| < 256
    ensures GetSof(f, SofBody(precision, height, width, cs) + tail, progressive, false, false)
         == Done(SofCells(f, progressive, precision, height, width, cs), |SofBody(precision, height, width, cs)|)
  {
    hide CompCells, CompBytes, SofComps;
    var b := SofBody(precision, height, width, cs) + tail;
    var m4 := CompBytes(cs) + tail;
    var m3 := [|cs|] + m4;
    var m2 := Be(width) + m3;
    var m1 := Be(height) + m2;
    assert b[0..] == Be(3 * |cs| + 8) + ([precision] + m1);
    BeAt(b, 0, 3 * |cs| + 8, [precision] + m1);
    ByteAt(b, 2, precision, m1);
    BeAt(b, 3, height, m2);
    BeAt(b, 5, width, m3);
    ByteAt(b, 7, |cs|, m4);
    CompsRead(f[Progressive := ToInt(progressive)][Arith := 0][Precision := precision][Height := height][Width := width]
              [NumComponents := |cs|], b, 8, cs, 0, tail);
  }

  // ----- SOS

  /** A component of a scan: its number, its id and the tables named for it */
  datatype RawSpec = Spec(ci: nat, id: byte, td: nat, ta: nat)
  type Spec = s: RawSpec | s.td < 16 && s.ta < 16 witness Spec(0, 0, 0, 0)

  function SpecBytes(ss: seq<Spec>): (b: seq<byte>)
    ensures |b| == 2 * |ss|
  {
    if ss == [] then [] else [ss[0].id, ss[0].td * 16 + ss[0].ta] + SpecBytes(ss[1..])
  }

  function SosBody(ss: seq<Spec>, from: byte, to: byte, ah: nat, al: nat): seq<byte>
    requires |ss| < 256 && ah < 16 && al < 16
  {
    Be(2 * |ss| + 6) + ([|ss|] + (SpecBytes(ss) + [from, to, ah * 16 + al]))
  }

  function SpecCells(f: Fields, ss: seq<Spec>, i: nat): Fields
    decreases |ss|
  {
    if ss == [] then f
    else SpecCells(f[CurComp(i) := ss[0].ci][DcTblNo(ss[0].ci) := ss[0].td][AcTblNo(ss[0].ci) := ss[0].ta], ss[1..], i + 1)
  }

  function SosCells(f: Fields, ss: seq<Spec>, from: byte, to: byte, ah: nat, al: nat): Fields {
    SpecCells(f[CompsInScan := |ss|], ss, 0)[Ss := from][Se := to][Ah := ah][Al := al][NextRestartNum := 0]
  }

  /** The ids lead to the components meant. */
  predicate SpecsNamed(ids: seq<int>, ss: seq<Spec>) {
    forall i :: 0 <= i < |ss| ==> ss[i].ci < |ids| && FindId(ids, ss[i].id, 0) == ss[i].ci
  }

  lemma {:induction false} SpecsRead(f: Fields, b: seq<byte>, pos: nat, ss: seq<Spec>, i: nat, ids: seq<int>,
                                     from: byte, to: byte, ah: nat, al: nat, tail: seq<byte>)
    requires pos <= |b| && ah < 16 && al < 16 && b[pos..] == SpecBytes(ss) + ([from, to, ah * 16 + al] + tail)
    requires SpecsNamed(ids, ss)
    ensures SosComps(f, b, pos, i, i + |ss|, ids)
         == Done(SpecCells(f, ss, i)[Ss := from][Se := to][Ah := ah][Al := al][NextRestartNum := 0], |b| - |tail|)
    decreases |ss|
  {
    hide FindId;
    if ss == [] {
      assert b[pos..] == [from] + ([to] + ([ah * 16 + al] + tail));
      ByteAt(b, pos, from, [to] + ([ah * 16 + al] + tail));
      ByteAt(b, pos + 1, to, [ah * 16 + al] + tail);
      ByteAt(b, pos + 2, ah * 16 + al, tail);
    } else {
      var s := ss[0];
      var more := SpecBytes(ss[1..]) + ([from, to, ah * 16 + al] + tail);
      assert b[pos..] == [s.id] + ([s.td * 16 + s.ta] + more);
      ByteAt(b, pos, s.id, [s.td * 16 + s.ta] + more);
      ByteAt(b, pos + 1, s.td * 16 + s.ta, more);
      SpecsRead(f[CurComp(i) := s.ci][DcTblNo(s.ci) := s.td][AcTblNo(s.ci) := s.ta], b, pos + 2, ss[1..], i + 1, ids,
                from, to, ah, al, tail);
    }
  }

  lemma SosRead(f: Fields, ids: seq<int>, ss: seq<Spec>, from: byte, to: byte, ah: nat, al: nat, tail: seq<byte>)
    requires 1 <= |ss| <= MAX_COMPS_IN_SCAN && ah < 16 && al < 16 && SpecsNamed(ids, ss)
    ensures GetSos(f, SosBody(ss, from, to, ah, al) + tail, true, ids)
         == Done(SosCells(f, ss, from, to, ah, al), |SosBody(ss, from, to, ah, al)|)
  {
    hide SpecBytes, SpecCells, SosComps, FindId;
    var b := SosBody(ss, from, to, ah, al) + tail;
    var more := SpecBytes(ss) + ([from, to, ah * 16 + al] + tail);
    assert b[0..] == Be(2 * |ss| + 6) + ([|ss|] + more);
    BeAt(b, 0, 2 * |ss| + 6, [|ss|] + more);
    ByteAt(b, 2, |ss|, more);
    SpecsRead(f[CompsInScan := |ss|], b, 3, ss, 0, ids, from, to, ah, al, tail);
  }
}
