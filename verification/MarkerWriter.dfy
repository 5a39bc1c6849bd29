/**
 Frame and scan headers as jcmarker.c writes them: which segments are emitted, and which tables are suppressed because
 they have been sent already.
 */
module MarkerWriter {
  import opened Bits
  import opened Wrappers
  import opened Coefficients
  import opened NaturalOrder
  import opened MarkerSegments
  import opened MarkerParsing
  import opened MarkerBytes

  datatype QuantSlot = QuantSlot(q: QuantTbl, sent: bool)
  datatype HuffSlot = HuffSlot(d: HuffDef, sent: bool)

  /** The Huffman tables are named by class (AC or not) and number. */
  datatype Enc = Enc(quant: map<nat, QuantSlot>, huff: map<(bool, nat), HuffSlot>, comps: seq<Comp>, progressive: bool,
                     precision: byte, height: nat, width: nat, interval: nat, lastInterval: nat)

  datatype ScanSpec = Scan(comps: seq<nat>, ss: byte, se: byte, ah: nat, al: nat)

  predicate EncOk(e: Enc) {
    && 1 <= |e.comps| <= MAX_COMPONENTS && e.height > 0 && e.width > 0 && e.interval < 65536
    && (forall i, j :: 0 <= i < j < |e.comps| ==> e.comps[i].id != e.comps[j].id)
  }

  predicate ScanOk(e: Enc, s: ScanSpec) {
    && 1 <= |s.comps| <= MAX_COMPS_IN_SCAN && s.ah < 16 && s.al < 16
    && forall i :: 0 <= i < |s.comps| ==> s.comps[i] < |e.comps|
  }

  /** What a routine emits, and the state it leaves */
  datatype Emitted = Emitted(e: Enc, bytes: seq<byte>)

  function Segment(m: byte, body: seq<byte>): seq<byte> {
    [0xFF, m] + body
  }

  function DqtOf(e: Enc, n: nat): Result<Emitted>
    requires n < NUM_TBLS
  {
    if n !in e.quant then Err(NoQuantTable)
    else if e.quant[n].sent then Ok(Emitted(e, []))
    else Ok(Emitted(e.(quant := e.quant[n := e.quant[n].(sent := true)]), Segment(M_DQT, DqtBody(n, e.quant[n].q))))
  }

  function DqtsOf(e: Enc, cs: seq<Comp>): (r: Result<Emitted>)
    ensures r.Ok? ==> r.value.e == e.(quant := r.value.e.quant)
    decreases |cs|
  {
    if cs == [] then Ok(Emitted(e, []))
    else
      var x :- DqtsOf(e, cs[..|cs| - 1]);
      var y :- DqtOf(x.e, cs[|cs| - 1].tq);
      Ok(Emitted(y.e, x.bytes + y.bytes))
  }

  /** Whether any component's quantization table has 16-bit entries */
  predicate AnyWide(e: Enc, cs: seq<Comp>) {
    exists i :: 0 <= i < |cs| && cs[i].tq in e.quant && Wide(e.quant[cs[i].tq].q)
  }

  function SofCode(e: Enc): byte {
    if e.progressive then M_SOF2
    else if e.precision == 8 && (forall i :: 0 <= i < |e.comps| ==> e.comps[i].dcTbl <= 1 && e.comps[i].acTbl <= 1)
            && !AnyWide(e, e.comps) then M_SOF0
    else M_SOF1
  }

  /** write_frame_header */
  function FrameHeader(e: Enc): (r: Result<Emitted>)
    requires EncOk(e)
    ensures r.Ok? ==> r.value.e == e.(quant := r.value.e.quant)
  {
    var x :- DqtsOf(e, e.comps);
    if e.height > 65535 || e.width > 65535 then Err(ImageTooBig)
    else Ok(Emitted(x.e, x.bytes + Segment(SofCode(e), SofBody(e.precision, e.height, e.width, e.comps))))
  }

  function DhtOf(e: Enc, ac: bool, n: nat): Result<Emitted>
    requires n < NUM_TBLS
  {
    if (ac, n) !in e.huff then Err(NoHuffTable)
    else if e.huff[(ac, n)].sent then Ok(Emitted(e, []))
    else Ok(Emitted(e.(huff := e.huff[(ac, n) := e.huff[(ac, n)].(sent := true)]),
                    Segment(M_DHT, DhtBody(ac, n, e.huff[(ac, n)].d))))
  }

  predicate NeedsDc(e: Enc, s: ScanSpec) {
    !e.progressive || (s.ss == 0 && s.ah == 0)
  }

  predicate NeedsAc(e: Enc, s: ScanSpec) {
    !e.progressive || s.ss != 0
  }

  function TablesOf(e: Enc, s: ScanSpec, c: Comp): (r: Result<Emitted>)
    ensures r.Ok? ==> r.value.e == e.(huff := r.value.e.huff)
  {
    var x :- if NeedsDc(e, s) then DhtOf(e, false, c.dcTbl) else Ok(Emitted(e, []));
    var y :- if NeedsAc(e, s) then DhtOf(x.e, true, c.acTbl) else Ok(Emitted(x.e, []));
    Ok(Emitted(y.e, x.bytes + y.bytes))
  }

  /** The tables of the first n components of the scan */
  function DhtsOf(e: Enc, s: ScanSpec, n: nat): (r: Result<Emitted>)
    requires ScanOk(e, s) && n <= |s.comps|
    ensures r.Ok? ==> r.value.e == e.(huff := r.value.e.huff)
  {
    if n == 0 then Ok(Emitted(e, []))
    else
      var x :- DhtsOf(e, s, n - 1);
      var y :- TablesOf(x.e, s, x.e.comps[s.comps[n - 1]]);
      Ok(Emitted(y.e, x.bytes + y.bytes))
  }

  function SpecOf(e: Enc, s: ScanSpec, ci: nat): Spec
    requires ci < |e.comps|
  {
    var c := e.comps[ci];
    Spec(ci, c.id, if NeedsDc(e, s) then c.dcTbl else 0, if NeedsAc(e, s) then c.acTbl else 0)
  }

  function Specs(e: Enc, s: ScanSpec, n: nat): (r: seq<Spec>)
    requires ScanOk(e, s) && n <= |s.comps|
    ensures |r| == n && forall i :: 0 <= i < n ==> r[i] == SpecOf(e, s, s.comps[i])
  {
    if n == 0 then [] else Specs(e, s, n - 1) + [SpecOf(e, s, s.comps[n - 1])]
  }

  function DriOf(e: Enc): Emitted
    requires e.interval < 65536
  {
    if e.interval != e.lastInterval then Emitted(e.(lastInterval := e.interval), Segment(M_DRI, DriBody(e.interval)))
    else Emitted(e, [])
  }

  function SosOf(e: Enc, s: ScanSpec): seq<byte>
    requires ScanOk(e, s)
  {
    Segment(M_SOS, SosBody(Specs(e, s, |s.comps|), s.ss, s.se, s.ah, s.al))
  }

  /** write_scan_header */
  function ScanHeader(e: Enc, s: ScanSpec): Result<Emitted>
    requires EncOk(e) && ScanOk(e, s)
  {
    var x :- DhtsOf(e, s, |s.comps|);
    var y := DriOf(x.e);
    Ok(Emitted(y.e, x.bytes + (y.bytes + SosOf(e, s))))
  }

  // ----- The marker writer

  class MarkerWriter {
    var quant: map<nat, QuantSlot>
    var huff: map<(bool, nat), HuffSlot>
    var comps: seq<Comp>
    var progressive: bool
    var precision: byte
    var height: nat
    var width: nat
    var restartInterval: nat
    var lastRestartInterval: nat
    var out: seq<byte>

    function State(): Enc
      reads this
    {
      Enc(quant, huff, comps, progressive, precision, height, width, restartInterval, lastRestartInterval)
    }

    constructor (e: Enc)
      ensures State() == e && out == []
    {
      quant, huff, comps := e.quant, e.huff, e.comps;
      progressive, precision, height, width := e.progressive, e.precision, e.height, e.width;
      restartInterval, lastRestartInterval, out := e.interval, e.lastInterval, [];
    }

    method EmitByte(val: byte)
      modifies this`out
      ensures out == old(out) + [val]
    {
      out := out + [val];
    }

    method EmitMarker(mark: byte)
      modifies this`out
      ensures out == old(out) + [0xFF, mark]
    {
      EmitByte(0xFF);
      EmitByte(mark);
    }

    method Emit2Bytes(value: nat)
      requires value < 65536
      modifies this`out
      ensures out == old(out) + Be(value)
    {
      EmitByte(value / 256);
      EmitByte(value % 256);
    }

    method EmitEntry(v: nat, wide: bool)
      requires v < 65536
      modifies this`out
      ensures out == old(out) + if wide then [v / 256, v % 256] else [v % 256]
    {
      if wide {
        EmitByte(v / 256);
      }
      EmitByte(v % 256);
    }

    /** The entries of a quantization table, in zigzag order */
    method EmitEntries(q: QuantTbl, wide: bool)
      modifies this`out
      ensures out == old(out) + QuantBytes(q, wide, 0)
    {
      hide Natural;
      var i := 0;
      while i < DCTSIZE2
        invariant i <= DCTSIZE2 && out + QuantBytes(q, wide, i) == old(out) + QuantBytes(q, wide, 0)
      {
        var v := q[Natural(i)];
        ghost var had, rest := out, QuantBytes(q, wide, i + 1);
        ghost var b := if wide then [v / 256, v % 256] else [v % 256];
        EmitEntry(v, wide);
        assert had + (b + rest) == had + b + rest;
        i := i + 1;
      }
      assert out + [] == out;
    }

    method IsWide(q: QuantTbl) returns (wide: bool)
      ensures wide == Wide(q)
    {
      wide := false;
      for i := 0 to DCTSIZE2
        invariant wide <==> exists j :: 0 <= j < i && q[j] > 255
      {
        if q[i] > 255 {
          wide := true;
        }
      }
    }

    method EmitDqt(index: nat) returns (st: Result<bool>)
      requires index < NUM_TBLS
      modifies this`out, this`quant
      ensures match DqtOf(old(State()), index)
              case Ok(x) => st == Ok(Wide(old(quant)[index].q)) && State() == x.e && out == old(out) + x.bytes
              case Err(e) => st == Err(e)
    {
      hide Wide, QuantBytes;
      if index !in quant {
        return Err(NoQuantTable);
      }
      var q := quant[index].q;
      var wide := IsWide(q);
      if !quant[index].sent {
        EmitMarker(M_DQT);
        Emit2Bytes(if wide then DCTSIZE2 * 2 + 1 + 2 else DCTSIZE2 + 1 + 2);
        EmitByte(index + if wide then 16 else 0);
        EmitEntries(q, wide);
        quant := quant[index := quant[index].(sent := true)];
      }
      return Ok(wide);
    }

    method EmitBytes(s: seq<byte>)
      modifies this`out
      ensures out == old(out) + s
    {
      for i := 0 to |s|
        invariant out == old(out) + s[..i]
      {
        EmitByte(s[i]);
      }
    }

    method EmitDht(ac: bool, index: nat) returns (st: Result<()>)
      requires index < NUM_TBLS
      modifies this`out, this`huff
      ensures match DhtOf(old(State()), ac, index)
              case Ok(x) => st.Ok? && State() == x.e && out == old(out) + x.bytes
              case Err(e) => st == Err(e)
    {
      hide SumBytes;
      if (ac, index) !in huff {
        return Err(NoHuffTable);
      }
      var d := huff[(ac, index)].d;
      if !huff[(ac, index)].sent {
        EmitMarker(M_DHT);
        var length := CountLength(d.bits);
        Emit2Bytes(length + 2 + 1 + 16);
        EmitByte(index + if ac then 0x10 else 0);
        EmitBytes(d.bits);
        EmitBytes(d.vals);
        huff := huff[(ac, index) := huff[(ac, index)].(sent := true)];
      }
      return Ok(());
    }

    method CountLength(bits: seq<byte>) returns (length: nat)
      ensures length == SumBytes(bits)
    {
      length := 0;
      for i := 0 to |bits|
        invariant length == SumBytes(bits[..i])
      {
        assert bits[..i + 1][..i] == bits[..i];
        length := length + bits[i];
      }
      assert bits[..|bits|] == bits;
    }

    method EmitDri()
      requires restartInterval < 65536
      modifies this`out
      ensures out == old(out) + Segment(M_DRI, DriBody(restartInterval))
    {
      EmitMarker(M_DRI);
      Emit2Bytes(4);
      Emit2Bytes(restartInterval);
    }

    method EmitSof(code: byte) returns (st: Result<()>)
      requires |comps| <= MAX_COMPONENTS
      modifies this`out
      ensures st == if height > 65535 || width > 65535 then Err(ImageTooBig) else Ok(())
      ensures st.Ok? ==> out == old(out) + Segment(code, SofBody(precision, height, width, comps))
    {
      EmitMarker(code);
      Emit2Bytes(3 * |comps| + 2 + 5 + 1);
      if height > 65535 || width > 65535 {
        return Err(ImageTooBig);
      }
      EmitByte(precision);
      Emit2Bytes(height);
      Emit2Bytes(width);
      EmitByte(|comps|);
      EmitComps();
      return Ok(());
    }

    method EmitComps()
      modifies this`out
      ensures out == old(out) + CompBytes(comps)
    {
      var ci := 0;
      while ci < |comps|
        invariant ci <= |comps| && out + CompBytes(comps[ci..]) == old(out) + CompBytes(comps)
      {
        ghost var had, rest := out, CompBytes(comps[ci + 1..]);
        EmitComp(comps[ci]);
        assert comps[ci..][1..] == comps[ci + 1..];
        ghost var c := [comps[ci].id, comps[ci].h * 16 + comps[ci].v, comps[ci].tq];
        assert had + (c + rest) == had + c + rest;
        ci := ci + 1;
      }
      assert out + [] == out;
    }

    method EmitComp(c: Comp)
      modifies this`out
      ensures out == old(out) + [c.id, c.h * 16 + c.v, c.tq]
    {
      EmitByte(c.id);
      EmitByte(c.h * 16 + c.v);
      EmitByte(c.tq);
    }

    method EmitSos(s: ScanSpec)
      requires ScanOk(State(), s)
      modifies this`out
      ensures out == old(out) + SosOf(State(), s)
    {
      hide SpecOf, SpecBytes, Specs;
      EmitMarker(M_SOS);
      Emit2Bytes(2 * |s.comps| + 2 + 1 + 3);
      EmitByte(|s.comps|);
      EmitSpecs(s);
      EmitByte(s.ss);
      EmitByte(s.se);
      EmitByte(s.ah * 16 + s.al);
    }

    method EmitSpecs(s: ScanSpec)
      requires ScanOk(State(), s)
      modifies this`out
      ensures out == old(out) + SpecBytes(Specs(State(), s, |s.comps|))
    {
      hide SpecOf, SpecBytes;
      ghost var specs := Specs(State(), s, |s.comps|);
      SpecBytesEnd(specs);
      var i := 0;
      while i < |s.comps|
        invariant i <= |s.comps| && out + SpecBytes(specs[i..]) == old(out) + SpecBytes(specs)
      {
        ghost var had, rest := out, SpecBytes(specs[i + 1..]);
        SpecBytesAt(specs, i);
        EmitSpec(s, s.comps[i]);
        ghost var b := [specs[i].id, specs[i].td * 16 + specs[i].ta];
        assert had + (b + rest) == had + b + rest;
        i := i + 1;
      }
      assert out + [] == out;
    }

    /** In a progressive scan, the fields of tables that it does not use are zero. */
    method EmitSpec(s: ScanSpec, ci: nat)
      requires ci < |comps|
      modifies this`out
      ensures var p := SpecOf(State(), s, ci); out == old(out) + [p.id, p.td * 16 + p.ta]
    {
      var c := comps[ci];
      var td, ta := c.dcTbl, c.acTbl;
      if progressive {
        if s.ss == 0 {
          ta := 0;
          if s.ah != 0 {
            td := 0;
          }
        } else {
          td := 0;
        }
      }
      EmitByte(c.id);
      EmitByte(td * 16 + ta);
    }

    /** The quantization tables of all components; the result tells whether any has 16-bit entries. */
    method EmitAllDqts() returns (st: Result<bool>)
      modifies this`out, this`quant
      ensures match DqtsOf(old(State()), comps)
              case Ok(x) => st == Ok(AnyWide(old(State()), comps)) && State() == x.e && out == old(out) + x.bytes
              case Err(e) => st == Err(e)
    {
      hide Wide, AnyWide, DqtsOf, DqtOf;
      ghost var e, sent := State(), [];
      var prec, ci := false, 0;
      NoneWide(e);
      assert comps[..0] == [];
      while ci < |comps|
        invariant ci <= |comps| && DqtsOf(e, comps[..ci]) == Ok(Emitted(State(), sent)) && out == old(out) + sent
        invariant prec == AnyWide(e, comps[..ci])
      {
        ghost var had := State();
        DqtsMore(e, had, sent, comps, ci);
        var r := EmitDqt(comps[ci].tq);
        if r.Err? {
          return r;
        }
        ghost var x := DqtOf(had, comps[ci].tq).value;
        OneMoreWide(e, had, comps, ci);
        assert old(out) + sent + x.bytes == old(out) + (sent + x.bytes);
        sent := sent + x.bytes;
        prec := prec || r.value;
        ci := ci + 1;
      }
      assert comps[..|comps|] == comps;
      return Ok(prec);
    }

    /** write_frame_header */
    method WriteFrameHeader() returns (st: Result<()>)
      requires EncOk(State())
      modifies this`out, this`quant
      ensures match FrameHeader(old(State()))
              case Ok(x) => st.Ok? && State() == x.e && out == old(out) + x.bytes
              case Err(e) => st == Err(e)
    {
      hide AnyWide, DqtsOf, SofBody, SameTables;
      ghost var e := State();
      DqtsKeep(e, comps);
      var r := EmitAllDqts();
      if r.Err? {
        return Err(r.error);
      }
      ghost var x := DqtsOf(e, comps).value;
      KeptFields(e, x.e);
      var code := M_SOF1;
      if progressive {
        code := M_SOF2;
      } else if precision == 8 && !r.value {
        var baseline := true;
        for i := 0 to |comps|
          invariant baseline <==> forall j :: 0 <= j < i ==> comps[j].dcTbl <= 1 && comps[j].acTbl <= 1
        {
          if comps[i].dcTbl > 1 || comps[i].acTbl > 1 {
            baseline := false;
          }
        }
        if baseline {
          code := M_SOF0;
        }
      }
      st := EmitSof(code);
      if st.Ok? {
        ghost var sof := Segment(code, SofBody(precision, height, width, comps));
        assert old(out) + x.bytes + sof == old(out) + (x.bytes + sof);
      }
    }

    method EmitTables(s: ScanSpec, c: Comp) returns (st: Result<()>)
      modifies this`out, this`huff
      ensures match TablesOf(old(State()), s, c)
              case Ok(x) => st.Ok? && State() == x.e && out == old(out) + x.bytes
              case Err(e) => st == Err(e)
    {
      hide DhtOf;
      st := Ok(());
      if progressive {
        if s.ss == 0 {
          if s.ah == 0 {
            st := EmitDht(false, c.dcTbl);
          }
        } else {
          st := EmitDht(true, c.acTbl);
        }
      } else {
        ghost var e := State();
        st := EmitDht(false, c.dcTbl);
        if st.Err? {
          return;
        }
        ghost var x := DhtOf(e, false, c.dcTbl).value;
        ghost var had := State();
        st := EmitDht(true, c.acTbl);
        if st.Ok? {
          ghost var y := DhtOf(had, true, c.acTbl).value;
          assert old(out) + x.bytes + y.bytes == old(out) + (x.bytes + y.bytes);
        }
      }
    }

    method EmitAllDhts(s: ScanSpec) returns (st: Result<()>)
      requires ScanOk(State(), s)
      modifies this`out, this`huff
      ensures match DhtsOf(old(State()), s, |s.comps|)
              case Ok(x) => st.Ok? && State() == x.e && out == old(out) + x.bytes
              case Err(e) => st == Err(e)
    {
      hide TablesOf;
      ghost var e, sent := State(), [];
      var i := 0;
      while i < |s.comps|
        invariant i <= |s.comps| && DhtsOf(e, s, i) == Ok(Emitted(State(), sent)) && out == old(out) + sent
      {
        DhtsStep(e, s, i);
        ghost var had := State();
        st := EmitTables(s, comps[s.comps[i]]);
        if st.Err? {
          return;
        }
        ghost var x := TablesOf(had, s, comps[s.comps[i]]).value;
        assert old(out) + sent + x.bytes == old(out) + (sent + x.bytes);
        sent := sent + x.bytes;
        i := i + 1;
      }
      return Ok(());
    }

    /** write_scan_header */
    method WriteScanHeader(s: ScanSpec) returns (st: Result<()>)
      requires EncOk(State()) && ScanOk(State(), s)
      modifies this`out, this`huff, this`lastRestartInterval
      ensures match ScanHeader(old(State()), s)
              case Ok(x) => st.Ok? && State() == x.e && out == old(out) + x.bytes
              case Err(e) => st == Err(e)
    {
      hide DhtsOf, SosOf, DriBody;
      ghost var e := State();
      st := EmitAllDhts(s);
      if st.Err? {
        return;
      }
      ghost var x := DhtsOf(e, s, |s.comps|).value;
      ghost var y := DriOf(x.e);
      if restartInterval != lastRestartInterval {
        EmitDri();
        lastRestartInterval := restartInterval;
      }
      SameSos(e, State(), s);
      EmitSos(s);
      assert old(out) + x.bytes + y.bytes + SosOf(e, s) == old(out) + (x.bytes + (y.bytes + SosOf(e, s)));
    }
  }

  lemma SpecBytesAt(ss: seq<Spec>, i: nat)
    requires i < |ss|
    ensures SpecBytes(ss[i..]) == [ss[i].id, ss[i].td * 16 + ss[i].ta] + SpecBytes(ss[i + 1..])
  {
    assert ss[i..][1..] == ss[i + 1..];
  }

  lemma SpecBytesEnd(ss: seq<Spec>)
    ensures ss[0..] == ss && SpecBytes(ss[|ss|..]) == []
  {
  }

  lemma SameSos(e: Enc, g: Enc, s: ScanSpec)
    requires ScanOk(e, s) && ScanOk(g, s) && e.comps == g.comps && e.progressive == g.progressive
    ensures SosOf(e, s) == SosOf(g, s)
  {
    assert Specs(e, s, |s.comps|) == Specs(g, s, |s.comps|);
  }

  lemma DhtsStep(e: Enc, s: ScanSpec, i: nat)
    requires ScanOk(e, s) && i < |s.comps|
    ensures DhtsOf(e, s, i + 1).Err? ==> DhtsOf(e, s, |s.comps|) == DhtsOf(e, s, i + 1)
  {
    hide TablesOf;
    if DhtsOf(e, s, i + 1).Err? {
      DhtsFail(e, s, i + 1, |s.comps|);
    }
  }

  lemma {:induction false} DhtsFail(e: Enc, s: ScanSpec, i: nat, n: nat)
    requires ScanOk(e, s) && i <= n <= |s.comps| && DhtsOf(e, s, i).Err?
    ensures DhtsOf(e, s, n) == DhtsOf(e, s, i)
  {
    hide TablesOf;
    if i < n {
      DhtsFail(e, s, i, n - 1);
    }
  }

  lemma NoneWide(e: Enc)
    ensures !AnyWide(e, []) && DqtsOf(e, []) == Ok(Emitted(e, []))
  {
  }

  lemma OneMoreWide(e: Enc, had: Enc, cs: seq<Comp>, ci: nat)
    requires ci < |cs| && SameTables(e, had) && cs[ci].tq in had.quant
    ensures AnyWide(e, cs[..ci + 1]) <==> AnyWide(e, cs[..ci]) || Wide(had.quant[cs[ci].tq].q)
  {
    hide Wide;
    var all, some := cs[..ci + 1], cs[..ci];
    if AnyWide(e, all) {
      var i :| 0 <= i < |all| && all[i].tq in e.quant && Wide(e.quant[all[i].tq].q);
      if i < ci {
        assert some[i] == all[i];
      }
    }
    if AnyWide(e, some) {
      var i :| 0 <= i < |some| && some[i].tq in e.quant && Wide(e.quant[some[i].tq].q);
      assert all[i] == some[i];
    }
    assert all[ci] == cs[ci];
  }

  lemma KeptFields(e: Enc, g: Enc)
    requires SameTables(e, g)
    ensures g == e.(quant := g.quant)
  {
  }

  /** The loop of write_frame_header, one component further; a failure of any component is that of the header. */
  lemma DqtsMore(e: Enc, had: Enc, sent: seq<byte>, cs: seq<Comp>, ci: nat)
    requires ci < |cs| && DqtsOf(e, cs[..ci]) == Ok(Emitted(had, sent))
    ensures match DqtOf(had, cs[ci].tq)
            case Err(error) => DqtsOf(e, cs) == Err(error)
            case Ok(x) => cs[ci].tq in had.quant && DqtsOf(e, cs[..ci + 1]) == Ok(Emitted(x.e, sent + x.bytes))
    ensures SameTables(e, had)
  {
    hide SameTables;
    assert cs[..ci + 1][..ci] == cs[..ci];
    DqtsKeep(e, cs[..ci]);
    if DqtOf(had, cs[ci].tq).Err? {
      DqtsFail(e, cs, ci + 1);
    }
  }

  lemma {:induction false} DqtsFail(e: Enc, cs: seq<Comp>, n: nat)
    requires n <= |cs| && DqtsOf(e, cs[..n]).Err?
    ensures DqtsOf(e, cs) == DqtsOf(e, cs[..n])
    decreases |cs|
  {
    hide DqtOf;
    if n < |cs| {
      var short := cs[..|cs| - 1];
      assert short[..n] == cs[..n];
      DqtsFail(e, short, n);
    } else {
      assert cs[..n] == cs;
    }
  }

  /** Emitting tables does no more than mark them sent. */
  predicate SameTables(e: Enc, g: Enc) {
    && g == e.(quant := g.quant) && g.quant.Keys == e.quant.Keys
    && forall n :: n in e.quant ==> g.quant[n].q == e.quant[n].q
  }

  lemma {:induction false} DqtsKeep(e: Enc, cs: seq<Comp>)
    ensures DqtsOf(e, cs).Ok? ==> SameTables(e, DqtsOf(e, cs).value.e)
    decreases |cs|
  {
    if cs != [] {
      DqtsKeep(e, cs[..|cs| - 1]);
    }
  }
}
