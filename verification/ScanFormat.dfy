/** The bytes of a scan as any decoder of ITU-T T.81 sees them: its markers, and the range of what is coded. */
module ScanFormat {
  import opened Bits
  import opened Wrappers
  import opened HuffmanTables
  import opened BitPacking
  import opened Symbols
  import opened Coefficients
  import opened SequentialCodec
  import opened AcBand
  import opened McuCodec
  import McuGeometry
  import opened RestartMarkers
  import opened ScanRoundTrip

  /** The markers among entropy-coded bytes: 0xFF with a byte behind it that is not zero. */
  function MarkersIn(b: seq<byte>): seq<byte> {
    if |b| < 2 then []
    else if b[0] != 0xFF then MarkersIn(b[1..])
    else (if b[1] == 0 then [] else [b[1]]) + MarkersIn(b[2..])
  }

  lemma {:induction false} NoneInStuffed(b: seq<byte>, more: seq<byte>)
    ensures MarkersIn(Stuff(b) + more) == MarkersIn(more)
  {
    if b == [] {
      assert Stuff(b) + more == more;
    } else {
      NoneInStuffed(b[1..], more);
      var rest := Stuff(b[1..]) + more;
      if b[0] == 0xFF {
        assert Stuff(b) + more == [0xFF, 0] + rest;
        assert ([0xFF, 0] + rest)[2..] == rest;
      } else {
        assert Stuff(b) + more == [b[0]] + rest;
        assert ([b[0]] + rest)[1..] == rest;
        ShortHasNone(rest);
      }
    }
  }

  lemma ShortHasNone(b: seq<byte>)
    ensures |b| < 2 ==> MarkersIn(b) == []
  {
  }

  /** n restart markers, from number num on */
  function Cycle(num: nat, n: nat): (ms: seq<byte>) {
    seq(n, i requires 0 <= i < n => 0xD0 + (num + i) % 8)
  }

  lemma {:induction false} MarkersFrom(c: Scan, t: CTables, interval: nat, mcus: seq<Mcu>, num: nat)
    requires ScanOk(c) && AreMcus(c, mcus)
    ensures MarkersIn(ScanBytes(c, t, interval, mcus, num)) == Cycle(num, Segments(interval, |mcus|) - 1)
    decreases |mcus|
  {
    hide IntervalItems, Stuff, Pack, AreMcus;
    var items := if OneSegment(interval, mcus) then mcus else mcus[..interval];
    assert AreMcus(c, items) by { PartsAreMcus(c, mcus, |items|); }
    var bytes := Pack(Padded(ItemsBits(t, IntervalItems(c, items))));
    if OneSegment(interval, mcus) {
      NoneInStuffed(bytes, []);
      assert Stuff(bytes) + [] == Stuff(bytes);
      assert Cycle(num, 0) == [];
    } else {
      PartsAreMcus(c, mcus, interval);
      MarkersFrom(c, t, interval, mcus[interval..], num + 1);
      var rest := ScanBytes(c, t, interval, mcus[interval..], num + 1);
      NoneInStuffed(bytes, [0xFF, RstCode(num)] + rest);
      assert Stuff(bytes) + [0xFF, RstCode(num)] + rest == Stuff(bytes) + ([0xFF, RstCode(num)] + rest);
      assert ([0xFF, RstCode(num)] + rest)[2..] == rest;
      CycleFirst(num, Segments(interval, |mcus|) - 1);
    }
  }

  lemma PartsAreMcus(c: Scan, mcus: seq<Mcu>, n: nat)
    requires AreMcus(c, mcus) && n <= |mcus|
    ensures AreMcus(c, mcus[..n]) && AreMcus(c, mcus[n..])
  {
  }

  lemma CycleFirst(num: nat, n: nat)
    requires n > 0
    ensures Cycle(num, n) == [RstCode(num)] + Cycle(num + 1, n - 1)
  {
    forall i | 0 < i < n
      ensures Cycle(num, n)[i] == Cycle(num + 1, n - 1)[i - 1]
    {
      assert num + i == num + 1 + (i - 1);
    }
  }

  lemma {:induction false} SegmentCount(interval: nat, n: nat)
    requires n > 0
    ensures Segments(interval, n) - 1 == if interval == 0 then 0 else (n - 1) / interval
    decreases n
  {
    if interval > 0 && n > interval {
      SegmentCount(interval, n - interval);
      OneLess(n - 1, interval);
    } else if interval > 0 {
      NoneWhole(n - 1, interval);
    }
  }

  lemma OneLess(n: nat, k: nat)
    requires 0 < k <= n
    ensures n / k == (n - k) / k + 1
  {
    var q, r := (n - k) / k, (n - k) % k;
    assert n - k == q * k + r;
    assert (q + 1) * k == q * k + k;
    McuGeometry.DivUnique(n, k, q + 1, r);
  }

  lemma NoneWhole(n: nat, k: nat)
    requires n < k
    ensures n / k == 0
  {
    McuGeometry.DivUnique(n, k, 0, n);
  }

  /**
   The markers within a scan are restart markers only, numbered from 0 to 7 and over again, one behind every `interval`
   MCUs but not behind the last MCU.
   */
  lemma ScanMarkers(c: Scan, t: CTables, interval: nat, mcus: seq<Mcu>, n: nat)
    requires ScanOk(c) && AreMcus(c, mcus) && mcus != []
    requires n == if interval == 0 then 0 else (|mcus| - 1) / interval
    ensures MarkersIn(ScanBytes(c, t, interval, mcus, 0)) == seq(n, i requires 0 <= i < n => 0xD0 + i % 8)
  {
    hide ScanBytes, MarkersIn, Segments;
    MarkersFrom(c, t, interval, mcus, 0);
    SegmentCount(interval, |mcus|);
  }

  // ----- Ranges

  /** What is coded: DC differences of up to 11 bits, and AC coefficients of up to 10, those of 8-bit samples. */
  lemma RangesAre(diff: int, b: Block, c: Band)
    requires BandOk(c)
    ensures DcInRange(diff) <==> -2048 < diff < 2048
    ensures AcInRange(b) <==> forall k :: 1 <= k < 64 ==> -1024 < b[k] < 1024
    ensures InRange(c, b) <==> c.refine || forall k :: c.ss <= k <= c.se ==> Mag(c, b, k) < 1024
  {
    hide Mag;
    FewBits(Abs(diff), 11);
    forall k | 1 <= k < 64 ensures NBits(Abs(b[k])) <= 10 <==> -1024 < b[k] < 1024 { FewBits(Abs(b[k]), 10); }
    forall k | c.ss <= k <= c.se ensures NBits(Mag(c, b, k)) <= 10 <==> Mag(c, b, k) < 1024 { FewBits(Mag(c, b, k), 10); }
  }

  lemma FewBits(v: nat, n: nat)
    requires n == 10 || n == 11
    ensures NBits(v) <= n <==> v < if n == 10 then 1024 else 2048
  {
    NBitsBounds(v);
    PowersTen();
    if NBits(v) <= n {
      Pow2Grows(NBits(v), n);
    } else {
      Pow2Grows(n, NBits(v) - 1);
    }
  }

  lemma PowersTen()
    ensures Pow2(10) == 1024 && Pow2(11) == 2048
  {
    assert Pow2(4) == 16;
    assert Pow2(8) == 256;
  }

  lemma {:induction false} Pow2Grows(a: nat, b: nat)
    requires a <= b
    ensures Pow2(a) <= Pow2(b)
    decreases b
  {
    if a < b {
      Pow2Grows(a, b - 1);
    }
  }
}
