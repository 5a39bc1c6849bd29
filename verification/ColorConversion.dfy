module Samples {
  const MAXJSAMPLE := 255
  const CENTERJSAMPLE := 128

  type Sample = x: int | 0 <= x <= MAXJSAMPLE
  type Row = seq<Sample>
}

/** YCbCr to RGB conversion with tables (jdcolor.c), and the range-limiting table (jdmaster.c). */
module ColorConversion {
  import opened Samples

  const SCALE := 65536
  const ONE_HALF := 32768
  // FIX(x) is x * 65536, rounded.
  const FIX_1_40200 := 91881
  const FIX_1_77200 := 116130
  const FIX_0_71414 := 46802
  const FIX_0_34414 := 22554

  // ----- What the tables hold

  function CrR(cr: int): int {
    (FIX_1_40200 * (cr - CENTERJSAMPLE) + ONE_HALF) / SCALE
  }

  function CbB(cb: int): int {
    (FIX_1_77200 * (cb - CENTERJSAMPLE) + ONE_HALF) / SCALE
  }

  function CrG(cr: int): int {
    -FIX_0_71414 * (cr - CENTERJSAMPLE)
  }

  function CbG(cb: int): int {
    -FIX_0_34414 * (cb - CENTERJSAMPLE) + ONE_HALF
  }

  function Clamp(x: int): Sample {
    if x < 0 then 0 else if x > MAXJSAMPLE then MAXJSAMPLE else x
  }

  /** Red, green and blue of a pixel. */
  function Rgb(y: Sample, cb: Sample, cr: Sample): (p: seq<Sample>)
    ensures |p| == 3
  {
    [Clamp(y + CrR(cr)), Clamp(y + (CbG(cb) + CrG(cr)) / SCALE), Clamp(y + CbB(cb))]
  }

  /** The Cr=>R value is the nearest integer to 1.402 * x, and the Cb=>B value that to 1.772 * x. */
  lemma TablesAreNearest(i: Sample)
    ensures -500 <= 1000 * CrR(i) - 1402 * (i - CENTERJSAMPLE) <= 500
    ensures -500 <= 1000 * CbB(i) - 1772 * (i - CENTERJSAMPLE) <= 500
  {
    var x := i - CENTERJSAMPLE;
    var r, b := CrR(i), CbB(i);
    assert SCALE * r <= FIX_1_40200 * x + ONE_HALF < SCALE * r + SCALE;
    assert SCALE * b <= FIX_1_77200 * x + ONE_HALF < SCALE * b + SCALE;
  }

  /** The green value is within 0.502 of y - 0.34414 * x(Cb) - 0.71414 * x(Cr). */
  lemma GreenIsClose(cb: Sample, cr: Sample)
    ensures var g := (CbG(cb) + CrG(cr)) / SCALE;
      -50200 <= 100000 * g + 34414 * (cb - CENTERJSAMPLE) + 71414 * (cr - CENTERJSAMPLE) <= 50200
  {
    var g, total := (CbG(cb) + CrG(cr)) / SCALE, CbG(cb) + CrG(cr);
    assert SCALE * g <= total < SCALE * g + SCALE;
  }

  // ----- What a pixel is

  /** out is v, limited to the range of a sample. */
  predicate IsLimited(out: int, v: int) {
    && (v < 0 ==> out == 0)
    && (0 <= v <= 255 ==> out == v)
    && (v > 255 ==> out == 255)
  }

  /**
   The three samples of a pixel, up to the rounding of the tables and the limits of a sample: y + 1.402 (cr - 128),
   y - 0.34414 (cb - 128) - 0.71414 (cr - 128) and y + 1.772 (cb - 128).
   */
  ghost predicate IsPixel(red: int, green: int, blue: int, y: int, cb: int, cr: int) {
    && (exists v :: IsLimited(red, v) && -500 <= 1000 * v - (1000 * y + 1402 * (cr - 128)) <= 500)
    && (exists v ::
        IsLimited(green, v) && -50200 <= 100000 * v - (100000 * y - 34414 * (cb - 128) - 71414 * (cr - 128)) <= 50200)
    && (exists v :: IsLimited(blue, v) && -500 <= 1000 * v - (1000 * y + 1772 * (cb - 128)) <= 500)
  }

  lemma RgbIsPixel(y: Sample, cb: Sample, cr: Sample)
    ensures IsPixel(Rgb(y, cb, cr)[0], Rgb(y, cb, cr)[1], Rgb(y, cb, cr)[2], y, cb, cr)
  {
    hide CrR, CbB, CrG, CbG;
    TablesAreNearest(cr);
    TablesAreNearest(cb);
    GreenIsClose(cb, cr);
    assert IsLimited(Rgb(y, cb, cr)[0], y + CrR(cr));
    assert IsLimited(Rgb(y, cb, cr)[1], y + (CbG(cb) + CrG(cr)) / SCALE);
    assert IsLimited(Rgb(y, cb, cr)[2], y + CbB(cb));
  }

  /** No table index is out of range. */
  lemma IndexInRange(y: Sample, cb: Sample, cr: Sample)
    ensures -256 <= y + CrR(cr) < 640 && -256 <= y + CbB(cb) < 640 && -256 <= y + (CbG(cb) + CrG(cr)) / SCALE < 640
  {
    TablesAreNearest(cr);
    TablesAreNearest(cb);
    GreenIsClose(cb, cr);
  }

  // ----- Building them

  class Tables {
    const crR: array<int>
    const cbB: array<int>
    const crG: array<int>
    const cbG: array<int>
    /** sample_range_limit, with its entry 0 at index 256 */
    const rangeLimit: array<Sample>

    ghost predicate Valid()
      reads this, crR, cbB, crG, cbG, rangeLimit
    {
      && crR.Length == cbB.Length == crG.Length == cbG.Length == MAXJSAMPLE + 1
      && (forall i :: 0 <= i <= MAXJSAMPLE ==> crR[i] == CrR(i))
      && (forall i :: 0 <= i <= MAXJSAMPLE ==> cbB[i] == CbB(i))
      && (forall i :: 0 <= i <= MAXJSAMPLE ==> crG[i] == CrG(i))
      && (forall i :: 0 <= i <= MAXJSAMPLE ==> cbG[i] == CbG(i))
      && rangeLimit.Length == 5 * 256 + CENTERJSAMPLE
      && forall i :: 0 <= i < 896 ==> rangeLimit[i] == Clamp(i - 256)
    }

    ghost function Parts(): set<object>
    {
      {this, crR, cbB, crG, cbG, rangeLimit}
    }

    constructor ()
      ensures Valid() && fresh(crR) && fresh(cbB) && fresh(crG) && fresh(cbG) && fresh(rangeLimit)
    {
      var a, b, c, d := new int[256], new int[256], new int[256], new int[256];
      BuildYccRgbTable(a, b, c, d);
      var limit := new Sample[5 * 256 + CENTERJSAMPLE];
      PrepareRangeLimitTable(limit);
      crR, cbB, crG, cbG, rangeLimit := a, b, c, d, limit;
    }

    /** The chroma part of the calculation. */
    method Chroma(cb: Sample, cr: Sample) returns (cred: int, cgreen: int, cblue: int)
      requires Valid()
      ensures cred == CrR(cr) && cgreen == (CbG(cb) + CrG(cr)) / SCALE && cblue == CbB(cb)
    {
      cred, cgreen, cblue := crR[cr], (cbG[cb] + crG[cr]) / SCALE, cbB[cb];
    }

    /** A pixel, range-limited. */
    method Pixel(y: Sample, cred: int, cgreen: int, cblue: int, ghost cb: Sample, ghost cr: Sample)
      returns (red: Sample, green: Sample, blue: Sample)
      requires Valid() && cred == CrR(cr) && cgreen == (CbG(cb) + CrG(cr)) / SCALE && cblue == CbB(cb)
      ensures [red, green, blue] == Rgb(y, cb, cr) && IsPixel(red, green, blue, y, cb, cr)
    {
      IndexInRange(y, cb, cr);
      RgbIsPixel(y, cb, cr);
      hide CrR, CbB, CrG, CbG, Clamp, IsPixel;
      red, green, blue := rangeLimit[256 + (y + cred)], rangeLimit[256 + (y + cgreen)], rangeLimit[256 + (y + cblue)];
    }
  }

  method BuildYccRgbTable(crR: array<int>, cbB: array<int>, crG: array<int>, cbG: array<int>)
    requires crR.Length == cbB.Length == crG.Length == cbG.Length == MAXJSAMPLE + 1
    requires crR != cbB && crR != crG && crR != cbG && cbB != crG && cbB != cbG && crG != cbG
    modifies crR, cbB, crG, cbG
    ensures forall i :: 0 <= i <= MAXJSAMPLE ==> crR[i] == CrR(i)
    ensures forall i :: 0 <= i <= MAXJSAMPLE ==> cbB[i] == CbB(i)
    ensures forall i :: 0 <= i <= MAXJSAMPLE ==> crG[i] == CrG(i)
    ensures forall i :: 0 <= i <= MAXJSAMPLE ==> cbG[i] == CbG(i)
  {
    var x := -CENTERJSAMPLE;
    for i := 0 to MAXJSAMPLE + 1
      invariant x == i - CENTERJSAMPLE
      invariant forall k :: 0 <= k < i ==> crR[k] == CrR(k)
      invariant forall k :: 0 <= k < i ==> cbB[k] == CbB(k)
      invariant forall k :: 0 <= k < i ==> crG[k] == CrG(k)
      invariant forall k :: 0 <= k < i ==> cbG[k] == CbG(k)
    {
      crR[i] := (FIX_1_40200 * x + ONE_HALF) / SCALE;
      cbB[i] := (FIX_1_77200 * x + ONE_HALF) / SCALE;
      crG[i] := -FIX_0_71414 * x;
      cbG[i] := -FIX_0_34414 * x + ONE_HALF;
      x := x + 1;
    }
  }

  method PrepareRangeLimitTable(table: array<Sample>)
    requires table.Length == 5 * 256 + CENTERJSAMPLE
    modifies table
    ensures forall i :: 0 <= i < 896 ==> table[i] == Clamp(i - 256)
  {
    for i := 0 to 256
      invariant forall k :: 0 <= k < i ==> table[k] == Clamp(k - 256)
    {
      table[i] := 0;
    }
    for i := 0 to 256
      invariant forall k :: 0 <= k < 256 + i ==> table[k] == Clamp(k - 256)
    {
      table[256 + i] := i;
    }
    for i := CENTERJSAMPLE to 512
      invariant forall k :: 0 <= k < 384 + i ==> table[k] == Clamp(k - 256)
    {
      table[384 + i] := MAXJSAMPLE;
    }
    for i := 0 to 384
      invariant forall k :: 0 <= k < 896 ==> table[k] == Clamp(k - 256)
    {
      table[896 + i] := 0;
    }
    for i := 0 to CENTERJSAMPLE
      invariant forall k :: 0 <= k < 896 ==> table[k] == Clamp(k - 256)
    {
      table[1280 + i] := table[256 + i];
    }
  }
}
