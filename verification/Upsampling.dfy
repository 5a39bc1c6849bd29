/**
 Upsampling by pixel replication, for 2:1 horizontal and 1:1 or 2:1 vertical sampling: the routines of jdsample.c and
 jdcolor.c, and those of jdmerge.c that do the work of both.
 */
module Upsampling {
  import opened Samples
  import opened ColorConversion

  // ----- What comes out

  /** The first n pixels of an output row, where each chroma sample serves two pixels. */
  function MergedRow(y: Row, cb: Row, cr: Row, n: nat): (r: Row)
    requires n <= |y| && (n + 1) / 2 <= |cb| && (n + 1) / 2 <= |cr|
    ensures |r| == 3 * n
  {
    if n == 0 then [] else MergedRow(y, cb, cr, n - 1) + Rgb(y[n - 1], cb[(n - 1) / 2], cr[(n - 1) / 2])
  }

  /** The first n pixels of an output row, converted from full-size rows. */
  function ConvertedRow(y: Row, cb: Row, cr: Row, n: nat): (r: Row)
    requires n <= |y| && n <= |cb| && n <= |cr|
    ensures |r| == 3 * n
  {
    if n == 0 then [] else ConvertedRow(y, cb, cr, n - 1) + Rgb(y[n - 1], cb[n - 1], cr[n - 1])
  }

  /** up is row at twice the width. */
  predicate Doubled(up: Row, row: Row, n: nat)
    requires n <= |up| && (n + 1) / 2 <= |row|
  {
    forall c :: 0 <= c < n ==> up[c] == row[c / 2]
  }

  /** Upsampling and then converting gives what the merged routines give. */
  lemma {:induction false} ConvertedIsMerged(y: Row, cb: Row, cr: Row, upCb: Row, upCr: Row, n: nat)
    requires n <= |y| && (n + 1) / 2 <= |cb| && (n + 1) / 2 <= |cr| && n <= |upCb| && n <= |upCr|
    requires Doubled(upCb, cb, n) && Doubled(upCr, cr, n)
    ensures ConvertedRow(y, upCb, upCr, n) == MergedRow(y, cb, cr, n)
  {
    if n > 0 {
      ConvertedIsMerged(y, cb, cr, upCb, upCr, n - 1);
    }
  }

  /** Each pixel of a merged row is that of its own Y sample and of the chroma samples shared by two pixels. */
  ghost predicate ArePixels(out: Row, y: Row, cb: Row, cr: Row, n: nat) {
    && 3 * n <= |out| && n <= |y| && (n + 1) / 2 <= |cb| && (n + 1) / 2 <= |cr|
    && forall c :: 0 <= c < n ==> IsPixel(out[3 * c], out[3 * c + 1], out[3 * c + 2], y[c], cb[c / 2], cr[c / 2])
  }

  lemma {:induction false} MergedArePixels(y: Row, cb: Row, cr: Row, n: nat)
    requires n <= |y| && (n + 1) / 2 <= |cb| && (n + 1) / 2 <= |cr|
    ensures ArePixels(MergedRow(y, cb, cr, n), y, cb, cr, n)
  {
    hide IsPixel, Rgb;
    if n > 0 {
      MergedArePixels(y, cb, cr, n - 1);
      RgbIsPixel(y[n - 1], cb[(n - 1) / 2], cr[(n - 1) / 2]);
      var r, last := MergedRow(y, cb, cr, n - 1), Rgb(y[n - 1], cb[(n - 1) / 2], cr[(n - 1) / 2]);
      forall c | 0 <= c < n
        ensures IsPixel((r + last)[3 * c], (r + last)[3 * c + 1], (r + last)[3 * c + 2], y[c], cb[c / 2], cr[c / 2])
      {
        if c < n - 1 {
          assert (r + last)[3 * c] == r[3 * c] && (r + last)[3 * c + 1] == r[3 * c + 1] && (r + last)[3 * c + 2] == r[3 * c + 2];
        }
      }
    }
  }

  /** Each pixel of a converted row is that of its own three samples. */
  ghost predicate AreOwnPixels(out: Row, y: Row, cb: Row, cr: Row, n: nat) {
    && 3 * n <= |out| && n <= |y| && n <= |cb| && n <= |cr|
    && forall c :: 0 <= c < n ==> IsPixel(out[3 * c], out[3 * c + 1], out[3 * c + 2], y[c], cb[c], cr[c])
  }

  lemma {:induction false} ConvertedArePixels(y: Row, cb: Row, cr: Row, n: nat)
    requires n <= |y| && n <= |cb| && n <= |cr|
    ensures AreOwnPixels(ConvertedRow(y, cb, cr, n), y, cb, cr, n)
  {
    hide IsPixel, Rgb;
    if n > 0 {
      ConvertedArePixels(y, cb, cr, n - 1);
      RgbIsPixel(y[n - 1], cb[n - 1], cr[n - 1]);
      var r, last := ConvertedRow(y, cb, cr, n - 1), Rgb(y[n - 1], cb[n - 1], cr[n - 1]);
      forall c | 0 <= c < n
        ensures IsPixel((r + last)[3 * c], (r + last)[3 * c + 1], (r + last)[3 * c + 2], y[c], cb[c], cr[c])
      {
        if c < n - 1 {
          assert (r + last)[3 * c] == r[3 * c] && (r + last)[3 * c + 1] == r[3 * c + 1] && (r + last)[3 * c + 2] == r[3 * c + 2];
        }
      }
    }
  }

  // ----- jdmerge.c

  /** The first c pixels of the output row are there. */
  ghost predicate Filled(y: Row, cb: Row, cr: Row, out: array<Sample>, c: nat)
    requires c <= |y| && (c + 1) / 2 <= |cb| && (c + 1) / 2 <= |cr|
    reads out
  {
    3 * c <= out.Length && out[..3 * c] == MergedRow(y, cb, cr, c)
  }

  lemma FilledEnds(y: Row, cb: Row, cr: Row, out: array<Sample>, width: nat)
    requires width <= |y| && (width + 1) / 2 <= |cb| && (width + 1) / 2 <= |cr| && out.Length == 3 * width
    ensures Filled(y, cb, cr, out, 0) && (Filled(y, cb, cr, out, width) ==> out[..] == MergedRow(y, cb, cr, width))
  {
    assert out[..3 * width] == out[..];
  }

  method H2v1MergedUpsample(t: Tables, y: Row, cb: Row, cr: Row, out: array<Sample>, width: nat)
    requires t.Valid() && out !in t.Parts() && out.Length == 3 * width
    requires width <= |y| && (width + 1) / 2 <= |cb| && (width + 1) / 2 <= |cr|
    modifies out
    ensures t.Valid() && out[..] == MergedRow(y, cb, cr, width) && ArePixels(out[..], y, cb, cr, width)
  {
    hide Rgb, CrR, CbB, CrG, CbG, Clamp, MergedRow, Filled, IsPixel, ArePixels;
    MergedArePixels(y, cb, cr, width);
    var half := width / 2;
    var col := 0;
    FilledEnds(y, cb, cr, out, width);
    while col < half
      invariant col <= half && t.Valid() && Filled(y, cb, cr, out, 2 * col)
    {
      var cred, cgreen, cblue := t.Chroma(cb[col], cr[col]);
      PutPixel(t, y, cb, cr, out, 2 * col, cred, cgreen, cblue);
      PutPixel(t, y, cb, cr, out, 2 * col + 1, cred, cgreen, cblue);
      col := col + 1;
    }
    if width % 2 == 1 {
      var cred, cgreen, cblue := t.Chroma(cb[half], cr[half]);
      PutPixel(t, y, cb, cr, out, width - 1, cred, cgreen, cblue);
    }
    FilledEnds(y, cb, cr, out, width);
  }

  /** Emit pixel c of a row whose first c pixels are there. */
  method PutPixel(t: Tables, y: Row, cb: Row, cr: Row, out: array<Sample>, c: nat, cred: int, cgreen: int, cblue: int)
    requires t.Valid() && out !in t.Parts() && c < |y| && (c + 2) / 2 <= |cb| && (c + 2) / 2 <= |cr|
    requires 3 * c + 3 <= out.Length && Filled(y, cb, cr, out, c)
    requires cred == CrR(cr[c / 2]) && cgreen == (CbG(cb[c / 2]) + CrG(cr[c / 2])) / SCALE && cblue == CbB(cb[c / 2])
    modifies out
    ensures t.Valid() && Filled(y, cb, cr, out, c + 1)
  {
    hide Rgb, CrR, CbB, CrG, CbG, Clamp, IsPixel;
    var red, green, blue := t.Pixel(y[c], cred, cgreen, cblue, cb[c / 2], cr[c / 2]);
    out[3 * c], out[3 * c + 1], out[3 * c + 2] := red, green, blue;
    assert out[..3 * (c + 1)] == out[..3 * c] + [red, green, blue];
  }

  method H2v2MergedUpsample(t: Tables, y0: Row, y1: Row, cb: Row, cr: Row, out0: array<Sample>, out1: array<Sample>,
                            width: nat)
    requires t.Valid() && out0 !in t.Parts() && out1 !in t.Parts() && out0 != out1
    requires out0.Length == 3 * width == out1.Length
    requires width <= |y0| && width <= |y1| && (width + 1) / 2 <= |cb| && (width + 1) / 2 <= |cr|
    modifies out0, out1
    ensures t.Valid() && out0[..] == MergedRow(y0, cb, cr, width) && out1[..] == MergedRow(y1, cb, cr, width)
    ensures ArePixels(out0[..], y0, cb, cr, width) && ArePixels(out1[..], y1, cb, cr, width)
  {
    hide Rgb, CrR, CbB, CrG, CbG, Clamp, MergedRow, Filled, IsPixel, ArePixels;
    MergedArePixels(y0, cb, cr, width);
    MergedArePixels(y1, cb, cr, width);
    var half := width / 2;
    var col := 0;
    FilledEnds(y0, cb, cr, out0, width);
    FilledEnds(y1, cb, cr, out1, width);
    while col < half
      invariant col <= half && t.Valid()
      invariant Filled(y0, cb, cr, out0, 2 * col) && Filled(y1, cb, cr, out1, 2 * col)
    {
      var cred, cgreen, cblue := t.Chroma(cb[col], cr[col]);
      PutPixel(t, y0, cb, cr, out0, 2 * col, cred, cgreen, cblue);
      PutPixel(t, y0, cb, cr, out0, 2 * col + 1, cred, cgreen, cblue);
      PutPixel(t, y1, cb, cr, out1, 2 * col, cred, cgreen, cblue);
      PutPixel(t, y1, cb, cr, out1, 2 * col + 1, cred, cgreen, cblue);
      col := col + 1;
    }
    if width % 2 == 1 {
      var cred, cgreen, cblue := t.Chroma(cb[half], cr[half]);
      PutPixel(t, y0, cb, cr, out0, width - 1, cred, cgreen, cblue);
      PutPixel(t, y1, cb, cr, out1, width - 1, cred, cgreen, cblue);
    }
    FilledEnds(y0, cb, cr, out0, width);
    FilledEnds(y1, cb, cr, out1, width);
  }

  // ----- jdsample.c and jdcolor.c

  /** One row at twice the width; the buffer is wide enough for an even number of samples. */
  method DoubleRow(row: Row, out: array<Sample>, width: nat)
    requires (width + 1) / 2 <= |row| && out.Length >= width + width % 2
    modifies out
    ensures Doubled(out[..], row, width)
  {
    var outptr, inptr := 0, 0;
    while outptr < width
      invariant outptr == 2 * inptr <= width + width % 2
      invariant forall c :: 0 <= c < outptr ==> out[c] == row[c / 2]
    {
      var invalue := row[inptr];
      out[outptr] := invalue;
      out[outptr + 1] := invalue;
      inptr := inptr + 1;
      outptr := outptr + 2;
    }
  }

  /** h2v1_upsample, for a row group of one row */
  method H2v1Upsample(row: Row, out: array<Sample>, width: nat)
    requires (width + 1) / 2 <= |row| && out.Length >= width + width % 2
    modifies out
    ensures Doubled(out[..], row, width)
  {
    DoubleRow(row, out, width);
  }

  /** h2v2_upsample, for a row group of one row */
  method H2v2Upsample(row: Row, out0: array<Sample>, out1: array<Sample>, width: nat)
    requires (width + 1) / 2 <= |row| && out0 != out1 && out0.Length == width + width % 2 == out1.Length
    modifies out0, out1
    ensures Doubled(out0[..], row, width) && Doubled(out1[..], row, width)
  {
    DoubleRow(row, out0, width);
    for c := 0 to width
      invariant Doubled(out0[..], row, width) && forall k :: 0 <= k < c ==> out1[k] == row[k / 2]
    {
      assert out0[..][c] == row[c / 2];
      out1[c] := out0[c];
    }
  }

  /** ycc_rgb_convert, for one row */
  method YccRgbConvert(t: Tables, y: Row, cb: array<Sample>, cr: array<Sample>, out: array<Sample>, width: nat)
    requires t.Valid() && out !in t.Parts() && out.Length == 3 * width && out != cb && out != cr
    requires width <= |y| && width <= cb.Length && width <= cr.Length
    modifies out
    ensures t.Valid() && out[..] == ConvertedRow(y, cb[..], cr[..], width)
    ensures AreOwnPixels(out[..], y, cb[..], cr[..], width)
  {
    hide Rgb, CrR, CbB, CrG, CbG, Clamp, IsPixel, AreOwnPixels;
    ConvertedArePixels(y, cb[..], cr[..], width);
    for col := 0 to width
      invariant t.Valid() && out[..3 * col] == ConvertedRow(y, cb[..], cr[..], col)
      invariant cb[..] == old(cb[..]) && cr[..] == old(cr[..])
    {
      var cred, cgreen, cblue := t.Chroma(cb[col], cr[col]);
      var red, green, blue := t.Pixel(y[col], cred, cgreen, cblue, cb[col], cr[col]);
      out[3 * col], out[3 * col + 1], out[3 * col + 2] := red, green, blue;
      assert out[..3 * (col + 1)] == out[..3 * col] + [red, green, blue];
    }
    assert out[..3 * width] == out[..];
  }
}
