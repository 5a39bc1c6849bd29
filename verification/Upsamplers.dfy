/**
 The two upsampling controllers, merged_2v_upsample and merged_1v_upsample of jdmerge.c and sep_upsample of jdsample.c,
 under any schedule of free output rows.
 */
module Upsamplers {
  import opened Samples
  import opened ColorConversion
  import opened Upsampling

  /** A row group: max_v_samp_factor rows of Y, and one row each of Cb and Cr. */
  datatype Group = Group(luma: seq<Row>, cb: Row, cr: Row)

  /** The input of a pass, and output_width, output_height and max_v_samp_factor. */
  datatype Pass = Pass(groups: seq<Group>, width: nat, height: nat, maxV: nat)

  predicate PassOk(p: Pass) {
    && 1 <= p.maxV <= 2 && p.height <= p.maxV * |p.groups|
    && forall i :: 0 <= i < |p.groups| ==> GroupOk(p.groups[i], p.maxV, p.width)
  }

  predicate GroupOk(g: Group, maxV: nat, width: nat) {
    && |g.luma| == maxV && (width + 1) / 2 <= |g.cb| && (width + 1) / 2 <= |g.cr|
    && forall i :: 0 <= i < maxV ==> width <= |g.luma[i]|
  }

  /** Output row v of a row group. */
  function GroupRow(p: Pass, ctr: nat, v: nat): Row
    requires PassOk(p) && ctr < |p.groups| && v < p.maxV
  {
    var g := p.groups[ctr];
    MergedRow(g.luma[v], g.cb, g.cr, p.width)
  }

  /** Row d of the output image. */
  function ImageRow(p: Pass, d: nat): Row
    requires PassOk(p) && d < p.height
  {
    GroupRow(p, d / p.maxV, d % p.maxV)
  }

  lemma RowOfImage(p: Pass, ctr: nat, v: nat)
    requires PassOk(p) && v < p.maxV && p.maxV * ctr + v < p.height
    ensures ctr < |p.groups| && ImageRow(p, p.maxV * ctr + v) == GroupRow(p, ctr, v)
  {
    hide MergedRow, GroupRow;
    if p.maxV == 2 {
      assert (2 * ctr + v) / 2 == ctr && (2 * ctr + v) % 2 == v;
    }
  }

  function Min(a: nat, b: nat): nat {
    if a <= b then a else b
  }

  /** The number of rows that a call delivers when d are out already and free more can be taken. */
  function Rows(p: Pass, d: nat, free: nat): (n: nat)
    requires PassOk(p) && d < p.height
    ensures n <= free && d + n <= p.height && (free > 0 ==> n > 0) && n <= p.maxV - d % p.maxV
    ensures n == free || d + n == p.height || n == p.maxV - d % p.maxV
  {
    Min(Min(p.maxV - d % p.maxV, p.height - d), free)
  }

  ghost predicate OutputOk(p: Pass, output: seq<array<Sample>>, others: set<object>) {
    && (forall i :: 0 <= i < |output| ==> output[i].Length == 3 * p.width && output[i] !in others)
    && forall i, j :: 0 <= i < j < |output| ==> output[i] != output[j]
  }

  /** Rows d up to d + n of the image are in the output buffer from outCtr on. */
  ghost predicate Delivered(p: Pass, output: seq<array<Sample>>, outCtr: nat, d: nat, n: nat)
    requires PassOk(p) && d + n <= p.height && outCtr + n <= |output|
    reads output
  {
    forall k :: outCtr <= k < outCtr + n ==> output[k][..] == ImageRow(p, d + k - outCtr)
  }

  class MergedUpsampler {
    const p: Pass
    const t: Tables
    const spareRow: array<Sample>
    var spareFull: bool
    var rowsToGo: nat
    /** The rows delivered so far */
    ghost var done: nat

    ghost function Parts(): set<object>
    {
      {this, spareRow} + t.Parts()
    }

    /** ctr is the next row group, of which the spare row may hold the second row. */
    ghost predicate Valid(ctr: nat)
      reads Parts()
    {
      && PassOk(p) && t.Valid() && spareRow !in t.Parts() && spareRow.Length == 3 * p.width && done <= p.height
      && (p.maxV == 2 ==> rowsToGo == p.height - done)
      && if spareFull then
           p.maxV == 2 && done == 2 * ctr + 1 && ctr < |p.groups| && spareRow[..] == GroupRow(p, ctr, 1)
         else done == p.maxV * ctr
    }

    constructor (p: Pass)
      requires PassOk(p)
      ensures this.p == p && Valid(0) && done == 0 && fresh(Parts())
    {
      hide Tables.Valid;
      this.p := p;
      t := new Tables();
      spareRow := new Sample[3 * p.width];
      spareFull, rowsToGo, done := false, p.height, 0;
    }

    /** The upsample method: merged_2v_upsample or merged_1v_upsample */
    method Upsample(inCtr: nat, output: seq<array<Sample>>, outCtr: nat) returns (inNext: nat, outNext: nat)
      requires Valid(inCtr) && done < p.height && outCtr < |output| && OutputOk(p, output, Parts())
      modifies this, spareRow, output
      ensures Valid(inNext) && old(done) + (outNext - outCtr) == done
      ensures outNext == outCtr + Rows(p, old(done), |output| - outCtr)
      ensures Delivered(p, output, outCtr, old(done), outNext - outCtr)
      ensures inNext == done / p.maxV
      ensures forall i :: 0 <= i < outCtr || outNext <= i < |output| ==> output[i][..] == old(output[i][..])
    {
      if p.maxV == 2 {
        inNext, outNext := Merged2v(inCtr, output, outCtr);
      } else {
        inNext, outNext := Merged1v(inCtr, output, outCtr);
      }
    }

    /** One call, for an output buffer with some rows in use: the rows delivered are taken over into the image. */
    method Deliver(inCtr: nat, image: seq<Row>, offer: Offer) returns (inNext: nat, more: seq<Row>)
      requires Valid(inCtr) && done < p.height && offer.free > 0 && ImageTop(p, image) && |image| == done
      modifies this, spareRow
      ensures Valid(inNext) && ImageTop(p, more) && |more| == done == old(done) + Rows(p, old(done), offer.free)
    {
      hide PassOk, Rows, Delivered, ImageRow, Tables.Valid, GroupRow;
      RowsFit();
      var output := NewRows(p, offer.used + offer.free);
      var outCtr;
      inNext, outCtr := Upsample(inCtr, output, offer.used);
      more := Collect(p, image, output, offer.used, outCtr);
    }

    lemma RowsFit()
      requires PassOk(p) && done < p.height
      ensures forall free: nat :: done + Rows(p, done, free) <= p.height
    {
    }

    method Merged1v(inCtr: nat, output: seq<array<Sample>>, outCtr: nat) returns (inNext: nat, outNext: nat)
      requires Valid(inCtr) && done < p.height && outCtr < |output| && OutputOk(p, output, Parts()) && p.maxV == 1
      modifies this, output
      ensures Valid(inNext) && old(done) + (outNext - outCtr) == done
      ensures outNext == outCtr + Rows(p, old(done), |output| - outCtr)
      ensures Delivered(p, output, outCtr, old(done), outNext - outCtr)
      ensures inNext == done / p.maxV
      ensures forall i :: 0 <= i < outCtr || outNext <= i < |output| ==> output[i][..] == old(output[i][..])
    {
      hide MergedRow, Tables.Valid;
      var g := p.groups[inCtr];
      H2v1MergedUpsample(t, g.luma[0], g.cb, g.cr, output[outCtr], p.width);
      RowOfImage(p, inCtr, 0);
      done := done + 1;
      inNext, outNext := inCtr + 1, outCtr + 1;
    }

    method Merged2v(inCtr: nat, output: seq<array<Sample>>, outCtr: nat) returns (inNext: nat, outNext: nat)
      requires Valid(inCtr) && done < p.height && outCtr < |output| && OutputOk(p, output, Parts()) && p.maxV == 2
      modifies this, spareRow, output
      ensures Valid(inNext) && old(done) + (outNext - outCtr) == done
      ensures outNext == outCtr + Rows(p, old(done), |output| - outCtr)
      ensures Delivered(p, output, outCtr, old(done), outNext - outCtr)
      ensures inNext == done / p.maxV
      ensures forall i :: 0 <= i < outCtr || outNext <= i < |output| ==> output[i][..] == old(output[i][..])
    {
      hide MergedRow, Tables.Valid, ImageRow, GroupRow, PassOk;
      var numRows;
      SpareAndRest(inCtr);
      if spareFull {
        CopySampleRow(spareRow, output[outCtr]);
        numRows := 1;
        spareFull := false;
      } else {
        numRows := NewGroup(inCtr, output, outCtr);
      }
      outNext := outCtr + numRows;
      rowsToGo := rowsToGo - numRows;
      done := done + numRows;
      inNext := inCtr;
      if !spareFull {
        inNext := inCtr + 1;
      }
    }

    lemma SpareAndRest(inCtr: nat)
      requires Valid(inCtr) && done < p.height && p.maxV == 2
      ensures inCtr < |p.groups| && PassOk(p) && done == 2 * inCtr + if spareFull then 1 else 0
      ensures ImageRow(p, done) == GroupRow(p, inCtr, if spareFull then 1 else 0)
      ensures !spareFull && done + 1 < p.height ==> ImageRow(p, done + 1) == GroupRow(p, inCtr, 1)
    {
      hide MergedRow, Tables.Valid, ImageRow, GroupRow;
      RowOfImage(p, inCtr, if spareFull then 1 else 0);
      if !spareFull && done + 1 < p.height {
        RowOfImage(p, inCtr, 1);
      }
    }

    /** A new row group: both its rows, of which the second may have to go to the spare row */
    method NewGroup(inCtr: nat, output: seq<array<Sample>>, outCtr: nat) returns (numRows: nat)
      requires PassOk(p) && t.Valid() && spareRow !in t.Parts() && spareRow.Length == 3 * p.width && p.maxV == 2
      requires !spareFull && rowsToGo > 0 && inCtr < |p.groups| && outCtr < |output| && OutputOk(p, output, Parts())
      modifies `spareFull, spareRow, output
      ensures t.Valid() && numRows == Min(Min(2, rowsToGo), |output| - outCtr) && spareFull == (numRows == 1)
      ensures output[outCtr][..] == GroupRow(p, inCtr, 0)
      ensures if spareFull then spareRow[..] == GroupRow(p, inCtr, 1) else output[outCtr + 1][..] == GroupRow(p, inCtr, 1)
      ensures forall i :: 0 <= i < outCtr || outCtr + numRows <= i < |output| ==> output[i][..] == old(output[i][..])
    {
      hide MergedRow, Tables.Valid;
      numRows := 2;
      if numRows > rowsToGo {
        numRows := rowsToGo;
      }
      if numRows > |output| - outCtr {
        numRows := |output| - outCtr;
      }
      var work1;
      if numRows > 1 {
        work1 := output[outCtr + 1];
      } else {
        work1 := spareRow;
        spareFull := true;
      }
      var g := p.groups[inCtr];
      H2v2MergedUpsample(t, g.luma[0], g.luma[1], g.cb, g.cr, output[outCtr], work1, p.width);
    }
  }

  method CopySampleRow(from: array<Sample>, to: array<Sample>)
    requires from.Length == to.Length && from != to
    modifies to
    ensures to[..] == from[..]
  {
    for i := 0 to from.Length
      invariant to[..i] == from[..i]
    {
      to[i] := from[i];
    }
  }

  method NewBuffers(n: nat, wide: nat) returns (a: seq<array<Sample>>, b: seq<array<Sample>>)
    ensures |a| == n == |b| && fresh(a) && fresh(b)
    ensures forall i :: 0 <= i < n ==> a[i].Length == wide == b[i].Length
    ensures forall i, j :: 0 <= i < n && 0 <= j < n ==> a[i] != b[j]
    ensures forall i, j :: 0 <= i < j < n ==> a[i] != a[j] && b[i] != b[j]
  {
    a, b := [], [];
    for k := 0 to n
      invariant |a| == k == |b| && fresh(a) && fresh(b)
      invariant forall i :: 0 <= i < k ==> a[i].Length == wide == b[i].Length
      invariant forall i, j :: 0 <= i < k && 0 <= j < k ==> a[i] != b[j]
      invariant forall i, j :: 0 <= i < j < k ==> a[i] != a[j] && b[i] != b[j]
    {
      var x, y := new Sample[wide], new Sample[wide];
      a, b := a + [x], b + [y];
    }
  }

  class SeparateUpsampler {
    const p: Pass
    const t: Tables
    /** The conversion buffer's rows of Cb and Cr; its rows of Y are the input's. */
    const cbBuf: seq<array<Sample>>
    const crBuf: seq<array<Sample>>
    var lumaBuf: seq<Row>
    var nextRowOut: nat
    var rowsToGo: nat

    ghost function Parts(): set<object>
    {
      {this as object} + (set i | 0 <= i < |cbBuf| :: cbBuf[i] as object) + (set i | 0 <= i < |crBuf| :: crBuf[i] as object)
      + t.Parts()
    }

    ghost predicate BuffersOk()
    {
      && |cbBuf| == p.maxV == |crBuf|
      && (forall i :: 0 <= i < p.maxV ==> cbBuf[i].Length == p.width + p.width % 2 == crBuf[i].Length)
      && (forall i, j :: 0 <= i < p.maxV && 0 <= j < p.maxV ==> cbBuf[i] != crBuf[j])
      && (forall i, j :: 0 <= i < j < p.maxV ==> cbBuf[i] != cbBuf[j] && crBuf[i] != crBuf[j])
      && (forall i :: 0 <= i < p.maxV ==> cbBuf[i] !in t.Parts() && crBuf[i] !in t.Parts())
    }

    /** The conversion buffer holds row group ctr. */
    ghost predicate Holds(ctr: nat)
      requires PassOk(p) && BuffersOk() && ctr < |p.groups|
      reads this`lumaBuf, cbBuf, crBuf
    {
      && lumaBuf == p.groups[ctr].luma
      && (forall i :: 0 <= i < p.maxV ==> Doubled(cbBuf[i][..], p.groups[ctr].cb, p.width))
      && (forall i :: 0 <= i < p.maxV ==> Doubled(crBuf[i][..], p.groups[ctr].cr, p.width))
    }

    ghost predicate Valid(ctr: nat)
      reads Parts()
    {
      && PassOk(p) && t.Valid() && BuffersOk() && rowsToGo <= p.height && nextRowOut <= p.maxV
      && if nextRowOut == p.maxV then p.height - rowsToGo == p.maxV * ctr
         else p.height - rowsToGo == p.maxV * ctr + nextRowOut && ctr < |p.groups| && Holds(ctr)
    }

    ghost function Done(): int
      reads this
    {
      p.height - rowsToGo
    }

    constructor (p: Pass)
      requires PassOk(p)
      ensures this.p == p && Valid(0) && Done() == 0 && fresh(Parts()) && fresh(cbBuf) && fresh(crBuf)
    {
      hide Tables.Valid;
      this.p := p;
      t := new Tables();
      var cb, cr := NewBuffers(p.maxV, p.width + p.width % 2);
      cbBuf, crBuf := cb, cr;
      lumaBuf := [];
      nextRowOut, rowsToGo := p.maxV, p.height;
    }

    /** sep_upsample */
    method Upsample(inCtr: nat, output: seq<array<Sample>>, outCtr: nat) returns (inNext: nat, outNext: nat)
      requires Valid(inCtr) && rowsToGo > 0 && outCtr < |output| && OutputOk(p, output, Parts())
      modifies this, cbBuf, crBuf, output
      ensures Valid(inNext) && old(Done()) + (outNext - outCtr) == Done()
      ensures outNext == outCtr + Rows(p, old(Done()), |output| - outCtr)
      ensures Delivered(p, output, outCtr, old(Done()), outNext - outCtr)
      ensures rowsToGo > 0 ==> inNext == Done() / p.maxV
      ensures forall i :: 0 <= i < outCtr || outNext <= i < |output| ==> output[i][..] == old(output[i][..])
    {
      hide Valid, Delivered, PassOk, BuffersOk;
      FillBuffer(inCtr);
      inNext, outNext := EmitRows(inCtr, output, outCtr);
    }

    /** One call, for an output buffer with some rows in use: the rows delivered are taken over into the image. */
    method Deliver(inCtr: nat, image: seq<Row>, offer: Offer) returns (inNext: nat, more: seq<Row>)
      requires Valid(inCtr) && rowsToGo > 0 && offer.free > 0 && ImageTop(p, image) && |image| == Done()
      modifies this, cbBuf, crBuf
      ensures Valid(inNext) && ImageTop(p, more) && |more| == Done() == old(Done()) + Rows(p, old(Done()), offer.free)
    {
      hide PassOk, Rows, Delivered, ImageRow, Tables.Valid, GroupRow, BuffersOk;
      RowsFit();
      var output := NewRows(p, offer.used + offer.free);
      var outCtr;
      inNext, outCtr := Upsample(inCtr, output, offer.used);
      more := Collect(p, image, output, offer.used, outCtr);
    }

    lemma RowsFit()
      requires PassOk(p) && 0 < rowsToGo <= p.height
      ensures forall free: nat :: Done() + Rows(p, Done(), free) <= p.height
    {
    }

    /** Color-convert and emit rows. */
    method EmitRows(inCtr: nat, output: seq<array<Sample>>, outCtr: nat) returns (inNext: nat, outNext: nat)
      requires Valid(inCtr) && rowsToGo > 0 && outCtr < |output| && OutputOk(p, output, Parts()) && nextRowOut < p.maxV
      modifies this`nextRowOut, this`rowsToGo, output
      ensures Valid(inNext) && old(Done()) + (outNext - outCtr) == Done()
      ensures outNext == outCtr + Rows(p, old(Done()), |output| - outCtr)
      ensures Delivered(p, output, outCtr, old(Done()), outNext - outCtr)
      ensures rowsToGo > 0 ==> inNext == Done() / p.maxV
      ensures forall i :: 0 <= i < outCtr || outNext <= i < |output| ==> output[i][..] == old(output[i][..])
    {
      hide MergedRow, Tables.Valid, Delivered, Holds, BuffersOk, GroupOk;
      RowsInGroup(inCtr, nextRowOut);
      var numRows := p.maxV - nextRowOut;
      if numRows > rowsToGo {
        numRows := rowsToGo;
      }
      if numRows > |output| - outCtr {
        numRows := |output| - outCtr;
      }
      ColorConvert(inCtr, output, outCtr, numRows);
      outNext := outCtr + numRows;
      rowsToGo := rowsToGo - numRows;
      nextRowOut := nextRowOut + numRows;
      inNext := inCtr;
      if nextRowOut >= p.maxV {
        inNext := inCtr + 1;
      }
      RowsInGroup(inCtr, nextRowOut);
    }

    lemma RowsInGroup(ctr: nat, v: nat)
      requires 1 <= p.maxV <= 2 && v <= p.maxV
      ensures v < p.maxV ==> (p.maxV * ctr + v) % p.maxV == v && (p.maxV * ctr + v) / p.maxV == ctr
      ensures v == p.maxV ==> p.maxV * ctr + v == p.maxV * (ctr + 1) && (p.maxV * ctr + v) / p.maxV == ctr + 1
    {
    }

    /** Fill the conversion buffer, if it is empty. */
    method FillBuffer(ctr: nat)
      requires Valid(ctr) && rowsToGo > 0
      modifies this`lumaBuf, this`nextRowOut, cbBuf, crBuf
      ensures Valid(ctr) && nextRowOut < p.maxV && Done() == old(Done())
    {
      hide Tables.Valid, Holds, BuffersOk;
      if nextRowOut >= p.maxV {
        LoadBuffer(ctr);
        nextRowOut := 0;
      }
    }

    method LoadBuffer(ctr: nat)
      requires PassOk(p) && t.Valid() && BuffersOk() && ctr < |p.groups|
      modifies this`lumaBuf, cbBuf, crBuf
      ensures t.Valid() && Holds(ctr)
    {
      hide Tables.Valid, Doubled;
      lumaBuf := p.groups[ctr].luma;
      UpsampleChroma(p.groups[ctr].cb, cbBuf);
      UpsampleChroma(p.groups[ctr].cr, crBuf);
    }

    method UpsampleChroma(row: Row, buf: seq<array<Sample>>)
      requires 1 <= p.maxV <= 2 && |buf| == p.maxV && (p.width + 1) / 2 <= |row|
      requires forall i :: 0 <= i < p.maxV ==> buf[i].Length == p.width + p.width % 2
      requires forall i, j :: 0 <= i < j < p.maxV ==> buf[i] != buf[j]
      modifies buf
      ensures forall i :: 0 <= i < p.maxV ==> Doubled(buf[i][..], row, p.width)
    {
      hide Doubled;
      if p.maxV == 2 {
        H2v2Upsample(row, buf[0], buf[1], p.width);
      } else {
        H2v1Upsample(row, buf[0], p.width);
      }
    }

    /** The rows of the conversion buffer from nextRowOut on, converted */
    method ColorConvert(ctr: nat, output: seq<array<Sample>>, outCtr: nat, numRows: nat)
      requires PassOk(p) && t.Valid() && BuffersOk() && ctr < |p.groups| && Holds(ctr)
      requires nextRowOut + numRows <= p.maxV && p.maxV * ctr + nextRowOut + numRows <= p.height
      requires outCtr + numRows <= |output| && OutputOk(p, output, Parts())
      modifies output
      ensures t.Valid() && Holds(ctr) && Delivered(p, output, outCtr, p.maxV * ctr + nextRowOut, numRows)
      ensures forall i :: 0 <= i < outCtr || outCtr + numRows <= i < |output| ==> output[i][..] == old(output[i][..])
    {
      hide Tables.Valid, Doubled, GroupRow, ImageRow;
      var row := 0;
      while row < numRows
        invariant row <= numRows && t.Valid() && Holds(ctr)
        invariant Delivered(p, output, outCtr, p.maxV * ctr + nextRowOut, row)
        invariant forall i :: 0 <= i < outCtr || outCtr + row <= i < |output| ==> output[i][..] == old(output[i][..])
      {
        RowOfImage(p, ctr, nextRowOut + row);
        ConvertRow(ctr, nextRowOut + row, output[outCtr + row]);
        row := row + 1;
      }
    }

    method ConvertRow(ctr: nat, v: nat, out: array<Sample>)
      requires PassOk(p) && t.Valid() && BuffersOk() && ctr < |p.groups| && Holds(ctr) && v < p.maxV
      requires out.Length == 3 * p.width && out !in Parts()
      modifies out
      ensures t.Valid() && Holds(ctr) && out[..] == GroupRow(p, ctr, v)
    {
      hide MergedRow, ConvertedRow, Tables.Valid, Doubled;
      YccRgbConvert(t, lumaBuf[v], cbBuf[v], crBuf[v], out, p.width);
      ConvertedIsMerged(lumaBuf[v], p.groups[ctr].cb, p.groups[ctr].cr, cbBuf[v][..], crBuf[v][..], p.width);
    }
  }

  // ----- Whole passes

  /** One call: the output buffer has some rows in use already, and at least one that is free. */
  datatype Offer = Offer(used: nat, free: nat)

  /** The rows out after all the calls. */
  function Progress(p: Pass, offers: seq<Offer>): (d: nat)
    requires PassOk(p)
    ensures d <= p.height
    ensures (forall i :: 0 <= i < |offers| ==> offers[i].free > 0) ==> d >= Min(|offers|, p.height)
  {
    if offers == [] then 0
    else
      var d := Progress(p, offers[..|offers| - 1]);
      if d < p.height then d + Rows(p, d, offers[|offers| - 1].free) else d
  }

  predicate OffersOk(offers: seq<Offer>) {
    forall i :: 0 <= i < |offers| ==> offers[i].free > 0
  }

  /** The first rows of the output image. */
  ghost predicate ImageTop(p: Pass, image: seq<Row>)
    requires PassOk(p)
  {
    |image| <= p.height && forall d :: 0 <= d < |image| ==> image[d] == ImageRow(p, d)
  }

  method NewRows(p: Pass, n: nat) returns (output: seq<array<Sample>>)
    ensures |output| == n && fresh(output) && OutputOk(p, output, {})
  {
    output := [];
    for i := 0 to n
      invariant |output| == i && fresh(output) && OutputOk(p, output, {})
    {
      var row := new Sample[3 * p.width];
      output := output + [row];
    }
  }

  /** Take over rows from..to of the output buffer. */
  method Collect(p: Pass, image: seq<Row>, output: seq<array<Sample>>, from: nat, to: nat) returns (more: seq<Row>)
    requires PassOk(p) && ImageTop(p, image) && from <= to <= |output| && |image| + (to - from) <= p.height
    requires Delivered(p, output, from, |image|, to - from)
    ensures ImageTop(p, more) && |more| == |image| + (to - from)
  {
    hide ImageRow, PassOk;
    more := image;
    for i := from to to
      invariant ImageTop(p, more) && |more| == |image| + (i - from)
    {
      more := more + [output[i][..]];
    }
  }

  method RunMerged(p: Pass, offers: seq<Offer>) returns (image: seq<Row>)
    requires PassOk(p) && OffersOk(offers)
    ensures ImageTop(p, image) && |image| == Progress(p, offers)
  {
    hide PassOk, Rows, Delivered, ImageRow, Tables.Valid, GroupRow, MergedUpsampler.Valid;
    var u := new MergedUpsampler(p);
    image := [];
    var inCtr := 0;
    for i := 0 to |offers|
      invariant u.Valid(inCtr) && u.p == p && fresh(u.Parts())
      invariant ImageTop(p, image) && |image| == u.done == Progress(p, offers[..i])
    {
      assert offers[..i + 1][..i] == offers[..i];
      if |image| < p.height {
        inCtr, image := u.Deliver(inCtr, image, offers[i]);
      }
    }
    assert offers[..|offers|] == offers;
  }

  method RunSeparate(p: Pass, offers: seq<Offer>) returns (image: seq<Row>)
    requires PassOk(p) && OffersOk(offers)
    ensures ImageTop(p, image) && |image| == Progress(p, offers)
  {
    hide PassOk, Rows, Delivered, ImageRow, Tables.Valid, GroupRow, SeparateUpsampler.Valid, SeparateUpsampler.BuffersOk;
    var u := new SeparateUpsampler(p);
    image := [];
    var inCtr := 0;
    for i := 0 to |offers|
      invariant u.Valid(inCtr) && u.p == p && fresh(u.Parts()) && fresh(u.cbBuf) && fresh(u.crBuf)
      invariant ImageTop(p, image) && |image| == u.Done() == Progress(p, offers[..i])
    {
      assert offers[..i + 1][..i] == offers[..i];
      if |image| < p.height {
        inCtr, image := u.Deliver(inCtr, image, offers[i]);
      }
    }
    assert offers[..|offers|] == offers;
  }

  /** Row d is made of row d % maxV of Y of row group d / maxV, and of the chroma rows of that group. */
  ghost predicate ImagePixels(p: Pass, image: seq<Row>) {
    && 0 < p.maxV && |image| <= p.maxV * |p.groups|
    && forall d :: 0 <= d < |image| ==>
      && d / p.maxV < |p.groups| && d % p.maxV < |p.groups[d / p.maxV].luma|
      && var g := p.groups[d / p.maxV];
         ArePixels(image[d], g.luma[d % p.maxV], g.cb, g.cr, p.width)
  }

  lemma TopIsPixels(p: Pass, image: seq<Row>)
    requires PassOk(p) && ImageTop(p, image)
    ensures ImagePixels(p, image)
  {
    hide ArePixels, MergedRow;
    forall d | 0 <= d < |image|
      ensures d / p.maxV < |p.groups| && d % p.maxV < p.maxV
      ensures var g := p.groups[d / p.maxV]; ArePixels(image[d], g.luma[d % p.maxV], g.cb, g.cr, p.width)
    {
      var g := p.groups[d / p.maxV];
      MergedArePixels(g.luma[d % p.maxV], g.cb, g.cr, p.width);
    }
  }

  /** Merged upsampling delivers the rows that separate upsampling and color conversion deliver, call by call. */
  method MergedEqualsSeparate(p: Pass, offers: seq<Offer>) returns (merged: seq<Row>, separate: seq<Row>)
    requires PassOk(p) && OffersOk(offers)
    ensures merged == separate && ImageTop(p, merged) && |merged| == Progress(p, offers)
    ensures |offers| >= p.height ==> |merged| == p.height
    ensures ImagePixels(p, merged)
  {
    hide PassOk, ImageRow, ImagePixels;
    merged := RunMerged(p, offers);
    separate := RunSeparate(p, offers);
    TopIsPixels(p, merged);
  }
}
