/**
 The decompressor's main buffer controller where the upsampler needs context rows (process_data_context_main of
 jdmainct.c): iMCU rows go in, row groups with the row groups above and below them come out.
 */
module MainController {
  import opened McuGeometry
  import opened Samples
  import opened ContextGeometry
  import opened ContextRows

  /** What post_process_data does when called: the row groups it takes, and whether the output buffer is then full. */
  datatype Taken = Taken(groups: nat, full: bool)

  datatype ContextState = PrepareForImcu | ProcessImcu | PostponedRow

  ghost predicate LanesOk(f: Frame, image: seq<seq<Row>>, buffer: seq<array<Row>>, xbuffer: seq<array2<nat>>)
    requires FrameOk(f)
  {
    && |image| == |buffer| == |xbuffer| == |f.lanes|
    && (forall i :: 0 <= i < |f.lanes| ==> LaneSize(f, i, xbuffer[i], buffer[i], image[i]))
    && (forall i, j :: 0 <= i < j < |buffer| ==> buffer[i] != buffer[j])
    && (forall i, j :: 0 <= i < j < |xbuffer| ==> xbuffer[i] != xbuffer[j])
  }

  ghost predicate AllReceived(f: Frame, image: seq<seq<Row>>, buffer: seq<array<Row>>, xbuffer: seq<array2<nat>>, r: nat)
    requires FrameOk(f) && LanesOk(f, image, buffer, xbuffer) && r < TotalImcuRows(f)
    reads buffer
  {
    forall i :: 0 <= i < |f.lanes| ==> Received(f, i, xbuffer[i], buffer[i], image[i], r)
  }

  /** The last two row groups of iMCU row r are in the workspace. */
  ghost predicate AllTail(f: Frame, image: seq<seq<Row>>, buffer: seq<array<Row>>, xbuffer: seq<array2<nat>>, r: nat)
    requires FrameOk(f) && LanesOk(f, image, buffer, xbuffer) && r < TotalImcuRows(f)
    reads buffer
  {
    forall i :: 0 <= i < |f.lanes| ==> HeldImcu(f, i, buffer[i], image[i], r, Body(f, i))
  }

  ghost predicate XSizes(f: Frame, xbuffer: seq<array2<nat>>)
    requires FrameOk(f)
  {
    |xbuffer| == |f.lanes| && forall i :: 0 <= i < |f.lanes| ==> ListSize(xbuffer[i], Rgroup(f, i), Body(f, i))
  }

  ghost predicate AllLists(f: Frame, xbuffer: seq<array2<nat>>, r: nat)
    requires FrameOk(f) && XSizes(f, xbuffer)
    reads xbuffer
  {
    forall i :: 0 <= i < |f.lanes| ==> Lists(f, i, xbuffer[i], r)
  }

  ghost predicate AllBottom(f: Frame, xbuffer: seq<array2<nat>>)
    requires FrameOk(f) && XSizes(f, xbuffer)
    reads xbuffer
  {
    forall i :: 0 <= i < |f.lanes| ==> ListsAtBottom(f, i, xbuffer[i])
  }

  // ----- What the upsampler has seen

  /** The rows of a component around row group n. */
  ghost predicate LaneSeen(f: Frame, ci: nat, img: seq<Row>, rows: seq<Row>, n: nat)
    requires FrameOk(f) && ci < |f.lanes|
  {
    && |rows| == 3 * Rgroup(f, ci)
    && forall o :: 0 <= o < |rows| ==> 0 <= SourceRow(f, ci, n, o) < |img| && rows[o] == img[SourceRow(f, ci, n, o)]
  }

  ghost predicate GroupSeen(f: Frame, image: seq<seq<Row>>, view: seq<seq<Row>>, n: nat)
    requires FrameOk(f) && |image| == |f.lanes|
  {
    |view| == |f.lanes| && forall i :: 0 <= i < |view| ==> LaneSeen(f, i, image[i], view[i], n)
  }

  /** Row groups 0, 1, 2 and so on, once each, with their surroundings. */
  ghost predicate SeenInOrder(f: Frame, image: seq<seq<Row>>, seen: seq<seq<seq<Row>>>)
    requires FrameOk(f) && |image| == |f.lanes|
  {
    forall n :: 0 <= n < |seen| ==> GroupSeen(f, image, seen[n], n)
  }

  /** Seen at row group k of list w, the lane shows row group n. */
  ghost predicate LaneShows(f: Frame, ci: nat, x: array2<nat>, buf: array<Row>, img: seq<Row>, w: nat, k: nat, n: nat)
    requires FrameOk(f) && ci < |f.lanes|
    reads x, buf
  {
    forall o :: 0 <= o < 3 * Rgroup(f, ci) ==> Shows(x, buf, w, k * Rgroup(f, ci) + o, img, SourceRow(f, ci, n, o))
  }

  ghost predicate GroupShown(f: Frame, image: seq<seq<Row>>, buffer: seq<array<Row>>, xbuffer: seq<array2<nat>>,
                             w: nat, k: nat, n: nat)
    requires FrameOk(f) && LanesOk(f, image, buffer, xbuffer)
    reads buffer, xbuffer
  {
    forall i :: 0 <= i < |f.lanes| ==> LaneShows(f, i, xbuffer[i], buffer[i], image[i], w, k, n)
  }

  lemma ImcuShown(f: Frame, image: seq<seq<Row>>, buffer: seq<array<Row>>, xbuffer: seq<array2<nat>>, r: nat, k: nat)
    requires FrameOk(f) && LanesOk(f, image, buffer, xbuffer) && r < TotalImcuRows(f)
    requires AllReceived(f, image, buffer, xbuffer, r)
    requires if r + 1 == TotalImcuRows(f) then AllBottom(f, xbuffer) && k < LastGroups(f)
             else AllLists(f, xbuffer, r) && k + 1 < f.m
    ensures GroupShown(f, image, buffer, xbuffer, r % 2, k, r * f.m + k)
  {
    hide FrameOk, LaneSize, Received, Lists, ListsAtBottom, Rgroup, SourceRow, Shows, TotalImcuRows, LastGroups;
    var n := r * f.m + k;
    forall i | 0 <= i < |f.lanes|
      ensures LaneShows(f, i, xbuffer[i], buffer[i], image[i], r % 2, k, n)
    {
      forall o | 0 <= o < 3 * Rgroup(f, i)
        ensures Shows(xbuffer[i], buffer[i], r % 2, k * Rgroup(f, i) + o, image[i], SourceRow(f, i, n, o))
      {
        if r + 1 == TotalImcuRows(f) {
          BottomView(f, i, xbuffer[i], buffer[i], image[i], r, k, o);
        } else {
          ImcuView(f, i, xbuffer[i], buffer[i], image[i], r, k, o);
        }
      }
    }
  }

  lemma PostponedShown(f: Frame, image: seq<seq<Row>>, buffer: seq<array<Row>>, xbuffer: seq<array2<nat>>, r: nat)
    requires FrameOk(f) && LanesOk(f, image, buffer, xbuffer) && 0 < r < TotalImcuRows(f)
    requires AllReceived(f, image, buffer, xbuffer, r) && AllLists(f, xbuffer, r)
    ensures 0 < r * f.m && GroupShown(f, image, buffer, xbuffer, r % 2, f.m + 1, r * f.m - 1)
  {
    hide FrameOk, LaneSize, Received, Lists, Rgroup, SourceRow, Shows, TotalImcuRows;
    HasLane(f);
    LastOfImcu(f, 0, r);
    var n, k := r * f.m - 1, f.m + 1;
    forall i | 0 <= i < |f.lanes|
      ensures LaneShows(f, i, xbuffer[i], buffer[i], image[i], r % 2, k, n)
    {
      forall o | 0 <= o < 3 * Rgroup(f, i)
        ensures Shows(xbuffer[i], buffer[i], r % 2, k * Rgroup(f, i) + o, image[i], SourceRow(f, i, n, o))
      {
        PostponedView(f, i, xbuffer[i], buffer[i], image[i], r, o);
      }
    }
  }

  // ----- Operations over all components

  /** The rows that the upsampler finds around row group k of list w. */
  method LookAt(f: Frame, image: seq<seq<Row>>, buffer: seq<array<Row>>, xbuffer: seq<array2<nat>>,
                w: nat, k: nat, ghost n: nat) returns (view: seq<seq<Row>>)
    requires FrameOk(f) && LanesOk(f, image, buffer, xbuffer) && GroupShown(f, image, buffer, xbuffer, w, k, n)
    ensures GroupSeen(f, image, view, n)
  {
    hide FrameOk, LaneSize, Rgroup, SourceRow;
    view := [];
    for ci := 0 to |f.lanes|
      invariant |view| == ci && forall i :: 0 <= i < ci ==> LaneSeen(f, i, image[i], view[i], n)
    {
      var g := Rgroup(f, ci);
      var rows: seq<Row> := [];
      assert LaneShows(f, ci, xbuffer[ci], buffer[ci], image[ci], w, k, n);
      for o := 0 to 3 * g
        invariant |rows| == o
        invariant forall i :: 0 <= i < o ==>
          0 <= SourceRow(f, ci, n, i) < |image[ci]| && rows[i] == image[ci][SourceRow(f, ci, n, i)]
      {
        assert Shows(xbuffer[ci], buffer[ci], w, k * g + o, image[ci], SourceRow(f, ci, n, o));
        rows := rows + [buffer[ci][xbuffer[ci][w, k * g + o]]];
      }
      view := view + [rows];
    }
  }

  /** Read iMCU row r through list w, or as much of it as there is. */
  method ReadImcuRow(f: Frame, image: seq<seq<Row>>, buffer: seq<array<Row>>, xbuffer: seq<array2<nat>>,
                     r: nat, complete: bool, partial: seq<seq<Row>>)
    requires FrameOk(f) && LanesOk(f, image, buffer, xbuffer) && r < TotalImcuRows(f)
    requires AllLists(f, xbuffer, r) && (r > 0 ==> AllTail(f, image, buffer, xbuffer, r - 1))
    requires |partial| == |f.lanes| && forall i :: 0 <= i < |f.lanes| ==> |partial[i]| == ImcuHeight(f, i)
    modifies buffer
    ensures if complete then AllReceived(f, image, buffer, xbuffer, r)
            else r > 0 ==> AllTail(f, image, buffer, xbuffer, r - 1)
  {
    hide FrameOk, Rgroup, Body, ImcuHeight, RowsBefore, TotalImcuRows, DownsampledHeight, TopLists, NormalLists, HeldImcu;
    for ci := 0 to |f.lanes|
      invariant forall i :: 0 <= i < ci && complete ==> Received(f, i, xbuffer[i], buffer[i], image[i], r)
      invariant r > 0 ==> AllTail(f, image, buffer, xbuffer, r - 1)
    {
      ReadLane(f, ci, xbuffer[ci], buffer[ci], image[ci], r, complete, partial[ci]);
    }
  }

  method ReadLane(f: Frame, ci: nat, x: array2<nat>, buf: array<Row>, img: seq<Row>, r: nat, complete: bool, partial: seq<Row>)
    requires FrameOk(f) && ci < |f.lanes| && LaneSize(f, ci, x, buf, img) && r < TotalImcuRows(f)
    requires Lists(f, ci, x, r) && (r > 0 ==> HeldImcu(f, ci, buf, img, r - 1, Body(f, ci)))
    requires |partial| == ImcuHeight(f, ci)
    modifies buf
    ensures complete ==> Received(f, ci, x, buf, img, r)
    ensures r > 0 ==> HeldImcu(f, ci, buf, img, r - 1, Body(f, ci))
  {
    hide FrameOk, Rgroup, Body, ImcuHeight, RowsBefore, TotalImcuRows, DownsampledHeight, TopLists, NormalLists, Phys;
    var g, b, w := Rgroup(f, ci), Body(f, ci), r % 2;
    BaseFits(f, ci, r);
    ImcuIsBody(f, ci);
    ListsMean(f, ci, x, r);
    var rows := if complete then img[RowsBefore(f, ci, r)..RowsBefore(f, ci, r + 1)] else partial;
    if r > 0 {
      Parity(r);
      BaseFits(f, ci, r - 1);
      DecompressData(x, buf, w, g, b, rows, img, RowsBefore(f, ci, r - 1));
    } else {
      DecompressData(x, buf, w, g, b, rows, [], 0);
    }
  }

  /** After the last iMCU row, when the lists are at the bottom, this does no harm. */
  method SetAllWraparound(f: Frame, image: seq<seq<Row>>, buffer: seq<array<Row>>, xbuffer: seq<array2<nat>>)
    requires FrameOk(f) && LanesOk(f, image, buffer, xbuffer) && XSizes(f, xbuffer)
    modifies xbuffer
    ensures old(AllLists(f, xbuffer, 0)) ==> AllLists(f, xbuffer, 1)
  {
    hide FrameOk, Rgroup, Body, TotalImcuRows, LaneSize;
    for ci := 0 to |f.lanes|
      invariant forall i :: 0 <= i < ci && old(AllLists(f, xbuffer, 0)) ==> Lists(f, i, xbuffer[i], 1)
      invariant forall i :: ci <= i < |f.lanes| && old(AllLists(f, xbuffer, 0)) ==> Lists(f, i, xbuffer[i], 0)
    {
      SetWraparoundPointers(xbuffer[ci], Rgroup(f, ci), Body(f, ci));
    }
  }

  method SetAllBottom(f: Frame, image: seq<seq<Row>>, buffer: seq<array<Row>>, xbuffer: seq<array2<nat>>, w: nat)
    returns (rowgroupsAvail: nat)
    requires FrameOk(f) && LanesOk(f, image, buffer, xbuffer) && XSizes(f, xbuffer)
    requires AllLists(f, xbuffer, TotalImcuRows(f) - 1) && w == (TotalImcuRows(f) - 1) % 2
    modifies xbuffer
    ensures AllBottom(f, xbuffer) && rowgroupsAvail == LastGroups(f)
  {
    hide FrameOk, Rgroup, Body, TotalImcuRows, LaneSize, RowsLeft, LastGroups, Lists, ListsAtBottom;
    rowgroupsAvail := 0;
    GroupsPerImcu(f);
    var last := TotalImcuRows(f) - 1;
    for ci := 0 to |f.lanes|
      invariant forall i :: 0 <= i < ci ==> ListsAtBottom(f, i, xbuffer[i])
      invariant forall i :: ci <= i < |f.lanes| ==> Lists(f, i, xbuffer[i], last)
      invariant ci > 0 ==> rowgroupsAvail == LastGroups(f)
    {
      BottomGroups(f, ci);
      if ci == 0 {
        rowgroupsAvail := (RowsLeft(f, ci) - 1) / Rgroup(f, ci) + 1;
      }
      SetLaneBottom(f, ci, xbuffer[ci], w);
    }
    HasLane(f);
  }

  lemma HasLane(f: Frame)
    requires FrameOk(f)
    ensures |f.lanes| > 0
  {
  }

  method SetLaneBottom(f: Frame, ci: nat, x: array2<nat>, w: nat)
    requires FrameOk(f) && ci < |f.lanes| && ListSize(x, Rgroup(f, ci), Body(f, ci))
    requires Lists(f, ci, x, TotalImcuRows(f) - 1) && w == (TotalImcuRows(f) - 1) % 2
    modifies x
    ensures ListsAtBottom(f, ci, x)
  {
    hide FrameOk, Rgroup, Body, TotalImcuRows, RowsLeft, Phys;
    BottomGroups(f, ci);
    ImcuIsBody(f, ci);
    Layout(f, ci);
    ListsMean(f, ci, x, TotalImcuRows(f) - 1);
    SetBottomPointers(x, w, Rgroup(f, ci), Body(f, ci), RowsLeft(f, ci));
  }

  /** The main buffer; image is what the coefficient controller delivers, iMCU row by iMCU row. */
  class MainController {
    const f: Frame
    const image: seq<seq<Row>>
    const buffer: seq<array<Row>>
    const xbuffer: seq<array2<nat>>
    var bufferFull: bool
    var rowgroupCtr: nat
    var whichptr: nat
    var contextState: ContextState
    var rowgroupsAvail: nat
    var imcuRowCtr: nat
    /** The row groups that the postprocessor has taken, each with the ones around it. */
    var seen: seq<seq<seq<Row>>>

    /** jinit_d_main_controller and start_pass_main; image has the rows of whole iMCU rows, padding included. */
    constructor (f: Frame, image: seq<seq<Row>>)
      requires FrameOk(f) && |image| == |f.lanes|
      requires forall i :: 0 <= i < |f.lanes| ==> |image[i]| == RowsBefore(f, i, TotalImcuRows(f))
      ensures Valid() && this.f == f && this.image == image && seen == [] && imcuRowCtr == 0 && !Finished()
      ensures fresh(buffer) && fresh(xbuffer)
    {
      hide FrameOk, TotalImcuRows, RowsBefore, Rgroup, Body;
      this.f, this.image := f, image;
      var workspace, lists := AllocateLanes(f, image);
      buffer, xbuffer := workspace, lists;
      bufferFull, rowgroupCtr, whichptr, contextState, imcuRowCtr, rowgroupsAvail := false, 0, 0, PrepareForImcu, 0, 0;
      seen := [];
    }

    ghost predicate Sound()
    {
      FrameOk(f) && LanesOk(f, image, buffer, xbuffer) && XSizes(f, xbuffer)
    }

    ghost predicate HasImcu()
      requires Sound()
      reads this, buffer
    {
      && 1 <= imcuRowCtr <= TotalImcuRows(f) && whichptr == (imcuRowCtr - 1) % 2
      && AllReceived(f, image, buffer, xbuffer, imcuRowCtr - 1)
    }

    ghost predicate Preparing()
      requires Sound()
      reads this, buffer, xbuffer
    {
      if bufferFull then
        HasImcu() && AllLists(f, xbuffer, imcuRowCtr - 1) && |seen| == (imcuRowCtr - 1) * f.m
      else
        imcuRowCtr == 0 && whichptr == 0 && AllLists(f, xbuffer, 0) && seen == []
    }

    ghost predicate Processing()
      requires Sound()
      reads this, buffer, xbuffer
    {
      && bufferFull && HasImcu() && |seen| == (imcuRowCtr - 1) * f.m + rowgroupCtr && rowgroupCtr <= rowgroupsAvail
      && if imcuRowCtr == TotalImcuRows(f) then AllBottom(f, xbuffer) && rowgroupsAvail == LastGroups(f)
         else AllLists(f, xbuffer, imcuRowCtr - 1) && rowgroupsAvail == f.m - 1
    }

    ghost predicate Postponing()
      requires Sound()
      reads this, buffer, xbuffer
    {
      && rowgroupsAvail == f.m + 2
      && if bufferFull then
           && imcuRowCtr >= 2 && HasImcu() && AllLists(f, xbuffer, imcuRowCtr - 1)
           && f.m + 1 <= rowgroupCtr <= f.m + 2 && |seen| + 1 == (imcuRowCtr - 1) * f.m + (rowgroupCtr - (f.m + 1))
         else rowgroupCtr == f.m + 1 && if imcuRowCtr == TotalImcuRows(f) then |seen| == TotalGroups(f) else Awaiting()
    }

    /** The last row group of an iMCU row waits for the next iMCU row. */
    ghost predicate Awaiting()
      requires Sound()
      reads this, buffer, xbuffer
    {
      && 1 <= imcuRowCtr < TotalImcuRows(f) && whichptr == imcuRowCtr % 2
      && AllTail(f, image, buffer, xbuffer, imcuRowCtr - 1)
      && AllLists(f, xbuffer, imcuRowCtr) && |seen| + 1 == imcuRowCtr * f.m
    }

    ghost predicate Valid()
      reads this, buffer, xbuffer
    {
      && Sound() && SeenInOrder(f, image, seen) && imcuRowCtr <= TotalImcuRows(f)
      && match contextState
         case PrepareForImcu => Preparing()
         case ProcessImcu => Processing() && rowgroupCtr < rowgroupsAvail
         case PostponedRow => Postponing() && rowgroupCtr < rowgroupsAvail
    }

    predicate Finished()
      requires FrameOk(f)
      reads this
    {
      contextState.PostponedRow? && !bufferFull && imcuRowCtr == TotalImcuRows(f)
    }

    /** The postprocessor takes row groups from list whichptr. */
    method PostProcessData(taken: Taken)
      requires Sound() && SeenInOrder(f, image, seen) && rowgroupCtr <= rowgroupsAvail
      requires forall k, n :: rowgroupCtr <= k < rowgroupsAvail && n == |seen| + k - rowgroupCtr ==>
        GroupShown(f, image, buffer, xbuffer, whichptr, k, n)
      modifies this`rowgroupCtr, this`seen
      ensures SeenInOrder(f, image, seen) && old(seen) <= seen
      ensures rowgroupCtr == old(rowgroupCtr) + (if taken.groups <= rowgroupsAvail - old(rowgroupCtr) then taken.groups
                                                 else rowgroupsAvail - old(rowgroupCtr))
      ensures |seen| == |old(seen)| + (rowgroupCtr - old(rowgroupCtr))
    {
      hide FrameOk, LaneSize, GroupShown, GroupSeen;
      var count := 0;
      while count < taken.groups && rowgroupCtr < rowgroupsAvail
        invariant rowgroupCtr == old(rowgroupCtr) + count && |seen| == |old(seen)| + count && old(seen) <= seen
        invariant SeenInOrder(f, image, seen) && count <= taken.groups && rowgroupCtr <= rowgroupsAvail
      {
        assert GroupShown(f, image, buffer, xbuffer, whichptr, rowgroupCtr, |seen|);
        var view := LookAt(f, image, buffer, xbuffer, whichptr, rowgroupCtr, |seen|);
        seen := seen + [view];
        rowgroupCtr := rowgroupCtr + 1;
        count := count + 1;
      }
    }

    /**
     One call of process_data.  complete and partial say what decompress_data does if it is called, first and second what
     the postprocessor does in its first and second call.
     */
    method ProcessData(complete: bool, partial: seq<seq<Row>>, first: Taken, second: Taken)
      requires Valid() && !Finished()
      requires |partial| == |f.lanes| && forall i :: 0 <= i < |f.lanes| ==> |partial[i]| == ImcuHeight(f, i)
      modifies this, buffer, xbuffer
      ensures Valid() && old(seen) <= seen
      ensures complete && first.groups > 0 && second.groups > 0 ==>
        |seen| + imcuRowCtr > |old(seen)| + old(imcuRowCtr)
    {
      hide Sound, Preparing, Processing, Postponing, SeenInOrder, TotalImcuRows;
      if !bufferFull {
        Fill(complete, partial);
        if !complete {
          return;
        }
      }
      if contextState.PostponedRow? {
        HandPostponed(first);
        if contextState.PostponedRow? || first.full {
          return;
        }
      }
      HandImcu(second);
    }

    /** Read input data, if the main buffer is not filled yet. */
    method Fill(complete: bool, partial: seq<seq<Row>>)
      requires Valid() && !Finished() && !bufferFull
      requires |partial| == |f.lanes| && forall i :: 0 <= i < |f.lanes| ==> |partial[i]| == ImcuHeight(f, i)
      modifies this`bufferFull, this`imcuRowCtr, buffer
      ensures Valid() && bufferFull == complete && imcuRowCtr == old(imcuRowCtr) + (if complete then 1 else 0)
    {
      hide FrameOk, LanesOk, XSizes, TotalImcuRows, TotalGroups, LastGroups, ImcuHeight, SeenInOrder;
      hide AllLists, AllReceived, AllTail, AllBottom;
      GroupsPerImcu(f);
      ReadImcuRow(f, image, buffer, xbuffer, imcuRowCtr, complete, partial);
      if complete {
        bufferFull := true;
        imcuRowCtr := imcuRowCtr + 1;
      }
    }

    /** The postponed row group is handed over. */
    method HandPostponed(taken: Taken)
      requires Valid() && bufferFull && contextState.PostponedRow?
      modifies this`rowgroupCtr, this`contextState, this`seen
      ensures Valid() && bufferFull && !contextState.ProcessImcu? && old(seen) <= seen
      ensures taken.groups > 0 ==> |seen| > |old(seen)|
    {
      hide FrameOk, LanesOk, XSizes, TotalImcuRows, TotalGroups, LastGroups, SeenInOrder;
      hide AllLists, AllReceived, AllTail, AllBottom, GroupShown;
      PostponedReady();
      PostProcessData(taken);
      if rowgroupCtr >= rowgroupsAvail {
        contextState := PrepareForImcu;
      }
    }

    /** The other row groups of the iMCU row are handed over. */
    method HandImcu(taken: Taken)
      requires Valid() && bufferFull && !contextState.PostponedRow?
      modifies this`rowgroupCtr, this`rowgroupsAvail, this`contextState, this`whichptr, this`bufferFull, this`seen, xbuffer
      ensures Valid() && old(seen) <= seen
      ensures taken.groups > 0 ==> |seen| > |old(seen)|
    {
      hide FrameOk, LanesOk, XSizes, TotalImcuRows, TotalGroups, LastGroups, SeenInOrder;
      hide AllLists, AllReceived, AllTail, AllBottom, GroupShown;
      if contextState.PrepareForImcu? {
        Prepare();
      }
      ProcessReady();
      PostProcessData(taken);
      if rowgroupCtr >= rowgroupsAvail {
        Postpone();
      }
    }

    lemma SeenCount()
      requires Valid()
      ensures |seen| <= TotalGroups(f) && (Finished() <==> |seen| == TotalGroups(f))
    {
      hide FrameOk, LanesOk, XSizes, TotalImcuRows, TotalGroups, SeenInOrder;
      hide AllLists, AllReceived, AllTail, AllBottom;
      GroupsPerImcu(f);
      var t := TotalImcuRows(f);
      if imcuRowCtr > 0 {
        Distribute(imcuRowCtr - 1, 1, f.m);
        MulMonotone(imcuRowCtr, t, f.m);
        if imcuRowCtr < t {
          MulMonotone(imcuRowCtr, t - 1, f.m);
        }
      }
    }

    lemma PostponedReady()
      requires Sound() && Postponing() && bufferFull && rowgroupCtr < rowgroupsAvail
      ensures forall k, n :: rowgroupCtr <= k < rowgroupsAvail && n == |seen| + k - rowgroupCtr ==>
        GroupShown(f, image, buffer, xbuffer, whichptr, k, n)
    {
      hide FrameOk, LanesOk, XSizes, TotalImcuRows, LastGroups, AllLists, AllReceived, AllTail, AllBottom, GroupShown;
      PostponedShown(f, image, buffer, xbuffer, imcuRowCtr - 1);
    }

    lemma ProcessReady()
      requires Sound() && Processing()
      ensures forall k, n :: rowgroupCtr <= k < rowgroupsAvail && n == |seen| + k - rowgroupCtr ==>
        GroupShown(f, image, buffer, xbuffer, whichptr, k, n)
    {
      hide FrameOk, LanesOk, XSizes, TotalImcuRows, LastGroups, AllLists, AllReceived, AllTail, AllBottom, GroupShown;
      forall k, n | rowgroupCtr <= k < rowgroupsAvail && n == |seen| + k - rowgroupCtr
        ensures GroupShown(f, image, buffer, xbuffer, whichptr, k, n)
      {
        ImcuShown(f, image, buffer, xbuffer, imcuRowCtr - 1, k);
      }
    }

    /** Prepare to process the first M - 1 row groups of the iMCU row, or all there are of the last one. */
    method Prepare()
      requires Sound() && Preparing() && bufferFull
      modifies this`rowgroupCtr, this`rowgroupsAvail, this`contextState, xbuffer
      ensures Processing() && rowgroupCtr == 0 < rowgroupsAvail && contextState == ProcessImcu
    {
      hide XSizes, TotalImcuRows, LastGroups, AllLists, AllReceived, AllTail, AllBottom;
      rowgroupCtr := 0;
      rowgroupsAvail := f.m - 1;
      if imcuRowCtr == TotalImcuRows(f) {
        rowgroupsAvail := SetAllBottom(f, image, buffer, xbuffer, whichptr);
      }
      contextState := ProcessImcu;
    }

    /** Prepare to load a new iMCU row using the other list. */
    method Postpone()
      requires Sound() && Processing() && rowgroupCtr == rowgroupsAvail
      modifies this`rowgroupCtr, this`rowgroupsAvail, this`contextState, this`whichptr, this`bufferFull, xbuffer
      ensures Postponing() && contextState == PostponedRow && !bufferFull && rowgroupCtr < rowgroupsAvail
    {
      hide FrameOk, XSizes, TotalImcuRows, TotalGroups, AllLists, AllReceived, AllTail, AllBottom;
      if imcuRowCtr < TotalImcuRows(f) {
        ReceivedTail(f, image, buffer, xbuffer, imcuRowCtr - 1);
        Distribute(imcuRowCtr - 1, 1, f.m);
      }
      if imcuRowCtr == 1 {
        SetAllWraparound(f, image, buffer, xbuffer);
      } else {
        ListsStayNormal(f, xbuffer, imcuRowCtr - 1, imcuRowCtr);
      }
      whichptr := 1 - whichptr;
      bufferFull := false;
      rowgroupCtr := f.m + 1;
      rowgroupsAvail := f.m + 2;
      contextState := PostponedRow;
    }
  }

  lemma ReceivedTail(f: Frame, image: seq<seq<Row>>, buffer: seq<array<Row>>, xbuffer: seq<array2<nat>>, r: nat)
    requires FrameOk(f) && LanesOk(f, image, buffer, xbuffer) && r < TotalImcuRows(f)
    requires AllReceived(f, image, buffer, xbuffer, r)
    ensures AllTail(f, image, buffer, xbuffer, r)
  {
    hide FrameOk, TotalImcuRows, Rgroup, Body;
    forall i | 0 <= i < |f.lanes|
      ensures HeldImcu(f, i, buffer[i], image[i], r, Body(f, i))
    {
      assert Received(f, i, xbuffer[i], buffer[i], image[i], r);
    }
  }

  lemma ListsStayNormal(f: Frame, xbuffer: seq<array2<nat>>, r: nat, q: nat)
    requires FrameOk(f) && XSizes(f, xbuffer)
    ensures r > 0 && q > 0 && AllLists(f, xbuffer, r) ==> AllLists(f, xbuffer, q)
  {
    hide FrameOk, Rgroup, Body, NormalLists;
    if r > 0 && q > 0 && AllLists(f, xbuffer, r) {
      forall i | 0 <= i < |f.lanes|
        ensures Lists(f, i, xbuffer[i], q)
      {
        assert Lists(f, i, xbuffer[i], r);
      }
    }
  }

  method AllocateLanes(f: Frame, image: seq<seq<Row>>) returns (buffer: seq<array<Row>>, xbuffer: seq<array2<nat>>)
    requires FrameOk(f) && |image| == |f.lanes|
    requires forall i :: 0 <= i < |f.lanes| ==> |image[i]| == RowsBefore(f, i, TotalImcuRows(f))
    ensures LanesOk(f, image, buffer, xbuffer) && XSizes(f, xbuffer) && AllLists(f, xbuffer, 0)
    ensures fresh(buffer) && fresh(xbuffer)
  {
    hide FrameOk, TotalImcuRows, RowsBefore, Rgroup, TopLists;
    buffer, xbuffer := [], [];
    for ci := 0 to |f.lanes|
      invariant |buffer| == |xbuffer| == ci && fresh(buffer) && fresh(xbuffer)
      invariant forall i :: 0 <= i < ci ==> LaneSize(f, i, xbuffer[i], buffer[i], image[i]) && Lists(f, i, xbuffer[i], 0)
      invariant forall i, j :: 0 <= i < j < ci ==> buffer[i] != buffer[j] && xbuffer[i] != xbuffer[j]
    {
      var g, b := Rgroup(f, ci), Body(f, ci);
      var rows, pointers := new Row[b + 4 * g], new nat[2, b + 6 * g];
      MakeFunnyPointers(pointers, g, b);
      buffer, xbuffer := buffer + [rows], xbuffer + [pointers];
    }
  }

  /** What happens in one call of process_data. */
  datatype Call = Call(complete: bool, partial: seq<seq<Row>>, first: Taken, second: Taken)

  predicate CallsOk(f: Frame, calls: seq<Call>)
    requires FrameOk(f)
  {
    forall k :: 0 <= k < |calls| ==>
      |calls[k].partial| == |f.lanes| && forall i :: 0 <= i < |f.lanes| ==> |calls[k].partial[i]| == ImcuHeight(f, i)
  }

  /** Enough calls that all get on: input is there, and the postprocessor takes something. */
  predicate Ample(f: Frame, calls: seq<Call>)
    requires FrameOk(f)
  {
    && |calls| > TotalGroups(f) + TotalImcuRows(f)
    && forall k :: 0 <= k < |calls| ==> calls[k].complete && calls[k].first.groups > 0 && calls[k].second.groups > 0
  }

  /**
   Whatever input and output do, the row groups of the image are handed over in order, each once, and each with the row
   groups above and below it; and if input and output get on, all of them are.
   */
  method Decompress(f: Frame, image: seq<seq<Row>>, calls: seq<Call>) returns (seen: seq<seq<seq<Row>>>, finished: bool)
    requires FrameOk(f) && |image| == |f.lanes| && CallsOk(f, calls)
    requires forall i :: 0 <= i < |f.lanes| ==> |image[i]| == RowsBefore(f, i, TotalImcuRows(f))
    ensures SeenInOrder(f, image, seen) && |seen| <= TotalGroups(f)
    ensures finished <==> |seen| == TotalGroups(f)
    ensures Ample(f, calls) ==> finished
  {
    hide FrameOk, TotalImcuRows, TotalGroups, RowsBefore, ImcuHeight, SeenInOrder;
    var c := new MainController(f, image);
    var i := 0;
    while i < |calls| && !c.Finished()
      invariant i <= |calls| && c.f == f && c.image == image && c.Valid() && fresh(c) && fresh(c.buffer) && fresh(c.xbuffer)
      invariant Ample(f, calls) ==> |c.seen| + c.imcuRowCtr >= i
    {
      c.ProcessData(calls[i].complete, calls[i].partial, calls[i].first, calls[i].second);
      i := i + 1;
    }
    c.SeenCount();
    seen, finished := c.seen, c.Finished();
  }

  /** Each real sample row is seen once with its own neighbours, the first and the last repeated at the edges. */
  lemma RealRowSeen(f: Frame, image: seq<seq<Row>>, seen: seq<seq<seq<Row>>>, ci: nat, n: nat, i: nat)
    requires FrameOk(f) && |image| == |f.lanes| && SeenInOrder(f, image, seen) && n < |seen| && ci < |f.lanes|
    requires i < Rgroup(f, ci) && n * Rgroup(f, ci) + i < DownsampledHeight(f, ci) <= |image[ci]|
    ensures |seen[n]| == |f.lanes| && |seen[n][ci]| == 3 * Rgroup(f, ci)
    ensures var g, row := Rgroup(f, ci), n * Rgroup(f, ci) + i;
      && seen[n][ci][g + i] == image[ci][row]
      && seen[n][ci][g + i - 1] == image[ci][if row > 0 then row - 1 else row]
      && seen[n][ci][g + i + 1] == image[ci][if row < DownsampledHeight(f, ci) - 1 then row + 1 else row]
  {
    hide FrameOk, Rgroup, DownsampledHeight, TotalImcuRows, SourceRow;
    NeighboursAreTrue(f, ci, n, i);
    assert GroupSeen(f, image, seen[n], n);
    assert LaneSeen(f, ci, image[ci], seen[n][ci], n);
  }
}
