/**
 Files of several scans end to end: for every valid script and every image size, decoding the scans one after the other,
 each from the bytes that the encoder writes for it, leaves every real coefficient exact down to the last bit that was
 sent for it.  Interleaved scans hold dummy blocks as well, of which nothing is known between scans.
 */
module ScriptRoundTrip {
  import opened Bits
  import opened Wrappers
  import opened HuffmanTables
  import opened BitSource
  import opened Symbols
  import opened Feeding
  import opened Coefficients
  import opened AcBand
  import opened AcSegment
  import opened McuCodec
  import opened ScanCodec
  import opened ScanRoundTrip
  import opened McuRoundTrip
  import opened McuGeometry
  import opened ScanLayouts
  import Script = ScanScript

  // ----- One block

  /** The routines selected for the scan, and its band and bits; all components are wanted. */
  predicate IsKind(s: Script.ScanInfo, c: Scan) {
    && c.kind == (if s.ss != 0 then AcScan else if s.se != 0 then Sequential else if s.ah == 0 then DcFirst else DcRefine)
    && (c.kind == Sequential ==>
        |c.needed| == |c.acNeeded| && forall i :: 0 <= i < |c.needed| ==> c.needed[i] && c.acNeeded[i])
    && (s.ss == 0 ==> c.al == s.al)
    && (s.ss != 0 ==> c.band.ss == s.ss && c.band.se == s.se && c.band.al == s.al && c.band.refine == (s.ah != 0))
  }

  /** Coefficient k cut off at bit al, as DC or AC coefficient. */
  function Cut(b: Block, k: nat, al: nat): Coef
    requires k < DCTSIZE2 && al <= 13
  {
    if k == 0 then TruncDc(b[0], al) else TruncAc(b[k], al)
  }

  predicate LevelsOk(last: seq<int>) {
    |last| == DCTSIZE2 && forall k :: 0 <= k < DCTSIZE2 ==> -1 <= last[k] <= 10
  }

  /** h holds what is known of b: nothing of a coefficient at level -1, and otherwise all bits down to its level. */
  predicate Known(last: seq<int>, b: Block, h: Block)
    requires LevelsOk(last)
  {
    forall k :: 0 <= k < DCTSIZE2 ==> h[k] == if last[k] < 0 then 0 else Cut(b, k, last[k])
  }

  /** What is known meets what the scan requires, and the scan adds exactly its band. */
  lemma ScanAdds(last: seq<int>, s: Script.ScanInfo, c: Scan, b: Block, h: Block, ci: nat)
    requires LevelsOk(last) && Script.ProgressionOk(s) && Script.BandFollows(last, s) && IsKind(s, c) && ScanOk(c)
    requires Known(last, b, h) && ci < MAX_COMPS_IN_SCAN && c.kind != Sequential
    ensures IsUnitHistory(c, b, h)
    ensures LevelsOk(Script.SetBand(last, s.ss, s.se, s.al))
    ensures Known(Script.SetBand(last, s.ss, s.se, s.al), b, UnitGoal(c, b, h, ci))
  {
    hide TruncDc, TruncAc;
    forall k | s.ss <= k <= s.se
      ensures Script.NextBit(last[k], s)
    {
    }
    if s.ss == 0 {
      assert Script.NextBit(last[0], s);
      assert h[0] == if last[0] < 0 then 0 else TruncDc(b[0], last[0]);
      RefineDc(b[0], s.al);
    }
  }

  // ----- One scan

  /** A scan of a script: its parameters, the tables of both sides, and the marker and bytes that follow the scan. */
  datatype ScanRun = ScanRun(info: Script.ScanInfo, c: Scan, interval: nat, hs: DTables, t: CTables, marker: byte,
                             more: seq<byte>)

  /** The blocks of the scan are arranged as the geometry of the image says, and can be coded. */
  ghost predicate RunOk(r: ScanRun, p: Picture) {
    && PictureOk(p) && ScanOk(r.c) && CompsIn(p, r.info.comps) && IsKind(r.info, r.c)
    && r.c.membership == Membership(p, r.info.comps) && AllLinked(r.hs, r.t)
    && r.marker != 0 && r.marker != 0xFF
    && Encodable(r.c, r.t, r.interval, Taken(r, p, ImageOf(p)))
  }

  /** The MCUs of the scan, with the blocks that d holds. */
  function Taken(r: ScanRun, p: Picture, d: Store): (mcus: seq<Mcu>)
    requires CompsIn(p, r.info.comps) && r.c.membership == Membership(p, r.info.comps)
    ensures AreMcus(r.c, mcus) && |mcus| == |ScanPlaces(p, r.info.comps)|
  {
    Mcus(d, ScanPlaces(p, r.info.comps))
  }

  /** Where a block is in the scan. */
  ghost function Find(l: seq<seq<Place>>, a: Place): (r: Option<(nat, nat)>)
    ensures r.Some? ==> At(l, r.value.0, r.value.1, a)
    ensures r.None? ==> forall m, n :: !At(l, m, n, a)
  {
    if exists m, n :: At(l, m, n, a) then
      var m, n :| At(l, m, n, a);
      Some((m, n))
    else None
  }

  /** The decoded MCUs are written back to where they belong. */
  ghost function Written(l: seq<seq<Place>>, d: Store, mcus: seq<Mcu>): Store {
    a =>
      match Find(l, a)
      case Some((m, n)) => if m < |mcus| && n < |mcus[m]| then mcus[m][n] else d(a)
      case None => d(a)
  }

  lemma WrittenAt(p: Picture, comps: seq<int>, d: Store, mcus: seq<Mcu>, m: nat, n: nat, a: Place)
    requires CompsIn(p, comps) && At(ScanPlaces(p, comps), m, n, a) && m < |mcus| && n < |mcus[m]|
    ensures Written(ScanPlaces(p, comps), d, mcus)(a) == mcus[m][n]
  {
    hide ScanPlaces;
    var (m', n') := Find(ScanPlaces(p, comps), a).value;
    PlacesAreDistinct(p, comps, m, n, m', n', a);
  }

  /** Blocks of components that the scan does not hold are left alone. */
  lemma NotWritten(p: Picture, comps: seq<int>, d: Store, mcus: seq<Mcu>, a: Place)
    requires CompsIn(p, comps) && a.comp !in comps
    ensures Written(ScanPlaces(p, comps), d, mcus)(a) == d(a)
  {
    hide ScanPlaces, Membership;
    var l := ScanPlaces(p, comps);
    match Find(l, a)
    case None =>
    case Some((m, n)) =>
      PlaceMembers(p, comps, m, n);
  }

  lemma RunIsOk(r: ScanRun, p: Picture)
    requires RunOk(r, p)
    ensures PictureOk(p) && ScanOk(r.c) && CompsIn(p, r.info.comps) && AllLinked(r.hs, r.t) && IsKind(r.info, r.c)
    ensures r.c.membership == Membership(p, r.info.comps) && r.marker != 0 && r.marker != 0xFF
    ensures Encodable(r.c, r.t, r.interval, Taken(r, p, ImageOf(p)))
  {
  }

  // ----- All scans

  function StartState(r: ScanRun, bytes: seq<byte>): State {
    State(Core(Source(bytes, [], 0, false, 0), NO_DC, 0), 0, 0, r.interval)
  }

  function ScanFile(r: ScanRun, p: Picture): seq<byte>
    requires RunOk(r, p)
  {
    ScanBytes(r.c, r.t, r.interval, Taken(r, p, ImageOf(p)), 0) + [0xFF, r.marker] + r.more
  }

  /** The scans of p are decoded in turn into d. */
  ghost function DecodeRuns(runs: seq<ScanRun>, p: Picture, d: Store): Option<Store>
    requires forall j :: 0 <= j < |runs| ==> RunOk(runs[j], p)
    decreases |runs|
  {
    hide RunOk, Encodable, ScanPlaces, Membership;
    if runs == [] then Some(d)
    else
      var r := runs[0];
      RunIsOk(r, p);
      match DecodeScan(r.c, r.hs, r.interval, StartState(r, ScanFile(r, p)), Taken(r, p, d))
      case None => None
      case Some((_, mcus)) => DecodeRuns(runs[1..], p, Written(ScanPlaces(p, r.info.comps), d, mcus))
  }

  function Infos(runs: seq<ScanRun>): (s: seq<Script.ScanInfo>)
    ensures |s| == |runs|
  {
    seq(|runs|, j requires 0 <= j < |runs| => runs[j].info)
  }

  /** The decoder's arrays before the first scan. */
  function Zeros(): Store {
    _ => seq(DCTSIZE2, _ => 0)
  }

  /** Decoding one scan gives what McuGoals says, if the blocks held fit the scan. */
  lemma FirstRun(runs: seq<ScanRun>, p: Picture, d: Store)
    requires runs != [] && forall j :: 0 <= j < |runs| ==> RunOk(runs[j], p)
    requires CompsIn(p, runs[0].info.comps) && runs[0].c.membership == Membership(p, runs[0].info.comps)
    requires ScanOk(runs[0].c) && AreMcuHistories(runs[0].c, Taken(runs[0], p, ImageOf(p)), Taken(runs[0], p, d))
    ensures DecodeRuns(runs, p, d) == DecodeRuns(runs[1..], p, AfterRun(runs[0], p, d))
  {
    hide RunOk, Encodable, ScanPlaces, Membership, DecodeScan, McuGoals, AreMcuHistories, ScanBytes, Mcus;
    var r := runs[0];
    RunIsOk(r, p);
    var st' := ScanRoundTrip.ScanRoundTrip(r.c, r.hs, r.t, r.interval, StartState(r, ScanFile(r, p)), Taken(r, p, ImageOf(p)),
                                           Taken(r, p, d), r.marker, r.more);
  }

  ghost function AfterRun(r: ScanRun, p: Picture, d: Store): Store
    requires ScanOk(r.c) && CompsIn(p, r.info.comps) && r.c.membership == Membership(p, r.info.comps)
  {
    Written(ScanPlaces(p, r.info.comps), d, McuGoals(r.c, Taken(r, p, ImageOf(p)), Taken(r, p, d)))
  }

  /** A block in the scan becomes what the scan makes of it. */
  lemma BlockAfter(r: ScanRun, p: Picture, d: Store, m: nat, n: nat, a: Place)
    requires ScanOk(r.c) && CompsIn(p, r.info.comps) && r.c.membership == Membership(p, r.info.comps)
    requires At(ScanPlaces(p, r.info.comps), m, n, a)
    ensures n < |r.c.membership|
    ensures AfterRun(r, p, d)(a) == UnitGoal(r.c, BlockAt(p, a), d(a), r.c.membership[n])
  {
    hide ScanPlaces, Membership, UnitGoal;
    var goals := McuGoals(r.c, Taken(r, p, ImageOf(p)), Taken(r, p, d));
    WrittenAt(p, r.info.comps, d, goals, m, n, a);
  }

  // ----- Progressive scripts

  ghost predicate KnownImage(last: Script.BitPos, p: Picture, d: Store) {
    && |last| == |p.comps| && (forall c :: 0 <= c < |last| ==> LevelsOk(last[c]))
    && forall a :: IsReal(p, a) ==> Known(last[a.comp], BlockAt(p, a), d(a))
  }

  /** Real blocks hold what the scan requires; dummy blocks only occur where it requires nothing. */
  lemma KnownHistories(r: ScanRun, last: Script.BitPos, p: Picture, d: Store)
    requires RunOk(r, p) && KnownImage(last, p, d) && Script.ProgressiveScanOk(last, r.info)
    ensures AreMcuHistories(r.c, Taken(r, p, ImageOf(p)), Taken(r, p, d))
  {
    hide IsUnitHistory, Encodable, AllLinked, Known, LevelsOk, ScanPlaces, Script.BandFollows, Membership;
    var l, x, h := ScanPlaces(p, r.info.comps), Taken(r, p, ImageOf(p)), Taken(r, p, d);
    forall m | 0 <= m < |x|
      ensures IsMcuHistory(r.c, x[m], h[m])
    {
      forall n | 0 <= n < |x[m]|
        ensures IsUnitHistory(r.c, x[m][n], h[m][n])
      {
        KnownUnit(r, last, p, d, m, n);
      }
    }
  }

  lemma KnownUnit(r: ScanRun, last: Script.BitPos, p: Picture, d: Store, m: nat, n: nat)
    requires RunOk(r, p) && KnownImage(last, p, d) && Script.ProgressiveScanOk(last, r.info)
    requires m < |ScanPlaces(p, r.info.comps)| && n < |r.c.membership|
    ensures IsUnitHistory(r.c, Taken(r, p, ImageOf(p))[m][n], Taken(r, p, d)[m][n])
  {
    hide Encodable, AllLinked, Known, LevelsOk, ScanPlaces, Script.BandFollows, Membership, IsHistory;
    var a := ScanPlaces(p, r.info.comps)[m][n];
    if r.c.kind == AcScan {
      SingleIsReal(p, r.info.comps, m, n, a);
      PlaceMembers(p, r.info.comps, m, n);
      assert Script.BandFollows(last[r.info.comps[r.c.membership[n]]], r.info);
      ScanAdds(last[a.comp], r.info, r.c, BlockAt(p, a), d(a), 0);
    }
  }

  lemma KnownAfter(r: ScanRun, last: Script.BitPos, p: Picture, d: Store)
    requires RunOk(r, p) && KnownImage(last, p, d) && Script.ProgressiveScanOk(last, r.info)
    ensures KnownImage(Script.AfterScan(last, r.info), p, AfterRun(r, p, d))
  {
    hide Encodable, Known, AllLinked, Script.SetBand, Script.BandFollows, LevelsOk, ScanPlaces, Membership, AfterRun, BlockAt;
    var last', d' := Script.AfterScan(last, r.info), AfterRun(r, p, d);
    forall c | 0 <= c < |last'|
      ensures LevelsOk(last'[c])
    {
      LevelsAfter(last[c], r.info);
    }
    forall a | IsReal(p, a)
      ensures Known(last'[a.comp], BlockAt(p, a), d'(a))
    {
      KnownBlockAfter(r, last, p, d, a);
    }
  }

  lemma KnownBlockAfter(r: ScanRun, last: Script.BitPos, p: Picture, d: Store, a: Place)
    requires RunOk(r, p) && KnownImage(last, p, d) && Script.ProgressiveScanOk(last, r.info) && IsReal(p, a)
    ensures LevelsOk(Script.AfterScan(last, r.info)[a.comp])
    ensures Known(Script.AfterScan(last, r.info)[a.comp], BlockAt(p, a), AfterRun(r, p, d)(a))
  {
    hide Encodable, Known, AllLinked, Script.SetBand, Script.BandFollows, LevelsOk, ScanPlaces, Membership, BlockAt, UnitGoal,
         Written;
    LevelsAfter(last[a.comp], r.info);
    if a.comp in r.info.comps {
      var j :| 0 <= j < |r.info.comps| && r.info.comps[j] == a.comp;
      assert Script.BandFollows(last[r.info.comps[j]], r.info);
      var m, n := RealIsIn(p, r.info.comps, a);
      BlockAfter(r, p, d, m, n, a);
      ScanAdds(last[a.comp], r.info, r.c, BlockAt(p, a), d(a), r.c.membership[n]);
    } else {
      NotWritten(p, r.info.comps, d, McuGoals(r.c, Taken(r, p, ImageOf(p)), Taken(r, p, d)), a);
    }
  }

  lemma LevelsAfter(last: seq<int>, s: Script.ScanInfo)
    requires LevelsOk(last) && Script.ProgressionOk(s)
    ensures LevelsOk(Script.SetBand(last, s.ss, s.se, s.al))
  {
  }

  lemma {:induction false} RunsLeaveKnown(runs: seq<ScanRun>, last: Script.BitPos, p: Picture, d: Store) returns (d': Store)
    requires (forall j :: 0 <= j < |runs| ==> RunOk(runs[j], p)) && KnownImage(last, p, d)
    requires Script.ProgressiveOk(last, Infos(runs))
    ensures DecodeRuns(runs, p, d) == Some(d')
    ensures KnownImage(Script.Before(last, Infos(runs), |runs|), p, d')
    decreases |runs|
  {
    hide RunOk, KnownImage, Script.ProgressiveScanOk, Script.AfterScan, AreMcuHistories, AfterRun, Taken;
    if runs == [] {
      d' := d;
    } else {
      var r := runs[0];
      assert Infos(runs)[0] == r.info && Infos(runs)[1..] == Infos(runs[1..]);
      RunIsOk(r, p);
      KnownHistories(r, last, p, d);
      KnownAfter(r, last, p, d);
      FirstRun(runs, p, d);
      d' := RunsLeaveKnown(runs[1..], Script.AfterScan(last, r.info), p, AfterRun(r, p, d));
    }
  }

  /** Every valid progressive script leaves every coefficient of the image exact down to its last Al. */
  lemma ValidScriptsAreLossless(runs: seq<ScanRun>, p: Picture) returns (d: Store)
    requires forall j :: 0 <= j < |runs| ==> RunOk(runs[j], p)
    requires Script.ScriptOk(|p.comps|, Infos(runs)) && Script.IsProgressive(Infos(runs))
    ensures DecodeRuns(runs, p, Zeros()) == Some(d)
    ensures KnownImage(Script.Before(Script.Unsent(|p.comps|), Infos(runs), |runs|), p, d)
  {
    hide RunOk, Script.ProgressiveOk, Cut, DecodeRuns;
    var last := Script.Unsent(|p.comps|);
    assert KnownImage(last, p, Zeros());
    d := RunsLeaveKnown(runs, last, p, Zeros());
  }

  // ----- Scripts that leave nothing out

  /** The decoder holds the image. */
  ghost predicate Restored(p: Picture, d: Store) {
    forall a :: IsReal(p, a) ==> d(a) == p.comps[a.comp].rows[a.y][a.x]
  }

  lemma CutAtZero(b: Block, k: nat)
    requires k < DCTSIZE2
    ensures Cut(b, k, 0) == b[k]
  {
  }

  lemma KnownBlock(b: Block, h: Block)
    requires LevelsOk(Script.Bands(0, 0, 0)) && Known(Script.Bands(0, 0, 0), b, h)
    ensures h == b
  {
    hide Cut;
    forall k | 0 <= k < DCTSIZE2 ensures h[k] == b[k] { CutAtZero(b, k); }
  }

  lemma KnownEverything(p: Picture, d: Store)
    requires PictureOk(p) && KnownImage(Script.Uniform(|p.comps|, Script.Bands(0, 0, 0)), p, d)
    ensures Restored(p, d)
  {
    hide Known, LevelsOk, Script.Bands, BlockAt, PictureOk;
    forall a | IsReal(p, a)
      ensures d(a) == p.comps[a.comp].rows[a.y][a.x]
    {
      BlockIs(p, a);
      KnownBlock(BlockAt(p, a), d(a));
    }
  }

  /** A script that sends every coefficient down to bit 0 loses nothing. */
  lemma CompleteScriptsRestoreImage(runs: seq<ScanRun>, p: Picture) returns (d: Store)
    requires PictureOk(p) && forall j :: 0 <= j < |runs| ==> RunOk(runs[j], p)
    requires Script.ScriptOk(|p.comps|, Infos(runs)) && Script.IsProgressive(Infos(runs))
    requires Script.Before(Script.Unsent(|p.comps|), Infos(runs), |runs|) == Script.Uniform(|p.comps|, Script.Bands(0, 0, 0))
    ensures DecodeRuns(runs, p, Zeros()) == Some(d) && Restored(p, d)
  {
    hide RunOk, Script.ScriptOk, DecodeRuns, KnownImage, Script.Bands, Restored, PictureOk;
    d := ValidScriptsAreLossless(runs, p);
    KnownEverything(p, d);
  }

  /** The scripts of jpeg_simple_progression restore any image of any size. */
  lemma SimpleScriptsRestoreImage(runs: seq<ScanRun>, p: Picture, ycc: bool) returns (d: Store)
    requires PictureOk(p) && forall j :: 0 <= j < |runs| ==> RunOk(runs[j], p)
    requires p.comps != [] && Infos(runs) == Script.SimpleScript(|p.comps|, ycc)
    ensures DecodeRuns(runs, p, Zeros()) == Some(d) && Restored(p, d)
  {
    hide RunOk, DecodeRuns, Script.Before, Script.SimpleScript, Script.ScriptOk, Restored, PictureOk;
    Script.SimpleScriptIsComplete(|p.comps|, ycc);
    d := CompleteScriptsRestoreImage(runs, p);
  }

  // ----- Sequential scripts

  /** Components that have been sent are complete, and nothing has been stored for the others. */
  ghost predicate SentImage(sent: seq<bool>, p: Picture, d: Store) {
    && |sent| == |p.comps|
    && (forall a: Place :: a.comp < |sent| && !sent[a.comp] ==> d(a) == seq(DCTSIZE2, _ => 0))
    && forall a :: IsReal(p, a) && sent[a.comp] ==> d(a) == BlockAt(p, a)
  }

  lemma SentHistories(r: ScanRun, sent: seq<bool>, p: Picture, d: Store)
    requires RunOk(r, p) && SentImage(sent, p, d) && Script.SequentialScanOk(sent, r.info)
    ensures AreMcuHistories(r.c, Taken(r, p, ImageOf(p)), Taken(r, p, d))
  {
    hide Encodable, AllLinked, ScanPlaces, Membership, BlockAt;
    var l, x, h := ScanPlaces(p, r.info.comps), Taken(r, p, ImageOf(p)), Taken(r, p, d);
    forall m | 0 <= m < |x|
      ensures IsMcuHistory(r.c, x[m], h[m])
    {
      forall n | 0 <= n < |x[m]|
        ensures h[m][n] == seq(DCTSIZE2, _ => 0)
      {
        PlaceMembers(p, r.info.comps, m, n);
      }
    }
  }

  lemma SentAfterRun(r: ScanRun, sent: seq<bool>, p: Picture, d: Store)
    requires RunOk(r, p) && SentImage(sent, p, d) && Script.SequentialScanOk(sent, r.info)
    ensures SentImage(Script.SentAfter(sent, r.info), p, AfterRun(r, p, d))
  {
    hide Encodable, AllLinked, ScanPlaces, Membership, BlockAt, Taken, McuGoals, Written;
    var sent', d' := Script.SentAfter(sent, r.info), AfterRun(r, p, d);
    var goals := McuGoals(r.c, Taken(r, p, ImageOf(p)), Taken(r, p, d));
    forall a: Place | a.comp !in r.info.comps
      ensures d'(a) == d(a)
    {
      NotWritten(p, r.info.comps, d, goals, a);
    }
    forall a | IsReal(p, a) && a.comp in r.info.comps
      ensures d'(a) == BlockAt(p, a)
    {
      var m, n := RealIsIn(p, r.info.comps, a);
      BlockAfter(r, p, d, m, n, a);
    }
  }

  lemma {:induction false} RunsSend(runs: seq<ScanRun>, sent: seq<bool>, p: Picture, d: Store) returns (d': Store)
    requires (forall j :: 0 <= j < |runs| ==> RunOk(runs[j], p)) && SentImage(sent, p, d)
    requires Script.SequentialOk(sent, Infos(runs))
    ensures DecodeRuns(runs, p, d) == Some(d')
    ensures SentImage(seq(|p.comps|, _ => true), p, d')
    decreases |runs|
  {
    hide RunOk, Script.SequentialScanOk, AreMcuHistories, AfterRun, Taken, BlockAt;
    if runs == [] {
      d' := d;
      assert sent == seq(|p.comps|, _ => true);
    } else {
      var r := runs[0];
      assert Infos(runs)[0] == r.info && Infos(runs)[1..] == Infos(runs[1..]);
      RunIsOk(r, p);
      SentHistories(r, sent, p, d);
      SentAfterRun(r, sent, p, d);
      FirstRun(runs, p, d);
      d' := RunsSend(runs[1..], Script.SentAfter(sent, r.info), p, AfterRun(r, p, d));
    }
  }

  /** Every valid sequential script restores the image, in however many scans its components are sent. */
  lemma SequentialScriptsRestoreImage(runs: seq<ScanRun>, p: Picture) returns (d: Store)
    requires PictureOk(p) && forall j :: 0 <= j < |runs| ==> RunOk(runs[j], p)
    requires Script.ScriptOk(|p.comps|, Infos(runs)) && !Script.IsProgressive(Infos(runs))
    ensures DecodeRuns(runs, p, Zeros()) == Some(d) && Restored(p, d)
  {
    hide RunOk, DecodeRuns, Script.SequentialOk, BlockAt, PictureOk;
    d := RunsSend(runs, seq(|p.comps|, _ => false), p, Zeros());
    forall a | IsReal(p, a)
      ensures d(a) == p.comps[a.comp].rows[a.y][a.x]
    {
      BlockIs(p, a);
    }
  }
}
