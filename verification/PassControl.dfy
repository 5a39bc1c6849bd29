/**
 Pass control of the compressor (jcmaster.c) with the loops that drive it (jcapimin.c, jcapistd.c): which pass does what
 for which scan, as a log of what is written and gathered.
 */
module PassControl {
  import Script = ScanScript

  datatype PassType = MainPass | HuffOptPass | OutputPass

  /** What a pass amounts to from outside. */
  datatype Event = FrameHeader | ScanHeader(scan: nat) | Gathered(scan: nat) | Written(scan: nat)

  /** A DC refinement scan needs no Huffman table. */
  predicate NeedsTable(s: Script.ScanInfo) {
    s.ss != 0 || s.ah == 0
  }

  // ----- The log that is wanted

  function Output(i: nat): seq<Event> {
    (if i == 0 then [FrameHeader] else []) + [ScanHeader(i), Written(i)]
  }

  function Gathering(scans: seq<Script.ScanInfo>, optimize: bool, i: nat): seq<Event>
    requires i < |scans|
  {
    if optimize && NeedsTable(scans[i]) then [Gathered(i)] else []
  }

  /** The first n scans: each is gathered just before it is written, if it has to be, and written once, in order. */
  function Log(scans: seq<Script.ScanInfo>, optimize: bool, n: nat): seq<Event>
    requires n <= |scans|
  {
    if n == 0 then [] else Log(scans, optimize, n - 1) + Gathering(scans, optimize, n - 1) + Output(n - 1)
  }

  class Master {
    const scans: seq<Script.ScanInfo>
    const optimize: bool
    const transcodeOnly: bool
    const totalPasses: nat

    var passType: PassType
    var passNumber: nat
    var scanNumber: nat
    var isLastPass: bool
    var callPassStartup: bool

    /** The scan whose parameters are selected. */
    var curScan: nat
    /** The entropy coder gathers statistics. */
    var gathering: bool

    var log: seq<Event>

    /** jinit_c_master_control, behind the validation of the script. */
    constructor (scans: seq<Script.ScanInfo>, optimize: bool, transcodeOnly: bool)
      ensures this.scans == scans && this.optimize == optimize && this.transcodeOnly == transcodeOnly
      ensures totalPasses == if optimize then 2 * |scans| else |scans|
      ensures log == [] && scanNumber == 0 && passNumber == 0 && !isLastPass
      ensures passType == if !transcodeOnly then MainPass else if optimize then HuffOptPass else OutputPass
    {
      this.scans, this.optimize, this.transcodeOnly := scans, optimize, transcodeOnly;
      isLastPass, callPassStartup, curScan, gathering := false, false, 0, false;
      if transcodeOnly {
        passType := if optimize then HuffOptPass else OutputPass;
      } else {
        passType := MainPass;
      }
      scanNumber, passNumber := 0, 0;
      totalPasses := if optimize then |scans| * 2 else |scans|;
      log := [];
    }

    /** Between two passes: the log is complete for the scans before scanNumber, and a gathered one awaits its output. */
    ghost predicate Between()
      reads this
    {
      && totalPasses == (if optimize then 2 * |scans| else |scans|)
      && scanNumber < |scans| && !isLastPass
      && match passType
         case MainPass => scanNumber == 0 && passNumber == 0 && log == []
         case HuffOptPass => optimize && passNumber == 2 * scanNumber && log == Log(scans, optimize, scanNumber)
         case OutputPass =>
           && (optimize ==>
               && NeedsTable(scans[scanNumber]) && curScan == scanNumber
               && passNumber == 2 * scanNumber + 1
               && log == Log(scans, optimize, scanNumber) + [Gathered(scanNumber)])
           && (!optimize ==> passNumber == scanNumber && log == Log(scans, optimize, scanNumber))
    }

    /** All scans are written. */
    ghost predicate Finished()
      reads this
    {
      scanNumber == |scans| && isLastPass && log == Log(scans, optimize, |scans|)
    }

    /** prepare_for_pass: the parameters of the scan, the coders' modes, and the headers if this pass writes them. */
    method PrepareForPass()
      requires Between() && scans != [] && NeedsTable(scans[0])
      modifies this
      ensures curScan == scanNumber == old(scanNumber)
      ensures passType == if old(passType) == HuffOptPass && !NeedsTable(scans[scanNumber]) then OutputPass else old(passType)
      ensures passNumber == old(passNumber) + if passType != old(passType) then 1 else 0
      ensures gathering == (passType == HuffOptPass || (passType == MainPass && optimize))
      ensures callPassStartup == (passType == MainPass && !optimize)
      ensures isLastPass == (passNumber == totalPasses - 1)
      ensures log == old(log) + if passType == OutputPass
                                then (if scanNumber == 0 then [FrameHeader] else []) + [ScanHeader(scanNumber)] else []
    {
      match passType {
      case MainPass =>
        curScan := scanNumber;
        gathering := optimize;
        callPassStartup := !optimize;
      case HuffOptPass =>
        curScan := scanNumber;
        if scans[curScan].ss != 0 || scans[curScan].ah == 0 {
          gathering := true;
          callPassStartup := false;
        } else {
          passType := OutputPass;
          passNumber := passNumber + 1;
          PrepareOutput();
        }
      case OutputPass =>
        PrepareOutput();
      }
      isLastPass := passNumber == totalPasses - 1;
    }

    /** The output case of prepare_for_pass; an optimisation pass has selected the scan already. */
    method PrepareOutput()
      requires scanNumber < |scans| && (optimize ==> curScan == scanNumber)
      modifies `curScan, `gathering, `callPassStartup, `log
      ensures curScan == scanNumber && !gathering && !callPassStartup
      ensures log == old(log) + ((if scanNumber == 0 then [FrameHeader] else []) + [ScanHeader(scanNumber)])
    {
      if !optimize {
        curScan := scanNumber;
      }
      gathering := false;
      if scanNumber == 0 {
        log := log + [FrameHeader];
      }
      log := log + [ScanHeader(scanNumber)];
      callPassStartup := false;
    }

    /** pass_startup: the headers of a pass that reads the image and writes data. */
    method PassStartup()
      modifies `log, `callPassStartup
      ensures !callPassStartup && log == old(log) + [FrameHeader, ScanHeader(scanNumber)]
    {
      callPassStartup := false;
      log := log + [FrameHeader];
      log := log + [ScanHeader(scanNumber)];
    }

    /** The data of a pass, for the scan whose parameters are selected. */
    method ProcessData()
      modifies `log
      ensures log == old(log) + [if gathering then Gathered(curScan) else Written(curScan)]
    {
      if gathering {
        log := log + [Gathered(curScan)];
      } else {
        log := log + [Written(curScan)];
      }
    }

    /** finish_pass_master */
    method FinishPass()
      modifies `passType, `scanNumber, `passNumber
      ensures passNumber == old(passNumber) + 1
      ensures scanNumber == old(scanNumber) + if old(passType) == OutputPass || (old(passType) == MainPass && !optimize) then 1 else 0
      ensures passType == if old(passType) == OutputPass && optimize then HuffOptPass else OutputPass
    {
      match passType {
      case MainPass =>
        passType := OutputPass;
        if !optimize {
          scanNumber := scanNumber + 1;
        }
      case HuffOptPass =>
        passType := OutputPass;
      case OutputPass =>
        if optimize {
          passType := HuffOptPass;
        }
        scanNumber := scanNumber + 1;
      }
      passNumber := passNumber + 1;
    }

    /** One pass: the log grows as it should, and it was the last one exactly if the last scan has been written. */
    method OnePass()
      requires Between() && scans != [] && NeedsTable(scans[0])
      modifies this
      ensures Between() || Finished()
      ensures isLastPass <==> Finished()
      ensures passNumber > old(passNumber) && passNumber <= totalPasses
      ensures old(log) <= log
    {
      PrepareForPass();
      if callPassStartup {
        PassStartup();
      }
      ProcessData();
      FinishPass();
      assert Log(scans, optimize, old(scanNumber) + 1)
          == Log(scans, optimize, old(scanNumber)) + Gathering(scans, optimize, old(scanNumber)) + Output(old(scanNumber));
    }

    /** jpeg_start_compress or jpeg_write_coefficients, and jpeg_finish_compress. */
    method Compress()
      requires totalPasses == (if optimize then 2 * |scans| else |scans|)
      requires scans != [] && NeedsTable(scans[0]) && log == [] && scanNumber == 0 && passNumber == 0 && !isLastPass
      requires passType == if !transcodeOnly then MainPass else if optimize then HuffOptPass else OutputPass
      modifies this
      ensures Finished()
    {
      if !transcodeOnly {
        OnePass();
      }
      while !isLastPass
        invariant Between() || Finished()
        invariant isLastPass <==> Finished()
        invariant passNumber <= totalPasses
        decreases totalPasses - passNumber
      {
        OnePass();
      }
    }
  }

  // ----- What the log says

  /** The scans whose data is written, in order. */
  function WrittenScans(log: seq<Event>): seq<nat> {
    if log == [] then []
    else (if log[0].Written? then [log[0].scan] else []) + WrittenScans(log[1..])
  }

  lemma {:induction false} WrittenConcat(a: seq<Event>, b: seq<Event>)
    ensures WrittenScans(a + b) == WrittenScans(a) + WrittenScans(b)
  {
    if a == [] {
      assert a + b == b;
    } else {
      WrittenConcat(a[1..], b);
      assert (a + b)[0] == a[0] && (a + b)[1..] == a[1..] + b;
      var first := if a[0].Written? then [a[0].scan] else [];
      assert first + (WrittenScans(a[1..]) + WrittenScans(b)) == first + WrittenScans(a[1..]) + WrittenScans(b);
    }
  }

  lemma WrittenOfScan(scans: seq<Script.ScanInfo>, optimize: bool, i: nat)
    requires i < |scans|
    ensures WrittenScans(Gathering(scans, optimize, i) + Output(i)) == [i]
  {
    WrittenConcat(Gathering(scans, optimize, i), Output(i));
    WrittenConcat(if i == 0 then [FrameHeader] else [], [ScanHeader(i), Written(i)]);
    assert WrittenScans([ScanHeader(i), Written(i)]) == [i] by {
      assert [ScanHeader(i), Written(i)][1..] == [Written(i)] && [Written(i)][1..] == [];
    }
    assert WrittenScans(Gathering(scans, optimize, i)) == [];
  }

  /** Every scan's data is output exactly once, in order. */
  lemma {:induction false} WrittenInOrder(scans: seq<Script.ScanInfo>, optimize: bool, n: nat)
    requires n <= |scans|
    ensures WrittenScans(Log(scans, optimize, n)) == seq(n, i => i)
  {
    if n > 0 {
      hide WrittenScans, Gathering, Output;
      var x, g, o := Log(scans, optimize, n - 1), Gathering(scans, optimize, n - 1), Output(n - 1);
      WrittenInOrder(scans, optimize, n - 1);
      WrittenOfScan(scans, optimize, n - 1);
      WrittenConcat(x, g + o);
      assert x + g + o == x + (g + o);
    } else {
      assert seq(0, i => i) == [];
    }
  }

  /** The frame header stands in front of everything that is written, and nowhere else. */
  lemma {:induction false} FrameHeaderFirst(scans: seq<Script.ScanInfo>, optimize: bool, n: nat)
    requires 1 <= n <= |scans|
    ensures var log := Log(scans, optimize, n);
      var k := |Gathering(scans, optimize, 0)|;
      && k < |log| && forall j :: 0 <= j < |log| ==> (log[j] == FrameHeader <==> j == k) && (j < k ==> log[j] == Gathered(0))
  {
    if n > 1 {
      FrameHeaderFirst(scans, optimize, n - 1);
    } else {
      assert Log(scans, optimize, 1) == [] + Gathering(scans, optimize, 0) + Output(0);
    }
  }

  /** When optimising, what is gathered for a scan is gathered directly in front of its output. */
  lemma {:induction false} GatheredJustBefore(scans: seq<Script.ScanInfo>, n: nat, i: nat)
    requires i < n <= |scans| && NeedsTable(scans[i])
    ensures Log(scans, true, i) + [Gathered(i)] + Output(i) <= Log(scans, true, n)
  {
    hide Output;
    var x := Log(scans, true, n - 1);
    assert Log(scans, true, n) == x + (Gathering(scans, true, n - 1) + Output(n - 1));
    if i < n - 1 {
      GatheredJustBefore(scans, n - 1, i);
    }
  }

  /** What stands next to an event: headers are those of the data behind them, and gathering is for the output behind it. */
  predicate InContext(scans: seq<Script.ScanInfo>, optimize: bool, log: seq<Event>, j: nat)
    requires j < |log|
  {
    match log[j]
    case FrameHeader => j + 1 < |log| && log[j + 1] == ScanHeader(0)
    case ScanHeader(i) => j + 1 < |log| && log[j + 1] == Written(i)
    case Written(i) => j > 0 && log[j - 1] == ScanHeader(i)
    case Gathered(i) =>
      && optimize && i < |scans| && !(scans[i].ss == 0 && scans[i].ah != 0)
      && j + 1 < |log| && log[j + 1] == if i == 0 then FrameHeader else ScanHeader(i)
  }

  /**
   Each scan's data stands directly behind its own header, the first header directly behind that of the frame, and only
   when optimising are statistics gathered, directly in front of the headers and not for a DC refinement.
   */
  lemma {:induction false} LogIsOrderly(scans: seq<Script.ScanInfo>, optimize: bool, n: nat)
    requires n <= |scans|
    ensures forall j :: 0 <= j < |Log(scans, optimize, n)| ==> InContext(scans, optimize, Log(scans, optimize, n), j)
  {
    if n > 0 {
      LogIsOrderly(scans, optimize, n - 1);
      OutputInContext(scans, optimize, n - 1);
      var x, y := Log(scans, optimize, n - 1), Gathering(scans, optimize, n - 1) + Output(n - 1);
      assert Log(scans, optimize, n) == x + y;
      ContextConcat(scans, optimize, x, y);
    }
  }

  lemma OutputInContext(scans: seq<Script.ScanInfo>, optimize: bool, i: nat)
    requires i < |scans|
    ensures var y := Gathering(scans, optimize, i) + Output(i);
      forall j :: 0 <= j < |y| ==> InContext(scans, optimize, y, j)
  {
  }

  lemma ContextConcat(scans: seq<Script.ScanInfo>, optimize: bool, x: seq<Event>, y: seq<Event>)
    requires forall j :: 0 <= j < |x| ==> InContext(scans, optimize, x, j)
    requires forall j :: 0 <= j < |y| ==> InContext(scans, optimize, y, j)
    ensures forall j :: 0 <= j < |x + y| ==> InContext(scans, optimize, x + y, j)
  {
    forall j | 0 <= j < |x + y|
      ensures InContext(scans, optimize, x + y, j)
    {
      if j < |x| {
        assert InContext(scans, optimize, x, j);
      } else {
        assert InContext(scans, optimize, y, j - |x|);
      }
    }
  }

  /** The first scan of a valid script is one that needs a table, so the main pass can gather for it. */
  lemma FirstScanNeedsTable(ncomps: nat, scans: seq<Script.ScanInfo>)
    requires Script.ScriptOk(ncomps, scans)
    ensures NeedsTable(scans[0])
  {
    if Script.IsProgressive(scans) {
      assert Script.ProgressiveScanOk(Script.Unsent(ncomps), scans[0]);
      assert Script.BandFollows(Script.Unsent(ncomps)[scans[0].comps[0]], scans[0]);
      assert Script.NextBit(Script.Unsent(ncomps)[scans[0].comps[0]][scans[0].ss], scans[0]);
    }
  }
}
