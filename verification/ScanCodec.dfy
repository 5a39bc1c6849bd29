/**
 Decoding a whole scan, MCU by MCU with restart markers, from a source that may run dry at any byte; and the bytes
 that the encoder writes for a scan.
 */
module ScanCodec {
  import opened Bits
  import opened Wrappers
  import opened HuffmanTables
  import opened BitSource
  import opened Symbols
  import opened Feeding
  import opened BitPacking
  import opened Coefficients
  import opened AcBand
  import opened McuCodec
  import opened Suspension
  import opened RestartMarkers

  /** The state of an entropy decoder between MCUs; togo is the 32-bit counter restarts_to_go. */
  datatype State = State(core: Core, discarded: nat, nextNum: nat, togo: nat)

  predicate StateOk(st: State) {
    st.nextNum < 8
  }

  datatype StepResult = Stepped(st: State, mcu: Mcu) | Paused(st: State, mcu: Mcu)

  function ReaderOf(st: State): Reader {
    Reader(st.core.src, st.discarded, st.nextNum)
  }

  /** restarts_to_go--, for an unsigned int. */
  function CountDown(togo: nat): nat {
    if togo == 0 then 0xFFFF_FFFF else togo - 1
  }

  /** process_restart if it is due; false when it has to suspend. */
  function Restart(interval: nat, st: State): (bool, State) {
    if interval != 0 && st.togo == 0 then
      match ProcessRestart(ReaderOf(st))
      case Waiting(w) => (false, State(st.core.(src := w.src), w.discarded, w.nextNum, st.togo))
      case Ready(r) => (true, State(Core(r.src, NO_DC, 0), r.discarded, r.nextNum, interval))
    else (true, st)
  }

  /** One call of decode_mcu; Paused is its return of FALSE. */
  function Step(c: Scan, hs: DTables, interval: nat, st: State, mcu: Mcu): StepResult
    requires ScanOk(c) && IsMcu(c, mcu)
  {
    var (ok, st1) := Restart(interval, st);
    if !ok then Paused(st1, mcu)
    else
      match DecodeMcu(c, hs, st1.core, mcu)
      case McuSuspended(m) => Paused(st1, m)
      case McuDone(core, m) => Stepped(st1.(core := core, togo := CountDown(st1.togo)), m)
  }

  /** All MCUs of a scan in one go; None if the input does not suffice. */
  function DecodeScan(c: Scan, hs: DTables, interval: nat, st: State, mcus: seq<Mcu>): Option<(State, seq<Mcu>)>
    requires ScanOk(c) && AreMcus(c, mcus)
    decreases |mcus|
  {
    hide Step;
    if mcus == [] then Some((st, []))
    else
      match Step(c, hs, interval, st, mcus[0])
      case Paused(_, _) => None
      case Stepped(st', m) => PrependMcus([m], DecodeScan(c, hs, interval, st', mcus[1..]))
  }

  function PrependMcus(ms: seq<Mcu>, r: Option<(State, seq<Mcu>)>): Option<(State, seq<Mcu>)> {
    match r
    case None => None
    case Some((st, more)) => Some((st, ms + more))
  }

  // ----- Suspension

  function ExtendState(st: State, more: seq<byte>): State {
    st.(core := ExtendCore(st.core, more))
  }

  /**
   The application's loop with a suspending data source: whenever the decoder suspends, the next chunk of input is
   appended to what was not consumed, and the same MCU is tried again, with whatever the attempt left in it.
   */
  function Drive(c: Scan, hs: DTables, interval: nat, st: State, mcus: seq<Mcu>, chunks: seq<seq<byte>>)
    : Option<(State, seq<Mcu>)>
    requires ScanOk(c) && AreMcus(c, mcus)
    decreases |chunks|, |mcus|
  {
    if mcus == [] then Some((ExtendState(st, Concat(chunks)), []))
    else
      StepKeepsMcu(c, hs, interval, st, mcus[0]);
      match Step(c, hs, interval, st, mcus[0])
      case Stepped(st', m) => PrependMcus([m], Drive(c, hs, interval, st', mcus[1..], chunks))
      case Paused(st', m) =>
        if chunks == [] then None
        else Drive(c, hs, interval, ExtendState(st', chunks[0]), [m] + mcus[1..], chunks[1..])
  }

  lemma StepKeepsMcu(c: Scan, hs: DTables, interval: nat, st: State, mcu: Mcu)
    requires ScanOk(c) && IsMcu(c, mcu)
    ensures IsMcu(c, Step(c, hs, interval, st, mcu).mcu)
  {
    hide Restart, DecodeMcu;
    var (ok, st1) := Restart(interval, st);
    DecodeMcuOnward(c, hs, st1.core, mcu);
    if DecodeMcu(c, hs, st1.core, mcu).McuSuspended? {
      DecodeMcuRetry(c, hs, st1.core, mcu, []);
    }
  }

  lemma RestartExtend(interval: nat, st: State, more: seq<byte>)
    requires StateOk(st)
    ensures var (ok, st1) := Restart(interval, st);
      && StateOk(st1)
      && (ok ==> Restart(interval, ExtendState(st, more)) == (true, ExtendState(st1, more)))
      && (!ok ==> Restart(interval, ExtendState(st, more)) == Restart(interval, ExtendState(st1, more)))
  {
    hide ReadRestartMarker;
    ProcessRestartExtend(ReaderOf(st), more);
    NextNumSmall(ReaderOf(st));
  }

  lemma NextNumSmall(rd: Reader)
    requires rd.nextNum < 8
    ensures ProcessRestart(rd).rd.nextNum < 8
  {
    hide NextMarker, ResyncAction, Resync;
    ProcessRestartExtend(rd, []);
  }

  lemma NoRestartTwice(interval: nat, st: State)
    requires Restart(interval, st).0
    ensures Restart(interval, Restart(interval, st).1) == (true, Restart(interval, st).1)
  {
    hide ProcessRestart;
  }

  lemma StepExtend(c: Scan, hs: DTables, interval: nat, st: State, mcu: Mcu, more: seq<byte>)
    requires ScanOk(c) && IsMcu(c, mcu) && StateOk(st)
    ensures StateOk(Step(c, hs, interval, st, mcu).st)
    ensures match Step(c, hs, interval, st, mcu)
            case Stepped(st', m) =>
              Step(c, hs, interval, ExtendState(st, more), mcu) == Stepped(ExtendState(st', more), m)
            case Paused(st', m) =>
              IsMcu(c, m)
              && Step(c, hs, interval, ExtendState(st, more), mcu) == Step(c, hs, interval, ExtendState(st', more), m)
  {
    hide Restart, DecodeMcu;
    RestartExtend(interval, st, more);
    var (ok, st1) := Restart(interval, st);
    if ok {
      NoRestartTwice(interval, st);
      RestartExtend(interval, st1, more);
      if DecodeMcu(c, hs, st1.core, mcu).McuDone? {
        DecodeMcuExtend(c, hs, st1.core, mcu, more);
      } else {
        DecodeMcuRetry(c, hs, st1.core, mcu, more);
      }
    }
  }

  /**
   Suspension transparency: however the input is cut into chunks, and wherever the decoder has to suspend, the
   coefficients and the final state are those of an uninterrupted run.
   */
  lemma {:induction false} SuspensionIsTransparent(c: Scan, hs: DTables, interval: nat, st: State, mcus: seq<Mcu>,
                                                   chunks: seq<seq<byte>>)
    requires ScanOk(c) && AreMcus(c, mcus) && StateOk(st)
    ensures Drive(c, hs, interval, st, mcus, chunks)
         == DecodeScan(c, hs, interval, ExtendState(st, Concat(chunks)), mcus)
    decreases |chunks|, |mcus|
  {
    hide Step, ExtendCore;
    if mcus != [] {
      var all := Concat(chunks);
      StepExtend(c, hs, interval, st, mcus[0], all);
      match Step(c, hs, interval, st, mcus[0])
      case Stepped(st', m) => SuspensionIsTransparent(c, hs, interval, st', mcus[1..], chunks);
      case Paused(st', m) =>
        if chunks == [] {
          NothingAdded(st);
          NothingAdded(st');
        } else {
          var st1 := ExtendState(st', chunks[0]);
          SuspensionIsTransparent(c, hs, interval, st1, [m] + mcus[1..], chunks[1..]);
          AddedTwice(st', chunks[0], Concat(chunks[1..]));
          assert ([m] + mcus[1..])[1..] == mcus[1..];
        }
    }
  }

  lemma NothingAdded(st: State)
    ensures ExtendState(st, []) == st
  {
    assert st.core.src.rest + [] == st.core.src.rest;
  }

  lemma AddedTwice(st: State, a: seq<byte>, b: seq<byte>)
    ensures ExtendState(ExtendState(st, a), b) == ExtendState(st, a + b)
  {
    var r := st.core.src.rest;
    assert (r + a) + b == r + (a + b);
  }
}
