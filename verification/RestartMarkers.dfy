/**
 Restart markers in the decoder: next_marker, read_restart_marker and jpeg_resync_to_restart (jdmarker.c) and
 process_restart (jdhuff.c, jdphuff.c), as functions.  A routine that suspends has already committed what it skipped.
 */
module RestartMarkers {
  import opened Bits
  import opened Wrappers
  import opened BitSource
  import opened Symbols
  import opened BitPacking

  // ----- next_marker

  datatype Scanned = Found(marker: byte, rest: seq<byte>, discarded: nat) | Short(rest: seq<byte>, discarded: nat)

  /** Skips to the next marker; what is skipped is committed byte by byte, but for the bytes of a marker itself. */
  function NextMarker(rest: seq<byte>, discarded: nat): (r: Scanned)
    ensures r.Found? ==> r.marker != 0 && r.marker != 0xFF && |r.rest| < |rest|
    decreases |rest|
  {
    if rest == [] then Short(rest, discarded)
    else if rest[0] != 0xFF then NextMarker(rest[1..], discarded + 1)
    else
      var t := SkipFF(rest[1..]);
      if t == [] then Short(rest, discarded)
      else if t[0] == 0 then NextMarker(t[1..], discarded + 2)
      else Found(t[0], t[1..], discarded)
  }

  lemma {:induction false} NextMarkerExtend(rest: seq<byte>, discarded: nat, more: seq<byte>)
    ensures match NextMarker(rest, discarded)
            case Found(m, r, d) => NextMarker(rest + more, discarded) == Found(m, r + more, d)
            case Short(r, d) => NextMarker(rest + more, discarded) == NextMarker(r + more, d)
    decreases |rest|
  {
    if rest != [] {
      assert (rest + more)[1..] == rest[1..] + more;
      if rest[0] != 0xFF {
        NextMarkerExtend(rest[1..], discarded + 1, more);
      } else {
        var t := SkipFF(rest[1..]);
        if t != [] {
          SkipFFExtend(rest[1..], more);
          assert (t + more)[1..] == t[1..] + more;
          if t[0] == 0 {
            NextMarkerExtend(t[1..], discarded + 2, more);
          }
        }
      }
    }
  }

  // ----- read_restart_marker and jpeg_resync_to_restart

  datatype Reader = Reader(src: Source, discarded: nat, nextNum: nat)
  datatype Outcome = Ready(rd: Reader) | Waiting(rd: Reader)

  /** next_marker, which sets unread_marker and warns if anything was discarded. */
  function SeekMarker(rd: Reader): (o: Outcome)
    ensures o.Ready? ==> |o.rd.src.rest| < |rd.src.rest|
  {
    match NextMarker(rd.src.rest, rd.discarded)
    case Short(rest, d) => Waiting(rd.(src := rd.src.(rest := rest), discarded := d))
    case Found(m, rest, d) =>
      var w := rd.src.warnings + (if d != 0 then 1 else 0);
      Ready(rd.(src := rd.src.(rest := rest, marker := m, warnings := w), discarded := 0))
  }

  const M_SOF0 := 0xC0
  const M_RST0 := 0xD0
  const M_RST7 := 0xD7

  datatype Action = Discard | Advance | Leave

  function ResyncAction(marker: byte, desired: nat): Action {
    if marker < M_SOF0 then Advance
    else if marker < M_RST0 || marker > M_RST7 then Leave
    else if marker == M_RST0 + (desired + 1) % 8 || marker == M_RST0 + (desired + 2) % 8 then Leave
    else if marker == M_RST0 + (desired + 7) % 8 || marker == M_RST0 + (desired + 6) % 8 then Advance
    else Discard
  }

  /** The decision loop of jpeg_resync_to_restart. */
  function Resync(rd: Reader, desired: nat): Outcome
    decreases |rd.src.rest|
  {
    match ResyncAction(rd.src.marker, desired)
    case Discard => Ready(rd.(src := rd.src.(marker := 0)))
    case Leave => Ready(rd)
    case Advance =>
      match SeekMarker(rd)
      case Waiting(w) => Waiting(w)
      case Ready(r) => Resync(r, desired)
  }

  /** The warning of a resynchronisation is counted when it is complete. */
  function ReadRestartMarker(rd: Reader): Outcome {
    match (if rd.src.marker == 0 then SeekMarker(rd) else Ready(rd))
    case Waiting(w) => Waiting(w)
    case Ready(r) =>
      var num := (r.nextNum + 1) % 8;
      if r.src.marker == M_RST0 + r.nextNum then Ready(r.(src := r.src.(marker := 0), nextNum := num))
      else
        match Resync(r, r.nextNum)
        case Waiting(w) => Waiting(w)
        case Ready(q) => Ready(q.(src := Warn(q.src), nextNum := num))
  }

  /** The bits left are dropped and the marker is read; then insufficient_data is reset unless a marker was left. */
  function ProcessRestart(rd: Reader): Outcome {
    match ReadRestartMarker(rd.(discarded := rd.discarded + |rd.src.buf| / 8, src := rd.src.(buf := [])))
    case Waiting(w) => Waiting(w)
    case Ready(r) => Ready(r.(src := r.src.(starved := r.src.starved && r.src.marker != 0)))
  }

  // ----- More input

  function ExtendReader(rd: Reader, more: seq<byte>): Reader {
    rd.(src := Extend(rd.src, more))
  }

  lemma SeekMarkerExtend(rd: Reader, more: seq<byte>)
    ensures match SeekMarker(rd)
            case Ready(r) => SeekMarker(ExtendReader(rd, more)) == Ready(ExtendReader(r, more))
            case Waiting(w) => SeekMarker(ExtendReader(rd, more)) == SeekMarker(ExtendReader(w, more))
    ensures SeekMarker(rd).Waiting? ==> SeekMarker(rd).rd.src.marker == rd.src.marker
  {
    NextMarkerExtend(rd.src.rest, rd.discarded, more);
  }

  lemma {:induction false} ResyncExtend(rd: Reader, desired: nat, more: seq<byte>)
    ensures match Resync(rd, desired)
            case Ready(r) => Resync(ExtendReader(rd, more), desired) == Ready(ExtendReader(r, more))
            case Waiting(w) =>
              Resync(ExtendReader(rd, more), desired) == Resync(ExtendReader(w, more), desired)
              && ResyncAction(w.src.marker, desired) == Advance && w.nextNum == rd.nextNum
              && w.src.buf == rd.src.buf
    decreases |rd.src.rest|
  {
    hide ResyncAction, NextMarker;
    if ResyncAction(rd.src.marker, desired) == Advance {
      SeekMarkerExtend(rd, more);
      match SeekMarker(rd)
      case Waiting(w) =>
      case Ready(r) => ResyncExtend(r, desired, more);
    }
  }

  lemma AdvanceIsNotExpected(marker: byte, desired: nat)
    requires ResyncAction(marker, desired) == Advance && desired < 8
    ensures marker != M_RST0 + desired
  {
  }

  lemma NoSeekOfZero(rd: Reader)
    ensures SeekMarker(rd).Ready? ==> SeekMarker(rd).rd.src.marker != 0
  {
  }

  lemma {:induction false} WaitingKeepsMarker(rd: Reader, desired: nat)
    requires rd.src.marker != 0 && Resync(rd, desired).Waiting?
    ensures Resync(rd, desired).rd.src.marker != 0
    decreases |rd.src.rest|
  {
    hide NextMarker;
    NoSeekOfZero(rd);
    match SeekMarker(rd)
    case Waiting(w) => SeekMarkerExtend(rd, []);
    case Ready(r) => WaitingKeepsMarker(r, desired);
  }

  lemma ReadRestartMarkerExtend(rd: Reader, more: seq<byte>)
    requires rd.nextNum < 8
    ensures match ReadRestartMarker(rd)
            case Ready(r) => ReadRestartMarker(ExtendReader(rd, more)) == Ready(ExtendReader(r, more))
            case Waiting(w) =>
              ReadRestartMarker(ExtendReader(rd, more)) == ReadRestartMarker(ExtendReader(w, more)) && w.src.buf == rd.src.buf
              && w.nextNum == rd.nextNum
  {
    hide ResyncAction, NextMarker, Resync;
    SeekMarkerExtend(rd, more);
    NoSeekOfZero(rd);
    match (if rd.src.marker == 0 then SeekMarker(rd) else Ready(rd))
    case Waiting(w) =>
    case Ready(r) =>
      ResyncExtend(r, r.nextNum, more);
      if r.src.marker != M_RST0 + r.nextNum && Resync(r, r.nextNum).Waiting? {
        var w := Resync(r, r.nextNum).rd;
        AdvanceIsNotExpected(w.src.marker, r.nextNum);
        WaitingKeepsMarker(r, r.nextNum);
      }
  }

  lemma ProcessRestartExtend(rd: Reader, more: seq<byte>)
    requires rd.nextNum < 8
    ensures match ProcessRestart(rd)
            case Ready(r) => ProcessRestart(ExtendReader(rd, more)) == Ready(ExtendReader(r, more))
            case Waiting(w) =>
              ProcessRestart(ExtendReader(rd, more)) == ProcessRestart(ExtendReader(w, more)) && w.nextNum == rd.nextNum
  {
    hide ReadRestartMarker;
    var r0 := rd.(discarded := rd.discarded + |rd.src.buf| / 8, src := rd.src.(buf := []));
    ReadRestartMarkerExtend(r0, more);
    match ReadRestartMarker(r0)
    case Waiting(w) => assert w.(discarded := w.discarded + |w.src.buf| / 8, src := w.src.(buf := [])) == w;
    case Ready(r) =>
  }

  // ----- What the routines do

  /** Whatever precedes it, a marker that needs no advance ends resynchronisation. */
  lemma {:induction false} NextMarkerFinds(junk: seq<byte>, m: byte, more: seq<byte>, discarded: nat)
    returns (junk': seq<byte>)
    requires m != 0 && m != 0xFF
    ensures var r := NextMarker(junk + [0xFF, m] + more, discarded);
      r.Found? && ((r.marker == m && r.rest == more) || (|junk'| < |junk| && r.rest == junk' + [0xFF, m] + more))
    decreases |junk|
  {
    var rest := junk + [0xFF, m] + more;
    if junk == [] {
      assert rest[1..] == [m] + more;
      assert SkipFF(rest[1..]) == [m] + more;
      assert ([m] + more)[1..] == more;
      junk' := [];
    } else if junk[0] != 0xFF {
      assert rest[1..] == junk[1..] + [0xFF, m] + more;
      junk' := NextMarkerFinds(junk[1..], m, more, discarded + 1);
    } else {
      assert rest[1..] == junk[1..] + [0xFF, m] + more;
      junk' := SkipFFInto(junk[1..], m, more);
      var t := SkipFF(rest[1..]);
      if t == [m] + more {
        assert ([m] + more)[1..] == more;
      } else {
        assert t[1..] == junk'[1..] + [0xFF, m] + more;
        if t[0] == 0 {
          junk' := NextMarkerFinds(junk'[1..], m, more, discarded + 2);
        } else {
          junk' := junk'[1..];
        }
      }
    }
  }

  lemma {:induction false} SkipFFInto(junk: seq<byte>, m: byte, more: seq<byte>) returns (junk': seq<byte>)
    requires m != 0 && m != 0xFF
    ensures var t := SkipFF(junk + [0xFF, m] + more);
      t == [m] + more || (0 < |junk'| <= |junk| && t == junk' + [0xFF, m] + more)
  {
    var rest := junk + [0xFF, m] + more;
    if junk == [] {
      assert rest[1..] == [m] + more;
      junk' := [];
    } else if junk[0] == 0xFF {
      assert rest[1..] == junk[1..] + [0xFF, m] + more;
      junk' := SkipFFInto(junk[1..], m, more);
    } else {
      junk' := junk;
    }
  }

  /** A valid marker that is no restart marker is left unread, with everything behind it: SOFn, DHT, EOI, SOS, APPn, COM. */
  lemma ResyncLeavesOthers(rd: Reader, desired: nat)
    requires desired < 8 && (0xC0 <= rd.src.marker <= 0xCF || 0xD8 <= rd.src.marker <= 0xFE)
    ensures Resync(rd, desired) == Ready(rd)
  {
  }

  /** So is one of the next two restart markers. */
  lemma ResyncLeavesNext(rd: Reader, desired: nat, d: nat)
    requires desired < 8 && 1 <= d <= 2 && rd.src.marker == 0xD0 + (desired + d) % 8
    ensures Resync(rd, desired) == Ready(rd)
  {
  }

  /** A restart marker three to five counts away, or the desired one, is dropped, and decoding goes on behind it. */
  lemma ResyncDropsFar(rd: Reader, desired: nat, d: nat)
    requires desired < 8 && (d == 0 || 3 <= d <= 5) && rd.src.marker == 0xD0 + (desired + d) % 8
    ensures Resync(rd, desired) == Ready(rd.(src := rd.src.(marker := 0)))
  {
  }

  /** One of the two restart markers before the desired one, or an invalid marker, is skipped up to the next marker. */
  lemma ResyncSkipsPrior(rd: Reader, desired: nat)
    requires desired < 8
    requires rd.src.marker < 0xC0 || rd.src.marker == 0xD0 + (desired + 7) % 8 || rd.src.marker == 0xD0 + (desired + 6) % 8
    ensures SeekMarker(rd).Waiting? ==> Resync(rd, desired) == SeekMarker(rd)
    ensures SeekMarker(rd).Ready? ==> Resync(rd, desired) == Resync(SeekMarker(rd).rd, desired)
  {
  }

  /** jpeg_resync_to_restart comes to an end on any input that holds a marker which needs no advance. */
  lemma {:induction false} ResyncTerminates(rd: Reader, desired: nat, junk: seq<byte>, m: byte, more: seq<byte>)
    requires desired < 8 && 0xC0 <= m < 0xFF && m != 0xD0 + (desired + 7) % 8 && m != 0xD0 + (desired + 6) % 8
    requires rd.src.rest == junk + [0xFF, m] + more
    ensures Resync(rd, desired).Ready?
    decreases |junk|
  {
    NeedsNoAdvance(m, desired);
    hide ResyncAction;
    if ResyncAction(rd.src.marker, desired) == Advance {
      var junk' := NextMarkerFinds(junk, m, more, rd.discarded);
      var r := SeekMarker(rd).rd;
      if r.src.marker == m && r.src.rest == more {
      } else {
        ResyncTerminates(r, desired, junk', m, more);
      }
    }
  }

  lemma NeedsNoAdvance(m: byte, desired: nat)
    requires desired < 8 && 0xC0 <= m < 0xFF && m != 0xD0 + (desired + 7) % 8 && m != 0xD0 + (desired + 6) % 8
    ensures ResyncAction(m, desired) != Advance
  {
  }

  lemma NothingBeforeMarker(rest: seq<byte>)
    requires Parse(rest).Some? && |Parse(rest).value.bits| < 8
    ensures NextMarker(rest, 0) == Found(Parse(rest).value.marker, Parse(rest).value.more, 0)
    ensures forall d: nat :: NextMarker(rest, d) == Found(Parse(rest).value.marker, Parse(rest).value.more, d)
    ensures Parse(rest).value.bits == []
  {
  }

  /** Where the data of a segment has been read up to its padding, read_restart_marker comes upon its marker. */
  lemma MarkerAhead(rd: Reader, a: Ahead)
    requires Lookahead(rd.src) == Some(a) && |a.bits| < 8
    ensures var r0 := rd.(discarded := rd.discarded + |rd.src.buf| / 8, src := rd.src.(buf := []));
      r0.discarded == rd.discarded
      && (if r0.src.marker == 0 then
            SeekMarker(r0).Ready? && SeekMarker(r0).rd.src.marker == a.marker && SeekMarker(r0).rd.src.rest == a.more
            && SeekMarker(r0).rd.nextNum == rd.nextNum && SeekMarker(r0).rd.src.buf == []
            && SeekMarker(r0).rd.src.starved == rd.src.starved
            && (rd.discarded == 0 ==> SeekMarker(r0).rd.src.warnings == rd.src.warnings && SeekMarker(r0).rd.discarded == 0)
          else r0.src.marker == a.marker && r0.src.rest == a.more)
  {
    if rd.src.marker == 0 {
      assert |Parse(rd.src.rest).value.bits| < 8;
      NothingBeforeMarker(rd.src.rest);
    }
  }

  /** The expected restart marker is swallowed. */
  lemma RestartExpected(rd: Reader, a: Ahead)
    requires Lookahead(rd.src) == Some(a) && |a.bits| < 8 && rd.nextNum < 8 && a.marker == RstCode(rd.nextNum)
    ensures ProcessRestart(rd).Ready?
    ensures var r := ProcessRestart(rd).rd;
      && r.src.rest == a.more && r.src.buf == [] && r.src.marker == 0 && !r.src.starved
      && r.nextNum == (rd.nextNum + 1) % 8
      && (rd.discarded == 0 ==> r.src.warnings == rd.src.warnings && r.discarded == 0)
  {
    hide Lookahead, NextMarker, Resync, SeekMarker;
    MarkerAhead(rd, a);
  }

  /** One of the next two restart markers is left for later: the expected one is missing. */
  lemma RestartMissing(rd: Reader, a: Ahead, d: nat)
    requires Lookahead(rd.src) == Some(a) && |a.bits| < 8 && rd.nextNum < 8
    requires 1 <= d <= 2 && a.marker == RstCode(rd.nextNum + d)
    ensures ProcessRestart(rd).Ready?
    ensures var r := ProcessRestart(rd).rd;
      && r.src.rest == a.more && r.src.buf == [] && r.src.marker == a.marker && r.nextNum == (rd.nextNum + 1) % 8
  {
    hide Lookahead, NextMarker, SeekMarker;
    MarkerAhead(rd, a);
  }

  /** The same when the marker has been left before and bits past it have been made up. */
  lemma RestartStillMissing(rd: Reader)
    requires rd.nextNum < 8 && (rd.src.marker == RstCode(rd.nextNum + 1) || rd.src.marker == RstCode(rd.nextNum + 2))
    ensures ProcessRestart(rd).Ready?
    ensures var r := ProcessRestart(rd).rd;
      && r.src.rest == rd.src.rest && r.src.buf == [] && r.src.marker == rd.src.marker
      && r.nextNum == (rd.nextNum + 1) % 8
  {
  }

  lemma RestartAtLast(rd: Reader)
    requires rd.nextNum < 8 && rd.src.marker == RstCode(rd.nextNum)
    ensures ProcessRestart(rd).Ready?
    ensures var r := ProcessRestart(rd).rd;
      && r.src.rest == rd.src.rest && r.src.buf == [] && r.src.marker == 0 && !r.src.starved
      && r.nextNum == (rd.nextNum + 1) % 8
  {
  }

  /** A valid marker that is no restart marker, such as EOI, is left where it is. */
  lemma RestartAtOther(rd: Reader, a: Ahead)
    requires Lookahead(rd.src) == Some(a) && |a.bits| < 8 && rd.nextNum < 8
    requires 0xC0 <= a.marker <= 0xCF || 0xD8 <= a.marker <= 0xFE
    ensures ProcessRestart(rd).Ready?
    ensures var r := ProcessRestart(rd).rd;
      && r.src.rest == a.more && r.src.buf == [] && r.src.marker == a.marker && r.nextNum == (rd.nextNum + 1) % 8
      && r.src.starved == rd.src.starved
  {
    hide Lookahead, NextMarker, SeekMarker, Resync;
    MarkerAhead(rd, a);
    var r0 := rd.(discarded := rd.discarded + |rd.src.buf| / 8, src := rd.src.(buf := []));
    var r := if r0.src.marker == 0 then SeekMarker(r0).rd else r0;
    ResyncLeavesOthers(r, r.nextNum);
  }

  /** And it is left there at every further restart. */
  lemma RestartStillAtOther(rd: Reader)
    requires rd.nextNum < 8 && (0xC0 <= rd.src.marker <= 0xCF || 0xD8 <= rd.src.marker <= 0xFE)
    ensures ProcessRestart(rd).Ready?
    ensures var r := ProcessRestart(rd).rd;
      && r.src.rest == rd.src.rest && r.src.buf == [] && r.src.marker == rd.src.marker && r.nextNum == (rd.nextNum + 1) % 8
      && r.src.starved == rd.src.starved
  {
    hide Resync;
    ResyncLeavesOthers(rd.(discarded := rd.discarded + |rd.src.buf| / 8, src := rd.src.(buf := [])), rd.nextNum);
  }

  /** A restart marker three to five counts away is taken for the expected one. */
  lemma RestartFarAway(rd: Reader, a: Ahead, d: nat)
    requires Lookahead(rd.src) == Some(a) && |a.bits| < 8 && rd.nextNum < 8
    requires 3 <= d <= 5 && a.marker == RstCode(rd.nextNum + d)
    ensures ProcessRestart(rd).Ready?
    ensures var r := ProcessRestart(rd).rd;
      && r.src.rest == a.more && r.src.buf == [] && r.src.marker == 0 && !r.src.starved && r.nextNum == (rd.nextNum + 1) % 8
  {
    hide Lookahead, NextMarker, SeekMarker, Resync;
    MarkerAhead(rd, a);
    var r0 := rd.(discarded := rd.discarded + |rd.src.buf| / 8, src := rd.src.(buf := []));
    var r := if r0.src.marker == 0 then SeekMarker(r0).rd else r0;
    ResyncDropsFar(r, r.nextNum, d);
  }

  /** next_marker passes over the stuffed bytes of a segment. */
  lemma {:induction false} PastStuffed(bytes: seq<byte>, m: byte, more: seq<byte>, discarded: nat) returns (d: nat)
    requires m != 0 && m != 0xFF
    ensures NextMarker(Stuff(bytes) + [0xFF, m] + more, discarded) == Found(m, more, d)
    decreases |bytes|
  {
    var rest := Stuff(bytes) + [0xFF, m] + more;
    if bytes == [] {
      assert rest[1..] == [m] + more && ([m] + more)[1..] == more;
      d := discarded;
    } else if bytes[0] == 0xFF {
      var t := Stuff(bytes[1..]) + [0xFF, m] + more;
      assert rest == [0xFF, 0] + t;
      assert rest[1..] == [0] + t && ([0] + t)[1..] == t;
      d := PastStuffed(bytes[1..], m, more, discarded + 2);
    } else {
      assert rest == [bytes[0]] + (Stuff(bytes[1..]) + [0xFF, m] + more);
      assert rest[1..] == Stuff(bytes[1..]) + [0xFF, m] + more;
      d := PastStuffed(bytes[1..], m, more, discarded + 1);
    }
  }

  /** A restart marker one or two counts back is skipped with the segment behind it, up to the expected marker. */
  lemma RestartRepeated(rd: Reader, a: Ahead, d: nat, bytes: seq<byte>, more: seq<byte>)
    requires Lookahead(rd.src) == Some(a) && |a.bits| < 8 && rd.nextNum < 8
    requires 1 <= d <= 2 && a.marker == RstCode(rd.nextNum + 8 - d)
    requires a.more == Stuff(bytes) + [0xFF, RstCode(rd.nextNum)] + more
    ensures ProcessRestart(rd).Ready?
    ensures var r := ProcessRestart(rd).rd;
      && r.src.rest == more && r.src.buf == [] && r.src.marker == 0 && !r.src.starved && r.nextNum == (rd.nextNum + 1) % 8
  {
    hide Lookahead, Stuff, Resync, ResyncAction;
    MarkerAhead(rd, a);
    hide NextMarker;
    var r0 := rd.(discarded := rd.discarded + |rd.src.buf| / 8, src := rd.src.(buf := []));
    var r := if r0.src.marker == 0 then SeekMarker(r0).rd else r0;
    ResyncSkipsPrior(r, r.nextNum);
    var skipped := PastStuffed(bytes, RstCode(rd.nextNum), more, r.discarded);
    ResyncDropsFar(SeekMarker(r).rd, r.nextNum, 0);
  }
}
