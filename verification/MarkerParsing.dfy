/**
 read_markers of jdmarker.c as a function of the decompressor's state, which holds the bytes that have come in since the
 restart point.
 */
module MarkerParsing {
  import opened Bits
  import opened Wrappers
  import opened MarkerSegments
  import RestartMarkers

  const M_SOF0 := RestartMarkers.M_SOF0
  const M_SOF1 := 0xC1
  const M_SOF2 := 0xC2
  const M_SOF9 := 0xC9
  const M_SOF10 := 0xCA
  const M_DHT := 0xC4
  const M_DAC := 0xCC
  const M_SOI := 0xD8
  const M_EOI := 0xD9
  const M_SOS := 0xDA
  const M_DQT := 0xDB
  const M_DNL := 0xDC
  const M_DRI := 0xDD
  const M_APP0 := 0xE0
  const M_APP14 := 0xEE
  const M_APP15 := 0xEF
  const M_COM := 0xFE
  const M_TEM := 0x01

  const APPN_DATA_LEN := 14

  /** A saved APPn or COM marker */
  datatype Saved = Saved(marker: byte, originalLength: nat, data: seq<byte>)

  /** A marker that is being saved: limit bytes of it are wanted. */
  datatype Partial = Partial(originalLength: nat, limit: nat, data: seq<byte>)

  /** skip is what skip_input_data has still to skip of the bytes to come. */
  datatype State = State(input: seq<byte>, skip: nat, f: Fields, unread: byte, sawSoi: bool, sawSof: bool, discarded: nat,
                         scans: nat, saved: seq<Saved>, cur: Option<Partial>, warnings: nat)

  datatype Outcome = Suspended(st: State) | ReachedSos(st: State) | ReachedEoi(st: State) | Failed(error: Error)
  datatype StepResult = Go(st: State) | Stop(o: Outcome)

  /** length_limit_COM and length_limit_APPn, for the marker types that are to be saved */
  type Limits = map<byte, nat>

  function SkipInput(st: State, n: int): (r: State)
    ensures |r.input| <= |st.input| && r.unread == st.unread
  {
    if n <= 0 then st
    else if n <= |st.input| then st.(input := st.input[n..])
    else st.(input := [], skip := n - |st.input|)
  }

  /** first_marker or next_marker */
  function FindMarker(st: State): StepResult {
    if !st.sawSoi then
      if |st.input| < 2 then Stop(Suspended(st))
      else if st.input[0] != 0xFF || st.input[1] != M_SOI then Stop(Failed(NoSoi))
      else Go(st.(input := st.input[2..], unread := M_SOI))
    else
      match RestartMarkers.NextMarker(st.input, st.discarded)
      case Short(rest, d) => Stop(Suspended(st.(input := rest, discarded := d)))
      case Found(m, rest, d) =>
        Go(st.(input := rest, unread := m, discarded := 0, warnings := st.warnings + (if d != 0 then 1 else 0)))
  }

  /** What becomes of the state when a parser returns */
  function Parsed(st: State, s: Seg): (r: StepResult)
    ensures r.Go? ==> r.st.unread == 0 && |r.st.input| <= |st.input|
  {
    match s
    case Need(f) => Stop(Suspended(st.(f := f)))
    case Fail(e) => Stop(Failed(e))
    case Done(f, p) => Go(st.(f := f, input := if p <= |st.input| then st.input[p..] else [], unread := 0))
  }

  function SkipVariable(st: State): (r: StepResult)
    ensures r.Go? ==> r.st.unread == 0 && |r.st.input| <= |st.input|
  {
    if |st.input| < 2 then Stop(Suspended(st))
    else Go(SkipInput(st.(input := st.input[2..], unread := 0), TwoBytes(st.input, 0) - 2))
  }

  /** APP0 and APP14 when they are not saved; what is read of them is not part of the model. */
  function GetInterestingAppn(st: State): (r: StepResult)
    ensures r.Go? ==> r.st.unread == 0 && |r.st.input| <= |st.input|
  {
    if |st.input| < 2 then Stop(Suspended(st))
    else
      var length := TwoBytes(st.input, 0) - 2;
      var toRead := if length >= APPN_DATA_LEN then APPN_DATA_LEN else if length > 0 then length else 0;
      if |st.input| < 2 + toRead then Stop(Suspended(st))
      else Go(SkipInput(st.(input := st.input[2 + toRead..], unread := 0), length - toRead))
  }

  function Least(a: nat, b: nat): nat {
    if a < b then a else b
  }

  /** Here the restart point moves with what has been read, and the marker being saved remembers the rest. */
  function SaveData(st: State, cur: Partial): (r: StepResult)
    ensures r.Go? ==> r.st.unread == 0 && |r.st.input| <= |st.input|
  {
    var need := cur.limit - |cur.data|;
    if |st.input| < need then Stop(Suspended(st.(input := [], cur := Some(cur.(data := cur.data + st.input)))))
    else
      var data, rest := cur.data + st.input[..if need > 0 then need else 0], st.input[if need > 0 then need else 0..];
      Go(SkipInput(st.(input := rest, cur := None, saved := st.saved + [Saved(st.unread, cur.originalLength, data)],
                       unread := 0), cur.originalLength - cur.limit))
  }

  function SaveMarker(st: State, limit: nat): (r: StepResult)
    ensures r.Go? ==> r.st.unread == 0 && |r.st.input| <= |st.input|
  {
    match st.cur
    case Some(cur) => SaveData(st, cur)
    case None =>
      if |st.input| < 2 then Stop(Suspended(st))
      else
        var length := TwoBytes(st.input, 0) - 2;
        if length < 0 then Go(st.(input := st.input[2..], unread := 0))
        else SaveData(st.(input := st.input[2..]), Partial(length, Least(length, limit), []))
  }

  function GetSoi(st: State): (r: StepResult)
    ensures r.Go? ==> r.st.unread == 0 && |r.st.input| <= |st.input|
  {
    if st.sawSoi then Stop(Failed(SoiDuplicate))
    else Go(st.(f := st.f[RestartInterval := 0], sawSoi := true, unread := 0))
  }

  function SofParsed(st: State, progressive: bool, arith: bool): (r: StepResult)
    ensures r.Go? ==> r.st.unread == 0 && |r.st.input| <= |st.input|
  {
    match Parsed(st, GetSof(st.f, st.input, progressive, arith, st.sawSof))
    case Go(s) => Go(s.(sawSof := true))
    case r => r
  }

  function SosParsed(st: State): (r: StepResult)
    ensures r.Stop?
  {
    match Parsed(st, GetSos(st.f, st.input, st.sawSof, Ids(st.f)))
    case Go(s) => Stop(ReachedSos(s.(scans := s.scans + 1)))
    case r => r
  }

  predicate IsUnsupportedSof(m: byte) {
    m in {0xC3, 0xC5, 0xC6, 0xC7, 0xC8, 0xCB, 0xCD, 0xCE, 0xCF}
  }

  /** Process the marker whose code is in unread_marker. */
  function Process(st: State, limits: Limits): (r: StepResult)
    ensures r.Go? ==> r.st.unread == 0 && |r.st.input| <= |st.input|
  {
    hide GetSof, GetSos, GetDht, GetDqt, GetDri, Parsed, SofParsed, SosParsed, SaveMarker, GetInterestingAppn, SkipVariable, GetSoi;
    var m := st.unread;
    if m == M_SOI then GetSoi(st)
    else if m == M_SOF0 || m == M_SOF1 then SofParsed(st, false, false)
    else if m == M_SOF2 then SofParsed(st, true, false)
    else if m == M_SOF9 then SofParsed(st, false, true)
    else if m == M_SOF10 then SofParsed(st, true, true)
    else if IsUnsupportedSof(m) then Stop(Failed(SofUnsupported))
    else if m == M_SOS then SosParsed(st)
    else if m == M_EOI then Stop(ReachedEoi(st.(unread := 0)))
    else if m == M_DHT then Parsed(st, GetDht(st.f, st.input))
    else if m == M_DQT then Parsed(st, GetDqt(st.f, st.input))
    else if m == M_DRI then Parsed(st, GetDri(st.f, st.input))
    else if M_APP0 <= m <= M_APP15 || m == M_COM then
      if m in limits then SaveMarker(st, limits[m])
      else if m == M_APP0 || m == M_APP14 then GetInterestingAppn(st)
      else SkipVariable(st)
    else if RestartMarkers.M_RST0 <= m <= RestartMarkers.M_RST7 || m == M_TEM then Go(st.(unread := 0))
    else if m == M_DNL || m == M_DAC then SkipVariable(st)
    else Stop(Failed(UnknownMarker))
  }

  function Step(st: State, limits: Limits): StepResult {
    if st.unread == 0 then FindMarker(st) else Process(st, limits)
  }

  /** read_markers */
  function ReadMarkers(st: State, limits: Limits): Outcome
    decreases 2 * |st.input| + if st.unread != 0 then 1 else 0
  {
    StepShrinks(st, limits);
    match Step(st, limits)
    case Go(s) => ReadMarkers(s, limits)
    case Stop(o) => o
  }

  lemma StepShrinks(st: State, limits: Limits)
    ensures Step(st, limits).Go? ==>
      var s := Step(st, limits).st;
      2 * |s.input| + (if s.unread != 0 then 1 else 0) < 2 * |st.input| + (if st.unread != 0 then 1 else 0)
  {
    hide Process;
  }
}
