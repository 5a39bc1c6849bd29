/**
 What read_markers (jdmarker.c) makes of any input, valid or not: markers by their codes, and the state that a scan can
 rely on once its header has been read.
 */
module MarkerMeaning {
  import opened Bits
  import opened Wrappers
  import opened Coefficients
  import opened NaturalOrder
  import opened MarkerSegments
  import opened MarkerParsing
  import RestartMarkers

  // ----- Markers by their codes

  /** Behind SOI, between two markers, with marker m and then rest to come. */
  predicate Comes(st: State, m: byte, rest: seq<byte>) {
    st.sawSoi && st.unread == 0 && st.discarded == 0 && st.input == [0xFF, m] + rest && m != 0 && m != 0xFF
  }

  lemma MarkerFound(st: State, m: byte, rest: seq<byte>, limits: Limits)
    requires Comes(st, m, rest)
    ensures ReadMarkers(st, limits) == ReadMarkers(st.(input := rest, unread := m), limits)
  {
    assert st.input[1..] == [m] + rest && st.input[2..] == rest && ([m] + rest)[1..] == rest;
    assert FindMarker(st) == Go(st.(input := rest, unread := m));
  }

  /** A restart marker or TEM (0x01) between segments is as if it were not there. */
  lemma StrayMarkerIsSkipped(st: State, m: byte, rest: seq<byte>, limits: Limits)
    requires Comes(st, m, rest) && (0xD0 <= m <= 0xD7 || m == 0x01)
    ensures ReadMarkers(st, limits) == ReadMarkers(st.(input := rest), limits)
  {
    MarkerFound(st, m, rest, limits);
    var next := st.(input := rest, unread := m);
    assert Process(next, limits) == Go(next.(unread := 0));
    assert next.(unread := 0) == st.(input := rest);
  }

  /** A frame that is lossless, hierarchical, or JPG (0xC8) is refused. */
  lemma FrameIsRefused(st: State, m: byte, rest: seq<byte>, limits: Limits)
    requires Comes(st, m, rest) && 0xC0 <= m <= 0xCF && m !in {0xC0, 0xC1, 0xC2, 0xC4, 0xC9, 0xCA, 0xCC}
    ensures ReadMarkers(st, limits) == Failed(SofUnsupported)
  {
    MarkerFound(st, m, rest, limits);
    assert Process(st.(input := rest, unread := m), limits) == Stop(Failed(SofUnsupported));
  }

  /** RES, DHP, EXP and JPGn are unknown. */
  lemma CodeIsRefused(st: State, m: byte, rest: seq<byte>, limits: Limits)
    requires Comes(st, m, rest) && (0x02 <= m <= 0xBF || m == 0xDE || m == 0xDF || 0xF0 <= m <= 0xFD)
    ensures ReadMarkers(st, limits) == Failed(UnknownMarker)
  {
    MarkerFound(st, m, rest, limits);
    assert Process(st.(input := rest, unread := m), limits) == Stop(Failed(UnknownMarker));
  }

  /** EOI ends the reading, with what is behind it untouched. */
  lemma EndIsReached(st: State, rest: seq<byte>, limits: Limits)
    requires Comes(st, 0xD9, rest)
    ensures ReadMarkers(st, limits) == ReachedEoi(st.(input := rest))
  {
    MarkerFound(st, 0xD9, rest, limits);
    var next := st.(input := rest, unread := 0xD9);
    assert Process(next, limits) == Stop(ReachedEoi(next.(unread := 0)));
    assert next.(unread := 0) == st.(input := rest);
  }

  /** A second SOI, and a scan without a frame, are refused. */
  lemma OrderIsKept(st: State, rest: seq<byte>, limits: Limits)
    ensures Comes(st, 0xD8, rest) ==> ReadMarkers(st, limits) == Failed(SoiDuplicate)
    ensures Comes(st, 0xDA, rest) && !st.sawSof ==> ReadMarkers(st, limits) == Failed(SosNoSof)
  {
    if Comes(st, 0xD8, rest) {
      MarkerFound(st, 0xD8, rest, limits);
      assert Process(st.(input := rest, unread := 0xD8), limits) == Stop(Failed(SoiDuplicate));
    }
    if Comes(st, 0xDA, rest) && !st.sawSof {
      MarkerFound(st, 0xDA, rest, limits);
      assert Process(st.(input := rest, unread := 0xDA), limits) == Stop(Failed(SosNoSof));
    }
  }

  // ----- Every field is in bounds

  /** An element that exists, with a value that it can hold. */
  predicate CellOk(c: Cell, v: int) {
    match c
    case QuantVal(n, k) => n < 4 && k < 64 && 0 <= v < 65536
    case HuffCount(_, n, i) => n < 4 && 1 <= i <= 16 && 0 <= v < 256
    case HuffValue(_, n, i) => n < 4 && i < 256 && 0 <= v < 256
    case Height => 0 <= v < 65536
    case Width => 0 <= v < 65536
    case RestartInterval => 0 <= v < 65536
    case Precision => 0 <= v < 256
    case NumComponents => 0 <= v < 256
    case CompId(ci) => ci < 255 && 0 <= v < 256
    case HSamp(ci) => ci < 255 && 0 <= v < 16
    case VSamp(ci) => ci < 255 && 0 <= v < 16
    case QuantNo(ci) => ci < 255 && 0 <= v < 256
    case CompsInScan => 1 <= v <= 4
    case CurComp(i) => i < 4 && 0 <= v < 255
    case DcTblNo(ci) => ci < 255 && 0 <= v < 16
    case AcTblNo(ci) => ci < 255 && 0 <= v < 16
    case Ss => 0 <= v < 256
    case Se => 0 <= v < 256
    case Ah => 0 <= v < 16
    case Al => 0 <= v < 16
    case _ => 0 <= v <= 1
  }

  predicate InBounds(f: Fields) {
    forall c :: c in f ==> CellOk(c, f[c])
  }

  predicate StaysInBounds(s: Seg) {
    s.Fail? || InBounds(s.f)
  }

  lemma SetInBounds(f: Fields, c: Cell, v: int)
    requires InBounds(f) && CellOk(c, v)
    ensures InBounds(f[c := v])
  {
    hide CellOk;
  }

  // ----- The frame

  predicate IsFrameCell(c: Cell) {
    c.Height? || c.Width? || c.NumComponents? || c.CompId? || c.HSamp? || c.VSamp? || c.QuantNo?
  }

  ghost predicate SameFrame(f: Fields, g: Fields) {
    forall c :: IsFrameCell(c) ==> (c in f <==> c in g) && (c in f ==> f[c] == g[c])
  }

  predicate HasComponent(f: Fields, ci: nat) {
    CompId(ci) in f && HSamp(ci) in f && VSamp(ci) in f && QuantNo(ci) in f
  }

  /** The frame header has been read: an image of at least one sample and one component, and all of its components. */
  predicate FrameComplete(f: Fields) {
    && Height in f && f[Height] > 0 && Width in f && f[Width] > 0 && NumComponents in f && f[NumComponents] > 0
    && forall ci: nat :: ci < f[NumComponents] ==> HasComponent(f, ci)
  }

  lemma SameFrameComplete(f: Fields, g: Fields)
    requires SameFrame(f, g) && FrameComplete(f)
    ensures FrameComplete(g)
  {
    assert IsFrameCell(Height) && IsFrameCell(Width) && IsFrameCell(NumComponents);
    forall ci: nat | ci < g[NumComponents]
      ensures HasComponent(g, ci)
    {
      assert HasComponent(f, ci);
      assert IsFrameCell(CompId(ci)) && IsFrameCell(HSamp(ci)) && IsFrameCell(VSamp(ci)) && IsFrameCell(QuantNo(ci));
    }
  }

  // ----- Tables

  lemma {:induction false} QuantEntriesOk(f: Fields, b: seq<byte>, pos: nat, n: nat, wide: bool, k: nat)
    requires InBounds(f) && k <= DCTSIZE2 && n < 4
    ensures StaysInBounds(QuantEntries(f, b, pos, n, wide, k))
    ensures QuantEntries(f, b, pos, n, wide, k).Done? ==> SameFrame(f, QuantEntries(f, b, pos, n, wide, k).f)
    decreases DCTSIZE2 - k
  {
    hide Natural, InBounds;
    var size := if wide then 2 else 1;
    if k < DCTSIZE2 && pos + size <= |b| {
      var v := if wide then TwoBytes(b, pos) else b[pos] as nat;
      SetInBounds(f, QuantVal(n, Natural(k)), v);
      QuantEntriesOk(f[QuantVal(n, Natural(k)) := v], b, pos + size, n, wide, k + 1);
    }
  }

  lemma {:induction false} QuantTablesOk(f: Fields, b: seq<byte>, pos: nat, length: int)
    requires InBounds(f)
    ensures StaysInBounds(QuantTables(f, b, pos, length))
    ensures QuantTables(f, b, pos, length).Done? ==> SameFrame(f, QuantTables(f, b, pos, length).f)
    decreases length
  {
    hide QuantEntries, InBounds;
    if length > 0 && pos < |b| {
      var n, prec := b[pos] as nat % 16, b[pos] as nat / 16;
      if n < NUM_TBLS {
        QuantEntriesOk(f, b, pos + 1, n, prec != 0, 0);
        match QuantEntries(f, b, pos + 1, n, prec != 0, 0) {
          case Done(g, p) => QuantTablesOk(g, b, p, length - (DCTSIZE2 + 1) - (if prec != 0 then DCTSIZE2 else 0));
          case _ =>
        }
      }
    }
  }

  lemma {:induction false} StoreCountsOk(f: Fields, ac: bool, n: nat, counts: seq<byte>)
    requires InBounds(f) && n < 4 && |counts| <= 16
    ensures InBounds(StoreCounts(f, ac, n, counts)) && SameFrame(f, StoreCounts(f, ac, n, counts))
    decreases |counts|
  {
    hide InBounds;
    if counts != [] {
      StoreCountsOk(f, ac, n, counts[..|counts| - 1]);
      SetInBounds(StoreCounts(f, ac, n, counts[..|counts| - 1]), HuffCount(ac, n, |counts|), counts[|counts| - 1] as int);
    }
  }

  lemma {:induction false} StoreValuesOk(f: Fields, ac: bool, n: nat, vals: seq<byte>)
    requires InBounds(f) && n < 4 && |vals| <= 256
    ensures InBounds(StoreValues(f, ac, n, vals)) && SameFrame(f, StoreValues(f, ac, n, vals))
    decreases |vals|
  {
    hide InBounds;
    if vals != [] {
      StoreValuesOk(f, ac, n, vals[..|vals| - 1]);
      SetInBounds(StoreValues(f, ac, n, vals[..|vals| - 1]), HuffValue(ac, n, |vals| - 1), vals[|vals| - 1] as int);
    }
  }

  lemma {:induction false} HuffTablesOk(f: Fields, b: seq<byte>, pos: nat, length: int)
    requires InBounds(f)
    ensures StaysInBounds(HuffTables(f, b, pos, length))
    ensures HuffTables(f, b, pos, length).Done? ==> SameFrame(f, HuffTables(f, b, pos, length).f)
    decreases length
  {
    hide SumBytes, StoreCounts, StoreValues, InBounds;
    if length > 16 && pos + 17 <= |b| {
      var index, counts := b[pos] as nat, b[pos + 1..pos + 17];
      var count := SumBytes(counts);
      if count <= 256 && count <= length - 17 && pos + 17 + count <= |b| {
        var ac := index / 16 % 2 == 1;
        var n := if ac then index - 16 else index;
        if n < NUM_TBLS {
          var vals := b[pos + 17..pos + 17 + count];
          StoreCountsOk(f, ac, n, counts);
          StoreValuesOk(StoreCounts(f, ac, n, counts), ac, n, vals);
          HuffTablesOk(StoreHuff(f, ac, n, counts, vals), b, pos + 17 + count, length - 17 - count);
        }
      }
    }
  }

  lemma DriOk(f: Fields, b: seq<byte>)
    requires InBounds(f)
    ensures StaysInBounds(GetDri(f, b)) && (GetDri(f, b).Done? ==> SameFrame(f, GetDri(f, b).f))
  {
  }

  // ----- SOF

  lemma {:induction false} SofCompsOk(f: Fields, b: seq<byte>, pos: nat, ci: nat, count: nat)
    requires InBounds(f) && ci <= count < 256 && (forall i: nat :: i < ci ==> HasComponent(f, i))
    ensures StaysInBounds(SofComps(f, b, pos, ci, count))
    ensures var s := SofComps(f, b, pos, ci, count);
      s.Done? ==>
        && (forall c :: c in {Height, Width, NumComponents} && c in f ==> c in s.f && s.f[c] == f[c])
        && forall i: nat :: i < count ==> HasComponent(s.f, i)
    decreases count - ci
  {
    hide InBounds;
    if ci < count && pos < |b| {
      var f1 := f[CompId(ci) := b[pos] as int];
      SetInBounds(f, CompId(ci), b[pos] as int);
      if pos + 1 < |b| {
        var h, v := b[pos + 1] as int / 16, b[pos + 1] as int % 16;
        SetInBounds(f1, HSamp(ci), h);
        SetInBounds(f1[HSamp(ci) := h], VSamp(ci), v);
        var f2 := f1[HSamp(ci) := h][VSamp(ci) := v];
        if pos + 2 < |b| {
          SetInBounds(f2, QuantNo(ci), b[pos + 2] as int);
          var f3 := f2[QuantNo(ci) := b[pos + 2] as int];
          forall i: nat | i < ci + 1 ensures HasComponent(f3, i) { assert i < ci ==> HasComponent(f, i); }
          SofCompsOk(f3, b, pos + 3, ci + 1, count);
        }
      }
    }
  }

  lemma SofOk(f: Fields, b: seq<byte>, progressive: bool, arith: bool, sawSof: bool)
    requires InBounds(f)
    ensures StaysInBounds(GetSof(f, b, progressive, arith, sawSof))
    ensures GetSof(f, b, progressive, arith, sawSof).Done? ==> !sawSof && FrameComplete(GetSof(f, b, progressive, arith, sawSof).f)
  {
    hide InBounds, HasComponent;
    var f0 := f[Progressive := ToInt(progressive)][Arith := ToInt(arith)];
    SetInBounds(f, Progressive, ToInt(progressive));
    SetInBounds(f[Progressive := ToInt(progressive)], Arith, ToInt(arith));
    if |b| >= 3 {
      var f1 := f0[Precision := b[2] as int];
      SetInBounds(f0, Precision, b[2] as int);
      HalfOk(f1, b, Height, 3);
      if |b| >= 5 {
        var f2 := f1[Height := TwoBytes(b, 3)];
        SetInBounds(f1, Height, TwoBytes(b, 3));
        HalfOk(f2, b, Width, 5);
        if |b| >= 7 {
          var f3 := f2[Width := TwoBytes(b, 5)];
          SetInBounds(f2, Width, TwoBytes(b, 5));
          if |b| >= 8 {
            SetInBounds(f3, NumComponents, b[7] as int);
            SofCompsOk(f3[NumComponents := b[7] as int], b, 8, 0, b[7] as nat);
          }
        }
      }
    }
  }

  lemma HalfOk(f: Fields, b: seq<byte>, cell: Cell, pos: nat)
    requires InBounds(f) && (cell == Height || cell == Width)
    ensures InBounds(HalfRead(f, b, cell, pos))
  {
    hide InBounds;
    if pos < |b| {
      SetInBounds(f, cell, b[pos] as int * 256);
    }
  }

  // ----- SOS

  predicate HasScanComponent(f: Fields, i: nat, count: int) {
    CurComp(i) in f && 0 <= f[CurComp(i)] < count && DcTblNo(f[CurComp(i)]) in f && AcTblNo(f[CurComp(i)]) in f
  }

  /** The scan header has been read: one to four components, each of the frame, with their tables, the band and the bits. */
  predicate ScanComplete(f: Fields) {
    && NumComponents in f && CompsInScan in f && 1 <= f[CompsInScan] <= 4
    && (forall i: nat :: i < f[CompsInScan] ==> HasScanComponent(f, i, f[NumComponents]))
    && Ss in f && Se in f && Ah in f && Al in f && NextRestartNum in f && f[NextRestartNum] == 0
  }

  lemma TailOk(f: Fields, b: seq<byte>, pos: nat, n: nat, count: int)
    requires InBounds(f) && forall j: nat :: j < n ==> HasScanComponent(f, j, count)
    ensures StaysInBounds(SosTail(f, b, pos))
    ensures var s := SosTail(f, b, pos);
      s.Done? ==>
        && SameFrame(f, s.f) && (CompsInScan in f ==> CompsInScan in s.f && s.f[CompsInScan] == f[CompsInScan])
        && (forall j: nat :: j < n ==> HasScanComponent(s.f, j, count))
        && Ss in s.f && Se in s.f && Ah in s.f && Al in s.f && NextRestartNum in s.f && s.f[NextRestartNum] == 0
  {
    hide InBounds;
    if pos < |b| {
      SetInBounds(f, Ss, b[pos] as int);
      var f1 := f[Ss := b[pos] as int];
      if pos + 1 < |b| {
        SetInBounds(f1, Se, b[pos + 1] as int);
        var f2 := f1[Se := b[pos + 1] as int];
        if pos + 2 < |b| {
          var h, l := b[pos + 2] as int / 16, b[pos + 2] as int % 16;
          SetInBounds(f2, Ah, h);
          SetInBounds(f2[Ah := h], Al, l);
          SetInBounds(f2[Ah := h][Al := l], NextRestartNum, 0);
          var g := f2[Ah := h][Al := l][NextRestartNum := 0];
          forall j: nat | j < n ensures HasScanComponent(g, j, count) {
            assert HasScanComponent(f, j, count);
          }
        }
      }
    }
  }

  lemma {:induction false} SosCompsOk(f: Fields, b: seq<byte>, pos: nat, i: nat, n: nat, ids: seq<int>)
    requires InBounds(f) && i <= n <= 4 && |ids| < 256 && (forall j: nat :: j < i ==> HasScanComponent(f, j, |ids|))
    ensures StaysInBounds(SosComps(f, b, pos, i, n, ids))
    ensures var s := SosComps(f, b, pos, i, n, ids);
      s.Done? ==>
        && SameFrame(f, s.f) && (CompsInScan in f ==> CompsInScan in s.f && s.f[CompsInScan] == f[CompsInScan])
        && (forall j: nat :: j < n ==> HasScanComponent(s.f, j, |ids|))
        && Ss in s.f && Se in s.f && Ah in s.f && Al in s.f && NextRestartNum in s.f && s.f[NextRestartNum] == 0
    decreases n - i
  {
    hide InBounds, SosTail, HasScanComponent;
    if i == n {
      TailOk(f, b, pos, n, |ids|);
    } else if pos + 2 <= |b| {
      var ci, c := FindId(ids, b[pos] as int, 0), b[pos + 1] as int;
      if ci < |ids| {
        SetInBounds(f, CurComp(i), ci);
        SetInBounds(f[CurComp(i) := ci], DcTblNo(ci), c / 16);
        SetInBounds(f[CurComp(i) := ci][DcTblNo(ci) := c / 16], AcTblNo(ci), c % 16);
        var g := f[CurComp(i) := ci][DcTblNo(ci) := c / 16][AcTblNo(ci) := c % 16];
        forall j: nat | j < i + 1 ensures HasScanComponent(g, j, |ids|) { OneMoreComponent(f, ci, c, i, j, |ids|); }
        SosCompsOk(g, b, pos + 2, i + 1, n, ids);
      }
    }
  }

  lemma OneMoreComponent(f: Fields, ci: nat, c: int, i: nat, j: nat, count: int)
    requires j <= i && ci < count && (j < i ==> HasScanComponent(f, j, count))
    ensures HasScanComponent(f[CurComp(i) := ci][DcTblNo(ci) := c / 16][AcTblNo(ci) := c % 16], j, count)
  {
  }

  lemma SosOk(f: Fields, b: seq<byte>, sawSof: bool)
    requires InBounds(f) && (sawSof ==> FrameComplete(f))
    ensures StaysInBounds(GetSos(f, b, sawSof, Ids(f)))
    ensures var s := GetSos(f, b, sawSof, Ids(f)); s.Done? ==> sawSof && FrameComplete(s.f) && ScanComplete(s.f)
  {
    hide SosComps, InBounds, HasScanComponent;
    if sawSof && |b| >= 3 {
      var n := b[2] as nat;
      if TwoBytes(b, 0) == 2 * n + 6 && 1 <= n <= MAX_COMPS_IN_SCAN {
        var g := f[CompsInScan := n];
        SetInBounds(f, CompsInScan, n);
        CountInBounds(f);
        SosCompsOk(g, b, 3, 0, n, Ids(f));
        var s := SosComps(g, b, 3, 0, n, Ids(f));
        if s.Done? {
          assert SameFrame(f, g);
          SameFrameComplete(f, g);
          SameFrameComplete(g, s.f);
          assert IsFrameCell(NumComponents);
        }
      }
    }
  }

  lemma CountInBounds(f: Fields)
    requires InBounds(f) && FrameComplete(f)
    ensures 0 < f[NumComponents] < 256
  {
  }

  // ----- read_markers

  /** Between two markers: all fields are in bounds, and there is a frame if one has been seen. */
  predicate Sound(st: State) {
    InBounds(st.f) && (st.sawSof ==> FrameComplete(st.f))
  }

  predicate SoundEnd(o: Outcome) {
    match o
    case Suspended(s) => InBounds(s.f)
    case ReachedSos(s) => Sound(s) && s.sawSof && ScanComplete(s.f)
    case ReachedEoi(s) => Sound(s)
    case Failed(_) => true
  }

  predicate SoundStep(r: StepResult) {
    match r
    case Go(s) => Sound(s)
    case Stop(o) => SoundEnd(o)
  }

  lemma TablesSound(st: State, s: Seg)
    requires Sound(st) && StaysInBounds(s) && (s.Done? ==> SameFrame(st.f, s.f))
    ensures SoundStep(Parsed(st, s))
  {
    hide InBounds, FrameComplete, SameFrame;
    if s.Done? && st.sawSof {
      SameFrameComplete(st.f, s.f);
    }
  }

  lemma SkippingSound(st: State, limit: nat)
    requires Sound(st)
    ensures SoundStep(SkipVariable(st)) && SoundStep(GetInterestingAppn(st)) && SoundStep(SaveMarker(st, limit))
  {
    hide InBounds, FrameComplete;
  }

  lemma SoiSound(st: State)
    requires Sound(st)
    ensures SoundStep(GetSoi(st))
  {
    hide InBounds, FrameComplete;
    SetInBounds(st.f, RestartInterval, 0);
    assert SameFrame(st.f, st.f[RestartInterval := 0]);
    if st.sawSof {
      SameFrameComplete(st.f, st.f[RestartInterval := 0]);
    }
  }

  lemma ProcessSound(st: State, limits: Limits)
    requires Sound(st)
    ensures SoundStep(Process(st, limits))
  {
    hide InBounds, FrameComplete, ScanComplete, SameFrame, GetSof, GetSos, QuantTables, HuffTables, GetDri, SkipVariable, GetInterestingAppn, SaveMarker, GetSoi;
    var b := st.input;
    SkippingSound(st, if st.unread in limits then limits[st.unread] else 0);
    SoiSound(st);
    SosOk(st.f, b, st.sawSof);
    forall progressive, arith ensures SoundStep(SofParsed(st, progressive, arith)) {
      SofOk(st.f, b, progressive, arith, st.sawSof);
    }
    DriOk(st.f, b);
    TablesSound(st, GetDri(st.f, b));
    assert SameFrame(st.f, st.f) by { FrameIsSame(st.f); }
    if |b| >= 2 {
      QuantTablesOk(st.f, b, 2, TwoBytes(b, 0) - 2);
      HuffTablesOk(st.f, b, 2, TwoBytes(b, 0) - 2);
    }
    TablesSound(st, GetDqt(st.f, b));
    TablesSound(st, GetDht(st.f, b));
  }

  lemma FrameIsSame(f: Fields)
    ensures SameFrame(f, f)
  {
  }

  /**
   Whatever the input is, no parser assigns outside its tables or a value out of range; and when read_markers reports the
   start of a scan, the frame and scan headers are complete, with components of the scan that the frame has.
   */
  lemma {:induction false} ReadingIsSound(st: State, limits: Limits)
    requires Sound(st)
    ensures SoundEnd(ReadMarkers(st, limits))
    decreases 2 * |st.input| + if st.unread != 0 then 1 else 0
  {
    hide InBounds, FrameComplete, ScanComplete, Process;
    StepShrinks(st, limits);
    if st.unread != 0 {
      ProcessSound(st, limits);
    }
    match Step(st, limits) {
      case Go(s) => ReadingIsSound(s, limits);
      case Stop(_) =>
    }
  }
}
