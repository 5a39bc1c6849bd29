/**
 It does not matter to read_markers in which pieces the bytes come in.
 */
module MarkerChunks {
  import opened Bits
  import opened Wrappers
  import opened Coefficients
  import opened MarkerSegments
  import opened MarkerParsing
  import RestartMarkers

  // ----- More bytes come in

  function Feed(st: State, more: seq<byte>): State {
    if st.skip >= |more| then st.(skip := st.skip - |more|)
    else st.(skip := 0, input := st.input + more[st.skip..])
  }

  /** Only between markers, with nothing in the buffer, can there be anything left to skip. */
  predicate Wf(st: State) {
    && (st.skip > 0 ==> st.input == [] && st.unread == 0 && st.sawSoi)
    && (st.cur.Some? ==> |st.cur.value.data| <= st.cur.value.limit <= st.cur.value.originalLength)
    && (st.sawSoi || st.unread == 0 || st.unread == M_SOI)
  }

  lemma SkipFed(st: State, n: int, more: seq<byte>)
    requires st.skip == 0 && st.unread == 0 && st.sawSoi
    ensures Feed(SkipInput(st, n), more) == SkipInput(Feed(st, more), n)
    ensures Wf(st) ==> Wf(SkipInput(st, n))
  {
    assert more[0..] == more;
    if 0 < n <= |st.input| {
      assert (st.input + more)[n..] == st.input[n..] + more;
    } else if n > |st.input| {
      var k := n - |st.input|;
      if k < |more| {
        assert (st.input + more)[n..] == [] + more[k..];
      } else {
        assert n == |st.input| + |more| ==> (st.input + more)[n..] == [];
      }
    }
  }

  /** A parser, called with the fields it has assigned to and with more bytes, arrives where it would have arrived. */
  lemma RetrySegment(f: Fields, own: Seg, ownLater: Seg, first: Seg, later: Seg, again: Seg)
    requires first == Over(f, own) && later == Over(f, ownLater) && Later(own, ownLater)
    requires first.Need? ==> again == Over(first.f, ownLater)
    ensures if first.Need? then again == later else later == first
  {
    if own.Need? && !ownLater.Fail? {
      assert f + own.f + ownLater.f == f + ownLater.f;
    }
  }

  lemma DqtRetry(f: Fields, b: seq<byte>, c: seq<byte>)
    requires b <= c
    ensures var s, t := GetDqt(f, b), GetDqt(f, c); if s.Need? then GetDqt(s.f, c) == t else t == s
  {
    hide QuantTables;
    var e: Fields := map[];
    if |b| >= 2 {
      var length := TwoBytes(b, 0) - 2;
      QuantTablesOver(f, e, b, 2, length);
      QuantTablesOver(f, e, c, 2, length);
      QuantTablesMore(e, b, c, 2, length);
      assert f + e == f;
      var s := GetDqt(f, b);
      if s.Need? {
        QuantTablesOver(s.f, e, c, 2, length);
        assert s.f + e == s.f;
      }
      RetrySegment(f, GetDqt(e, b), GetDqt(e, c), s, GetDqt(f, c), if s.Need? then GetDqt(s.f, c) else s);
    }
  }

  lemma DhtRetry(f: Fields, b: seq<byte>, c: seq<byte>)
    requires b <= c
    ensures var s, t := GetDht(f, b), GetDht(f, c); if s.Need? then GetDht(s.f, c) == t else t == s
  {
    hide HuffTables;
    var e: Fields := map[];
    if |b| >= 2 {
      var length := TwoBytes(b, 0) - 2;
      HuffTablesOver(f, e, b, 2, length);
      HuffTablesOver(f, e, c, 2, length);
      HuffTablesMore(e, b, c, 2, length);
      assert f + e == f;
      var s := GetDht(f, b);
      if s.Need? {
        HuffTablesOver(s.f, e, c, 2, length);
        assert s.f + e == s.f;
      }
      RetrySegment(f, GetDht(e, b), GetDht(e, c), s, GetDht(f, c), if s.Need? then GetDht(s.f, c) else s);
    }
  }

  lemma SofRetry(f: Fields, b: seq<byte>, c: seq<byte>, progressive: bool, arith: bool, sawSof: bool)
    requires b <= c
    ensures var s, t := GetSof(f, b, progressive, arith, sawSof), GetSof(f, c, progressive, arith, sawSof);
      if s.Need? then GetSof(s.f, c, progressive, arith, sawSof) == t else t == s
  {
    var e: Fields := map[];
    GetSofOver(f, b, progressive, arith, sawSof);
    GetSofOver(f, c, progressive, arith, sawSof);
    SofMore(e, b, c, progressive, arith, sawSof);
    hide GetSof;
    var s := GetSof(f, b, progressive, arith, sawSof);
    if s.Need? {
      GetSofOver(s.f, c, progressive, arith, sawSof);
    }
    RetrySegment(f, GetSof(e, b, progressive, arith, sawSof), GetSof(e, c, progressive, arith, sawSof), s,
                 GetSof(f, c, progressive, arith, sawSof),
                 if s.Need? then GetSof(s.f, c, progressive, arith, sawSof) else s);
  }

  lemma SofMore(f: Fields, b: seq<byte>, c: seq<byte>, progressive: bool, arith: bool, sawSof: bool)
    requires b <= c
    ensures Later(GetSof(f, b, progressive, arith, sawSof), GetSof(f, c, progressive, arith, sawSof))
  {
    hide SofComps;
    if |c| >= 8 {
      var f3 := f[Progressive := ToInt(progressive)][Arith := ToInt(arith)][Precision := c[2] as int][Height := TwoBytes(c, 3)];
      SofCompsMore(f3[Width := TwoBytes(c, 5)][NumComponents := c[7] as int], b, c, 8, 0, c[7] as nat);
    }
  }

  /** A suspended SOS has not touched what names the components. */
  lemma SosRetry(f: Fields, b: seq<byte>, c: seq<byte>, sawSof: bool)
    requires b <= c
    ensures var s, t := GetSos(f, b, sawSof, Ids(f)), GetSos(f, c, sawSof, Ids(f));
      if s.Need? then GetSos(s.f, c, sawSof, Ids(s.f)) == t else t == s
  {
    hide SosComps;
    var e: Fields, ids := map[], Ids(f);
    if |b| >= 3 && sawSof {
      var n := b[2] as nat;
      if TwoBytes(b, 0) == 2 * n + 6 && 1 <= n <= MAX_COMPS_IN_SCAN {
        var e1 := e[CompsInScan := n];
        OverSet(f, e, CompsInScan, n);
        assert f + e == f;
        SosCompsOver(f, e1, b, 3, 0, n, ids);
        SosCompsOver(f, e1, c, 3, 0, n, ids);
        SosCompsMore(e1, b, c, 3, 0, n, ids);
        var s := GetSos(f, b, sawSof, ids);
        if s.Need? {
          SosKeepsIds(f[CompsInScan := n], b, 3, 0, n, ids);
          SameIds(f, s.f);
          OverSet(s.f, e, CompsInScan, n);
          assert s.f + e == s.f;
          SosCompsOver(s.f, e1, c, 3, 0, n, ids);
        }
        RetrySegment(f, GetSos(e, b, sawSof, ids), GetSos(e, c, sawSof, ids), s, GetSos(f, c, sawSof, ids),
                     if s.Need? then GetSos(s.f, c, sawSof, ids) else s);
      }
    }
  }

  ghost predicate NamesKept(f: Fields, g: Fields) {
    && (NumComponents in g <==> NumComponents in f) && (NumComponents in f ==> g[NumComponents] == f[NumComponents])
    && forall i: nat :: (CompId(i) in g <==> CompId(i) in f) && (CompId(i) in f ==> g[CompId(i)] == f[CompId(i)])
  }

  lemma {:induction false} SosKeepsIds(f: Fields, b: seq<byte>, pos: nat, i: nat, n: nat, ids: seq<int>)
    requires i <= n
    ensures var s := SosComps(f, b, pos, i, n, ids); !s.Fail? ==> NamesKept(f, s.f)
    decreases n - i
  {
    hide FindId;
    if i < n && pos + 2 <= |b| {
      var ci, v := FindId(ids, b[pos] as int, 0), b[pos + 1] as int;
      if ci < |ids| {
        SosKeepsIds(f[CurComp(i) := ci][DcTblNo(ci) := v / 16][AcTblNo(ci) := v % 16], b, pos + 2, i + 1, n, ids);
      }
    }
  }

  lemma SameIds(f: Fields, g: Fields)
    requires NamesKept(f, g)
    ensures Ids(f) == Ids(g)
  {
  }

  // ----- Any chunking

  /** a is the step from a state, b the step from it with more bytes, again the step that follows when a is suspended. */
  predicate Carries(a: StepResult, b: StepResult, again: StepResult, more: seq<byte>) {
    match a
    case Go(s) => b == Go(Feed(s, more))
    case Stop(Suspended(_)) => again == b
    case Stop(ReachedSos(s)) => b == Stop(ReachedSos(Feed(s, more)))
    case Stop(ReachedEoi(s)) => b == Stop(ReachedEoi(Feed(s, more)))
    case Stop(Failed(_)) => b == a
  }

  /** The state at which a step leaves off */
  function After(a: StepResult, st: State): State {
    match a
    case Go(s) => s
    case Stop(Suspended(s)) => s
    case Stop(ReachedSos(s)) => s
    case Stop(ReachedEoi(s)) => s
    case Stop(Failed(_)) => st
  }

  lemma FeedUnskipped(st: State, more: seq<byte>)
    requires st.skip == 0
    ensures Feed(st, more) == st.(input := st.input + more)
  {
    assert more[0..] == more;
    assert st.input + [] == st.input;
  }

  lemma FindFed(st: State, more: seq<byte>)
    requires Wf(st) && st.unread == 0
    ensures var a := FindMarker(st);
      Wf(After(a, st)) && After(a, st).unread == (if a.Go? then After(a, st).unread else 0)
      && Carries(a, FindMarker(Feed(st, more)), FindMarker(Feed(After(a, st), more)), more)
  {
    if st.skip == 0 {
      FeedUnskipped(st, more);
      if st.sawSoi {
        RestartMarkers.NextMarkerExtend(st.input, st.discarded, more);
      } else if |st.input| >= 2 {
        assert (st.input + more)[2..] == st.input[2..] + more;
      }
      var s := After(FindMarker(st), st);
      FeedUnskipped(s, more);
    }
  }

  /** A parser that is called again with more bytes takes the state to where it would have taken it. */
  lemma SegmentFed(st: State, more: seq<byte>, own: Seg, fed: Seg, again: Seg)
    requires Wf(st) && st.skip == 0 && (own.Done? ==> own.pos <= |st.input|)
    requires if own.Need? then again == fed else fed == own
    ensures var a := Parsed(st, own);
      && Wf(After(a, st)) && (own.Need? ==> After(a, st) == st.(f := own.f))
      && Carries(a, Parsed(Feed(st, more), fed), Parsed(Feed(After(a, st), more), again), more)
  {
    FeedUnskipped(st, more);
    if own.Done? {
      FeedUnskipped(Parsed(st, own).st, more);
      assert (st.input + more)[own.pos..] == st.input[own.pos..] + more;
    } else if own.Need? {
      FeedUnskipped(st.(f := own.f), more);
    }
  }

  predicate HasTables(m: byte) {
    m == M_DQT || m == M_DHT || m == M_DRI
  }

  /** What the statement of StepFed says of a step, in the middle of a marker. */
  ghost predicate ProcessFed(st: State, more: seq<byte>, limits: Limits) {
    var a := Process(st, limits);
    && Wf(After(a, st)) && (a.Stop? && a.o.Suspended? ==> After(a, st).unread == st.unread)
    && Carries(a, Process(Feed(st, more), limits), Process(Feed(After(a, st), more), limits), more)
  }

  lemma TablesFed(st: State, more: seq<byte>, limits: Limits)
    requires Wf(st) && st.skip == 0 && HasTables(st.unread)
    ensures ProcessFed(st, more, limits)
  {
    hide GetDqt, GetDht, GetDri, Parsed, Wf;
    var b, c := st.input, st.input + more;
    FeedUnskipped(st, more);
    if st.unread == M_DQT {
      var own := GetDqt(st.f, b);
      DqtRetry(st.f, b, c);
      SegmentFed(st, more, own, GetDqt(st.f, c), if own.Need? then GetDqt(own.f, c) else own);
      NeedFeeds(st, own, more);
    } else if st.unread == M_DHT {
      var own := GetDht(st.f, b);
      DhtRetry(st.f, b, c);
      SegmentFed(st, more, own, GetDht(st.f, c), if own.Need? then GetDht(own.f, c) else own);
      NeedFeeds(st, own, more);
    } else {
      var own := GetDri(st.f, b);
      DriRetry(st.f, b, c);
      SegmentFed(st, more, own, GetDri(st.f, c), if own.Need? then GetDri(own.f, c) else own);
      NeedFeeds(st, own, more);
    }
  }

  lemma DriRetry(f: Fields, b: seq<byte>, c: seq<byte>)
    requires b <= c
    ensures var s, t := GetDri(f, b), GetDri(f, c); if s.Need? then GetDri(s.f, c) == t else t == s
  {
  }

  lemma NeedFeeds(st: State, own: Seg, more: seq<byte>)
    requires Wf(st) && st.skip == 0
    ensures own.Need? ==> Parsed(st, own) == Stop(Suspended(st.(f := own.f)))
    ensures own.Need? ==> Feed(st.(f := own.f), more) == st.(f := own.f, input := st.input + more)
    ensures own.Fail? ==> Parsed(st, own) == Stop(Failed(own.error))
    ensures own.Done? ==> Parsed(st, own).Go?
  {
    if own.Need? {
      FeedUnskipped(st.(f := own.f), more);
    }
  }

  lemma SosFed(st: State, more: seq<byte>, limits: Limits)
    requires Wf(st) && st.skip == 0 && st.unread == M_SOS
    ensures ProcessFed(st, more, limits)
  {
    hide GetSos, Ids, Parsed, Wf;
    var b, c := st.input, st.input + more;
    FeedUnskipped(st, more);
    var own := GetSos(st.f, b, st.sawSof, Ids(st.f));
    SosRetry(st.f, b, c, st.sawSof);
    SegmentFed(st, more, own, GetSos(st.f, c, st.sawSof, Ids(st.f)),
               if own.Need? then GetSos(own.f, c, st.sawSof, Ids(own.f)) else own);
    NeedFeeds(st, own, more);
    AdjustFed(st, own, more);
  }

  /** Counting a scan, or noting that there was an SOF, does not change what is fed. */
  lemma AdjustFed(st: State, own: Seg, more: seq<byte>)
    requires Wf(st) && st.skip == 0
    ensures var a := Parsed(st, own);
      a.Go? ==>
        && Wf(a.st.(scans := a.st.scans + 1)) && Wf(a.st.(sawSof := true))
        && Feed(a.st.(scans := a.st.scans + 1), more) == Feed(a.st, more).(scans := a.st.scans + 1)
        && Feed(a.st.(sawSof := true), more) == Feed(a.st, more).(sawSof := true) && Feed(a.st, more).scans == a.st.scans
  {
  }

  lemma SofFed(st: State, more: seq<byte>, limits: Limits)
    requires Wf(st) && st.skip == 0 && st.unread in {M_SOF0, M_SOF1, M_SOF2, M_SOF9, M_SOF10}
    ensures ProcessFed(st, more, limits)
  {
    hide GetSof, Parsed, Wf;
    var b, c, m := st.input, st.input + more, st.unread;
    FeedUnskipped(st, more);
    var progressive, arith := m == M_SOF2 || m == M_SOF10, m == M_SOF9 || m == M_SOF10;
    var own := GetSof(st.f, b, progressive, arith, st.sawSof);
    SofRetry(st.f, b, c, progressive, arith, st.sawSof);
    SegmentFed(st, more, own, GetSof(st.f, c, progressive, arith, st.sawSof),
               if own.Need? then GetSof(own.f, c, progressive, arith, st.sawSof) else own);
    NeedFeeds(st, own, more);
    AdjustFed(st, own, more);
  }

  lemma SaveFed(st: State, cur: Partial, more: seq<byte>)
    requires Wf(st) && st.skip == 0 && st.sawSoi && st.unread != 0 && |cur.data| <= cur.limit <= cur.originalLength
    ensures var a := SaveData(st, cur);
      && Wf(After(a, st)) && (a.Stop? ==> After(a, st).cur.Some? && After(a, st).unread == st.unread && After(a, st).skip == 0)
      && Carries(a, SaveData(Feed(st, more), cur),
                 if a.Stop? then SaveData(Feed(After(a, st), more), After(a, st).cur.value) else a, more)
  {
    hide SkipInput, Feed;
    FeedUnskipped(st, more);
    var need := cur.limit - |cur.data|;
    if |st.input| < need {
      var s := st.(input := [], cur := Some(cur.(data := cur.data + st.input)));
      assert SaveData(st, cur) == Stop(Suspended(s));
      FeedUnskipped(s, more);
      assert [] + more == more;
      SaveResumed(st, cur, more);
    } else {
      var all := st.input + more;
      assert all[..need] == st.input[..need] && all[need..] == st.input[need..] + more;
      var s := st.(input := st.input[need..], cur := None, unread := 0,
                   saved := st.saved + [Saved(st.unread, cur.originalLength, cur.data + st.input[..need])]);
      FeedUnskipped(s, more);
      SkipFed(s, cur.originalLength - cur.limit, more);
    }
  }

  lemma SaveResumed(st: State, cur: Partial, more: seq<byte>)
    requires |cur.data| + |st.input| < cur.limit
    ensures var half := cur.(data := cur.data + st.input);
      SaveData(st.(input := more, cur := Some(half)), half) == SaveData(st.(input := st.input + more), cur)
  {
    hide SkipInput;
    var need, all := cur.limit - |cur.data|, st.input + more;
    if |all| >= need {
      assert cur.data + st.input + more[..need - |st.input|] == cur.data + all[..need];
      assert more[need - |st.input|..] == all[need..];
    } else {
      assert cur.data + st.input + more == cur.data + all;
    }
  }

  lemma SkippedFed(st: State, n: nat, length: int, more: seq<byte>)
    requires Wf(st) && st.skip == 0 && st.sawSoi && n <= |st.input|
    ensures var s := SkipInput(st.(input := st.input[n..], unread := 0), length);
      Wf(s) && Feed(s, more) == SkipInput(Feed(st, more).(input := Feed(st, more).input[n..], unread := 0), length)
  {
    hide SkipInput;
    FeedUnskipped(st, more);
    var s := st.(input := st.input[n..], unread := 0);
    assert (st.input + more)[n..] == st.input[n..] + more;
    FeedUnskipped(s, more);
    SkipFed(s, length, more);
  }

  lemma AppsFed(st: State, more: seq<byte>, limits: Limits)
    requires Wf(st) && st.skip == 0 && st.sawSoi
    requires M_APP0 <= st.unread <= M_APP15 || st.unread in {M_COM, M_DNL, M_DAC}
    ensures ProcessFed(st, more, limits)
  {
    hide SkipInput, SaveMarker, SkipVariable, GetInterestingAppn, Wf, Feed;
    var m := st.unread;
    FeedUnskipped(st, more);
    if (M_APP0 <= m <= M_APP15 || m == M_COM) && m in limits {
      SaveMarkerFed(st, more, limits[m]);
      UnreadKept(After(SaveMarker(st, limits[m]), st), more);
    } else {
      SkippingFed(st, more);
    }
  }

  lemma SkippingFed(st: State, more: seq<byte>)
    requires Wf(st) && st.skip == 0 && st.sawSoi
    ensures var a := SkipVariable(st);
      && Wf(After(a, st)) && (a.Stop? ==> a == Stop(Suspended(st)))
      && Carries(a, SkipVariable(Feed(st, more)), SkipVariable(Feed(After(a, st), more)), more)
    ensures var a := GetInterestingAppn(st);
      && Wf(After(a, st)) && (a.Stop? ==> a == Stop(Suspended(st)))
      && Carries(a, GetInterestingAppn(Feed(st, more)), GetInterestingAppn(Feed(After(a, st), more)), more)
  {
    hide SkipInput, Wf;
    FeedUnskipped(st, more);
    if |st.input| >= 2 {
      var length := TwoBytes(st.input, 0) - 2;
      assert TwoBytes(st.input + more, 0) == TwoBytes(st.input, 0);
      var toRead := if length >= APPN_DATA_LEN then APPN_DATA_LEN else if length > 0 then length else 0;
      SkippedFed(st, 2, length, more);
      if |st.input| >= 2 + toRead {
        SkippedFed(st, 2 + toRead, length - toRead, more);
      }
    }
  }

  lemma SaveMarkerFed(st: State, more: seq<byte>, limit: nat)
    requires Wf(st) && st.skip == 0 && st.sawSoi && st.unread != 0
    ensures var a := SaveMarker(st, limit);
      && Wf(After(a, st)) && (a.Stop? && a.o.Suspended? ==> After(a, st).unread == st.unread)
      && Carries(a, SaveMarker(Feed(st, more), limit), SaveMarker(Feed(After(a, st), more), limit), more)
  {
    hide SaveData;
    FeedUnskipped(st, more);
    if st.cur.Some? {
      SaveFed(st, st.cur.value, more);
      KeepsCur(st, st.cur.value, more);
    } else if |st.input| >= 2 {
      var length := TwoBytes(st.input, 0) - 2;
      var s := st.(input := st.input[2..]);
      assert (st.input + more)[2..] == st.input[2..] + more;
      FeedUnskipped(s, more);
      if length >= 0 {
        var cur := Partial(length, Least(length, limit), []);
        SaveFed(s, cur, more);
        KeepsCur(s, cur, more);
      } else {
        FeedUnskipped(s.(unread := 0), more);
      }
    }
  }

  lemma KeepsCur(st: State, cur: Partial, more: seq<byte>)
    requires st.skip == 0 && |cur.data| <= cur.limit <= cur.originalLength
    ensures var a := SaveData(st, cur);
      (a.Stop? ==> a.o.Suspended? && a.o.st.cur.Some? && Feed(a.o.st, more).cur == a.o.st.cur)
  {
  }

  lemma StepFed(st: State, more: seq<byte>, limits: Limits)
    requires Wf(st)
    ensures var a := Step(st, limits);
      && Wf(After(a, st)) && Carries(a, Step(Feed(st, more), limits), Step(Feed(After(a, st), more), limits), more)
  {
    hide Wf, FindMarker, Process, GetSof, GetSos;
    var m := st.unread;
    UnreadKept(st, more);
    if m == 0 {
      FindFed(st, more);
      if FindMarker(st).Stop? {
        UnreadKept(After(FindMarker(st), st), more);
      }
    } else {
      ProcessingFed(st, more, limits);
      UnreadKept(After(Process(st, limits), st), more);
    }
  }

  lemma UnreadKept(st: State, more: seq<byte>)
    ensures Feed(st, more).unread == st.unread
  {
  }

  lemma ProcessingFed(st: State, more: seq<byte>, limits: Limits)
    requires Wf(st) && st.unread != 0
    ensures ProcessFed(st, more, limits)
  {
    hide GetSof, GetSos, GetDht, GetDqt, GetDri, Parsed, SofParsed, SosParsed, SaveMarker, GetInterestingAppn, SkipVariable;
    var m := st.unread;
    FeedUnskipped(st, more);
    if HasTables(m) {
      TablesFed(st, more, limits);
    } else if m == M_SOS {
      SosFed(st, more, limits);
    } else if m in {M_SOF0, M_SOF1, M_SOF2, M_SOF9, M_SOF10} {
      SofFed(st, more, limits);
    } else if M_APP0 <= m <= M_APP15 || m in {M_COM, M_DNL, M_DAC} {
      AppsFed(st, more, limits);
    } else {
      var a := Process(st, limits);
      FeedUnskipped(After(a, st), more);
    }
  }

  lemma {:induction false} ReadFed(st: State, more: seq<byte>, limits: Limits)
    requires Wf(st)
    ensures var o, fed := ReadMarkers(st, limits), ReadMarkers(Feed(st, more), limits);
      match o
      case Suspended(s) => Wf(s) && ReadMarkers(Feed(s, more), limits) == fed
      case ReachedSos(s) => Wf(s) && fed == ReachedSos(Feed(s, more))
      case ReachedEoi(s) => Wf(s) && fed == ReachedEoi(Feed(s, more))
      case Failed(_) => fed == o
    decreases 2 * |st.input| + if st.unread != 0 then 1 else 0
  {
    hide Step, Wf, Feed;
    StepFed(st, more, limits);
    StepShrinks(st, limits);
    match Step(st, limits) {
      case Go(s) => ReadFed(s, more, limits);
      case Stop(o) =>
    }
  }

  // ----- Whole runs

  function FeedAll(o: Outcome, more: seq<byte>): Outcome {
    match o
    case Suspended(s) => Suspended(Feed(s, more))
    case ReachedSos(s) => ReachedSos(Feed(s, more))
    case ReachedEoi(s) => ReachedEoi(Feed(s, more))
    case Failed(e) => o
  }

  /** Whenever read_markers is suspended, the next piece comes in and it is called again. */
  function Drive(st: State, chunks: seq<seq<byte>>, limits: Limits): Outcome
    decreases |chunks|
  {
    match ReadMarkers(st, limits)
    case Suspended(s) => if chunks == [] then Suspended(s) else Drive(Feed(s, chunks[0]), chunks[1..], limits)
    case o => FeedAll(o, Concat(chunks))
  }

  lemma FeedTwice(st: State, more: seq<byte>, rest: seq<byte>)
    requires Wf(st)
    ensures Feed(Feed(st, more), rest) == Feed(st, more + rest) && Wf(Feed(st, more))
  {
    if st.skip >= |more| {
      if st.skip < |more| + |rest| {
        assert (more + rest)[st.skip..] == rest[st.skip - |more|..];
      }
    } else {
      assert (more + rest)[st.skip..] == more[st.skip..] + rest;
      assert st.input + (more[st.skip..] + rest) == st.input + more[st.skip..] + rest;
      assert rest[0..] == rest;
      assert st.input + more[st.skip..] + [] == st.input + more[st.skip..];
    }
  }

  /** Any division of the input into pieces leads to the outcome of reading it all at once. */
  lemma {:induction false} ChunkingIsTransparent(st: State, chunks: seq<seq<byte>>, limits: Limits)
    requires Wf(st)
    ensures Drive(st, chunks, limits) == ReadMarkers(Feed(st, Concat(chunks)), limits)
    decreases |chunks|
  {
    hide Wf, Feed, ReadMarkers;
    if chunks == [] {
      FeedNothing(st);
      var o := ReadMarkers(st, limits);
      ReadFed(st, [], limits);
      if o.ReachedSos? || o.ReachedEoi? {
        FeedNothing(o.st);
      }
    } else {
      ReadFed(st, Concat(chunks), limits);
      match ReadMarkers(st, limits) {
        case Suspended(s) =>
          FeedTwice(s, chunks[0], Concat(chunks[1..]));
          ChunkingIsTransparent(Feed(s, chunks[0]), chunks[1..], limits);
        case _ =>
      }
    }
  }

  lemma FeedNothing(st: State)
    requires Wf(st)
    ensures Feed(st, []) == st
  {
  }
}
