/**
 Which scan scripts validate_script (jcmaster.c) accepts, without reference to the order in which it looks at them: by the
 parameters of each scan, and by what the scans send of each coefficient.
 */
module ScriptMeaning {
  import opened ScanScript

  /** The parameters of one scan of a progressive script. */
  predicate ParametersOk(ncomps: nat, s: ScanInfo) {
    && 1 <= |s.comps| <= 4 && (forall i :: 0 <= i < |s.comps| ==> 0 <= s.comps[i] < ncomps)
    && (forall i, j :: 0 <= i < j < |s.comps| ==> s.comps[i] < s.comps[j])
    && 0 <= s.ss <= s.se <= 63 && 0 <= s.ah <= 10 && 0 <= s.al <= 10
    && (s.ss == 0 ==> s.se == 0) && (s.ss > 0 ==> |s.comps| == 1)
  }

  predicate AllParametersOk(ncomps: nat, scans: seq<ScanInfo>) {
    forall j :: 0 <= j < |scans| ==> ParametersOk(ncomps, scans[j])
  }

  /** A scan of the DC coefficient of the component stands in front of scan j. */
  predicate DcBefore(scans: seq<ScanInfo>, ci: int, j: nat)
    requires j <= |scans|
  {
    exists i :: 0 <= i < j && scans[i].ss == 0 && ci in scans[i].comps
  }

  /** AC scans come behind a DC scan of their component. */
  predicate DcFirst(last: BitPos, scans: seq<ScanInfo>) {
    forall j :: 0 <= j < |scans| && scans[j].ss != 0 ==>
      forall i :: 0 <= i < |scans[j].comps| ==>
        (0 <= scans[j].comps[i] < |last| && last[scans[j].comps[i]][0] >= 0) || DcBefore(scans, scans[j].comps[i], j)
  }

  predicate Chains(last: BitPos, scans: seq<ScanInfo>) {
    forall ci, k :: 0 <= ci < |last| && 0 <= k < 64 ==> IsChain(last[ci][k], Sent(scans, ci, k))
  }

  predicate DcSent(last: BitPos, scans: seq<ScanInfo>) {
    forall ci :: 0 <= ci < |last| ==> last[ci][0] >= 0 || DcBefore(scans, ci, |scans|)
  }

  predicate Orderly(last: BitPos, scans: seq<ScanInfo>) {
    AllParametersOk(|last|, scans) && Chains(last, scans) && DcFirst(last, scans) && DcSent(last, scans)
  }

  // ----- One scan

  lemma AscendingPairs(n: nat, s: ScanInfo)
    ensures ComponentsOk(n, s) && ProgressionOk(s) <==> ParametersOk(n, s)
  {
    if ComponentsOk(n, s) {
      forall i, j | 0 <= i < j < |s.comps| ensures s.comps[i] < s.comps[j] { Ascending(s, n, i, j); }
    }
  }

  /** A scan may follow if it sends the next bit of each of its coefficients, and an AC scan if DC has been sent. */
  predicate Follows(last: BitPos, s: ScanInfo) {
    && (forall ci, k :: 0 <= ci < |last| && 0 <= k < 64 && Sends(s, ci, k) ==> NextBit(last[ci][k], s))
    && (s.ss != 0 ==> forall i :: 0 <= i < |s.comps| && 0 <= s.comps[i] < |last| ==> last[s.comps[i]][0] >= 0)
  }

  lemma ScanOkIff(last: BitPos, s: ScanInfo)
    ensures ProgressiveScanOk(last, s) <==> ParametersOk(|last|, s) && Follows(last, s)
  {
    AscendingPairs(|last|, s);
    if ParametersOk(|last|, s) {
      if ProgressiveScanOk(last, s) {
        forall ci, k | 0 <= ci < |last| && 0 <= k < 64 && Sends(s, ci, k)
          ensures NextBit(last[ci][k], s)
        {
          var i :| 0 <= i < |s.comps| && s.comps[i] == ci;
          assert BandFollows(last[s.comps[i]], s);
        }
        forall i | 0 <= i < |s.comps| ensures BandFollows(last[s.comps[i]], s) {}
      }
      if Follows(last, s) {
        forall i | 0 <= i < |s.comps|
          ensures BandFollows(last[s.comps[i]], s)
        {
          assert forall k :: s.ss <= k <= s.se ==> Sends(s, s.comps[i], k);
        }
      }
    }
  }

  // ----- The scans behind the first one

  lemma SentFirst(scans: seq<ScanInfo>, ci: nat, k: nat)
    requires scans != []
    ensures var s, more := scans[0], Sent(scans[1..], ci, k);
      Sent(scans, ci, k) == if Sends(s, ci, k) then [(s.ah, s.al)] + more else more
  {
    assert [] + Sent(scans[1..], ci, k) == Sent(scans[1..], ci, k);
  }

  /** What AfterScan records is the last bit sent. */
  lemma LevelAfter(last: BitPos, s: ScanInfo, ci: nat, k: nat)
    requires ci < |last| && k < 64
    ensures AfterScan(last, s)[ci][k] == if Sends(s, ci, k) then s.al else last[ci][k]
  {
  }

  lemma ChainsFirst(last: BitPos, scans: seq<ScanInfo>)
    requires scans != [] && ParametersOk(|last|, scans[0])
    ensures var s := scans[0];
      Chains(last, scans) <==>
      Chains(AfterScan(last, s), scans[1..])
      && forall ci, k :: 0 <= ci < |last| && 0 <= k < 64 && Sends(s, ci, k) ==> NextBit(last[ci][k], s)
  {
    hide AfterScan, Sent, Sends;
    var s, more := scans[0], scans[1..];
    var next := AfterScan(last, s);
    forall ci, k | 0 <= ci < |last| && 0 <= k < 64
      ensures IsChain(last[ci][k], Sent(scans, ci, k))
         <==> IsChain(next[ci][k], Sent(more, ci, k)) && (Sends(s, ci, k) ==> NextBit(last[ci][k], s))
    {
      SentFirst(scans, ci, k);
      LevelAfter(last, s, ci, k);
      if Sends(s, ci, k) {
        var chain := [(s.ah, s.al)] + Sent(more, ci, k);
        assert chain[1..] == Sent(more, ci, k);
      }
    }
  }

  lemma DcBeforeFirst(scans: seq<ScanInfo>, ci: int, j: nat)
    requires 0 < j <= |scans|
    ensures DcBefore(scans, ci, j) <==> (scans[0].ss == 0 && ci in scans[0].comps) || DcBefore(scans[1..], ci, j - 1)
  {
    if DcBefore(scans[1..], ci, j - 1) {
      var i :| 0 <= i < j - 1 && scans[1..][i].ss == 0 && ci in scans[1..][i].comps;
      assert scans[i + 1] == scans[1..][i];
    }
    if DcBefore(scans, ci, j) && !(scans[0].ss == 0 && ci in scans[0].comps) {
      var i :| 0 <= i < j && scans[i].ss == 0 && ci in scans[i].comps;
      assert scans[1..][i - 1] == scans[i];
    }
  }

  /** After a scan, the DC coefficient of a component has been sent if it had been, or if this was a DC scan of it. */
  lemma DcAfter(last: BitPos, s: ScanInfo, ci: nat)
    requires ParametersOk(|last|, s) && ci < |last|
    ensures AfterScan(last, s)[ci][0] >= 0 <==> last[ci][0] >= 0 || (s.ss == 0 && ci in s.comps)
  {
    LevelAfter(last, s, ci, 0);
  }

  lemma DcFirstFirst(last: BitPos, scans: seq<ScanInfo>)
    requires scans != [] && AllParametersOk(|last|, scans)
    ensures var s := scans[0];
      DcFirst(last, scans) <==>
      DcFirst(AfterScan(last, s), scans[1..])
      && (s.ss != 0 ==> forall i :: 0 <= i < |s.comps| && 0 <= s.comps[i] < |last| ==> last[s.comps[i]][0] >= 0)
  {
    hide AfterScan, DcBefore;
    var s, more := scans[0], scans[1..];
    var next := AfterScan(last, s);
    forall j, i | 0 < j < |scans| && scans[j].ss != 0 && 0 <= i < |scans[j].comps|
      ensures var c := scans[j].comps[i];
        0 <= c < |last| && ((last[c][0] >= 0 || DcBefore(scans, c, j)) <==> next[c][0] >= 0 || DcBefore(more, c, j - 1))
    {
      var c := scans[j].comps[i];
      assert ParametersOk(|last|, scans[j]);
      DcAfter(last, s, c);
      DcBeforeFirst(scans, c, j);
    }
    assert forall j :: 0 < j < |scans| ==> scans[j] == more[j - 1];
    assert forall j :: 0 <= j < |more| ==> more[j] == scans[j + 1];
    forall i | 0 <= i < |s.comps| ensures !DcBefore(scans, s.comps[i], 0) { NothingBefore(scans, s.comps[i]); }
    if DcFirst(last, scans) {
      forall j, i | 0 <= j < |more| && more[j].ss != 0 && 0 <= i < |more[j].comps|
        ensures (0 <= more[j].comps[i] < |next| && next[more[j].comps[i]][0] >= 0) || DcBefore(more, more[j].comps[i], j)
      {
        assert scans[j + 1].comps[i] == more[j].comps[i];
      }
    }
    if DcFirst(next, more) && (s.ss != 0 ==> forall i :: 0 <= i < |s.comps| && 0 <= s.comps[i] < |last| ==> last[s.comps[i]][0] >= 0) {
      assert ParametersOk(|last|, s);
      forall j, i | 0 <= j < |scans| && scans[j].ss != 0 && 0 <= i < |scans[j].comps|
        ensures (0 <= scans[j].comps[i] < |last| && last[scans[j].comps[i]][0] >= 0) || DcBefore(scans, scans[j].comps[i], j)
      {
        if j > 0 {
          assert more[j - 1].comps[i] == scans[j].comps[i];
        }
      }
    }
  }

  lemma NothingBefore(scans: seq<ScanInfo>, ci: int)
    ensures !DcBefore(scans, ci, 0)
  {
  }

  lemma DcSentFirst(last: BitPos, scans: seq<ScanInfo>)
    requires scans != [] && ParametersOk(|last|, scans[0])
    ensures DcSent(last, scans) <==> DcSent(AfterScan(last, scans[0]), scans[1..])
  {
    hide AfterScan, DcBefore;
    var next := AfterScan(last, scans[0]);
    forall ci: nat | ci < |last|
      ensures last[ci][0] >= 0 || DcBefore(scans, ci, |scans|) <==> next[ci][0] >= 0 || DcBefore(scans[1..], ci, |scans| - 1)
    {
      DcAfter(last, scans[0], ci);
      DcBeforeFirst(scans, ci, |scans|);
    }
  }

  lemma {:induction false} OkIffOrderly(last: BitPos, scans: seq<ScanInfo>)
    ensures ProgressiveOk(last, scans) <==> Orderly(last, scans)
    decreases |scans|
  {
    hide ProgressiveScanOk, AfterScan, ParametersOk, Chains, DcFirst, DcSent, NextBit, Sends;
    if scans == [] {
      NoScans(last);
    } else {
      var s, more := scans[0], scans[1..];
      ScanOkIff(last, s);
      OkIffOrderly(AfterScan(last, s), more);
      assert AllParametersOk(|last|, scans) <==> ParametersOk(|last|, s) && AllParametersOk(|last|, more) by {
        assert forall j :: 0 <= j < |more| ==> more[j] == scans[j + 1];
        assert forall j :: 0 < j < |scans| ==> scans[j] == more[j - 1];
      }
      if AllParametersOk(|last|, scans) {
        ChainsFirst(last, scans);
        DcFirstFirst(last, scans);
        DcSentFirst(last, scans);
      }
    }
  }

  lemma NoScans(last: BitPos)
    ensures AllSent(last) <==> Orderly(last, [])
  {
    forall ci, k | 0 <= ci < |last| && 0 <= k < 64 ensures IsChain(last[ci][k], Sent([], ci, k)) {}
    forall ci | 0 <= ci < |last| ensures !DcBefore([], ci, 0) {}
  }

  /** Every coefficient is sent bit by bit from its first scan on, as (0, a), (a, a - 1) and so on. */
  predicate SentInChains(ncomps: nat, scans: seq<ScanInfo>) {
    forall ci, k :: 0 <= ci < ncomps && 0 <= k < 64 ==> IsChain(-1, Sent(scans, ci, k))
  }

  predicate AcBehindDc(scans: seq<ScanInfo>) {
    forall j, i :: 0 <= j < |scans| && scans[j].ss != 0 && 0 <= i < |scans[j].comps| ==>
      DcBefore(scans, scans[j].comps[i], j)
  }

  predicate EveryDcSent(ncomps: nat, scans: seq<ScanInfo>) {
    forall ci :: 0 <= ci < ncomps ==> DcBefore(scans, ci, |scans|)
  }

  /**
   validate_script accepts a progressive script exactly if its scans have legal parameters, every coefficient is sent as a
   chain, AC scans come behind a DC scan of their component, and every component has one.
   */
  lemma AcceptedIffOrderly(ncomps: nat, scans: seq<ScanInfo>)
    requires scans != [] && IsProgressive(scans)
    ensures ScriptOk(ncomps, scans) <==>
      AllParametersOk(ncomps, scans) && SentInChains(ncomps, scans) && AcBehindDc(scans) && EveryDcSent(ncomps, scans)
  {
    hide AllParametersOk, Sent, IsChain, DcBefore, ProgressiveOk, IsProgressive;
    var last := Unsent(ncomps);
    OkIffOrderly(last, scans);
    assert Chains(last, scans) <==> SentInChains(ncomps, scans) by {
      forall ci, k | 0 <= ci < ncomps && 0 <= k < 64
        ensures IsChain(last[ci][k], Sent(scans, ci, k)) <==> IsChain(-1, Sent(scans, ci, k))
      {
      }
    }
    assert DcFirst(last, scans) <==> AcBehindDc(scans);
    assert DcSent(last, scans) <==> EveryDcSent(ncomps, scans);
  }

  // ----- Sequential scripts

  predicate AllWhole(ncomps: nat, scans: seq<ScanInfo>) {
    forall j :: 0 <= j < |scans| ==>
      var s := scans[j];
      && 1 <= |s.comps| <= 4 && (forall i :: 0 <= i < |s.comps| ==> 0 <= s.comps[i] < ncomps)
      && (forall a, b :: 0 <= a < b < |s.comps| ==> s.comps[a] < s.comps[b])
      && s.ss == 0 && s.se == 63 && s.ah == 0 && s.al == 0
  }

  /** How many scans hold the component. */
  function Times(scans: seq<ScanInfo>, ci: int): nat {
    if scans == [] then 0 else (if ci in scans[0].comps then 1 else 0) + Times(scans[1..], ci)
  }

  lemma {:induction false} SequentialIff(sent: seq<bool>, scans: seq<ScanInfo>)
    ensures SequentialOk(sent, scans) <==>
      AllWhole(|sent|, scans) && forall ci :: 0 <= ci < |sent| ==> Times(scans, ci) == if sent[ci] then 0 else 1
    decreases |scans|
  {
    hide SentAfter, SequentialScanOk;
    if scans != [] {
      var s, more := scans[0], scans[1..];
      SequentialIff(SentAfter(sent, s), more);
      WholeFirst(|sent|, scans);
      OneSequential(sent, s);
      forall ci | 0 <= ci < |sent|
        ensures SentAfter(sent, s)[ci] == (sent[ci] || ci in s.comps)
        ensures Times(scans, ci) == (if ci in s.comps then 1 else 0) + Times(more, ci)
      {
        SentOf(sent, s, ci);
      }
    }
  }

  lemma SentOf(sent: seq<bool>, s: ScanInfo, ci: nat)
    requires ci < |sent|
    ensures SentAfter(sent, s)[ci] == (sent[ci] || ci in s.comps)
  {
  }

  lemma WholeFirst(n: nat, scans: seq<ScanInfo>)
    requires scans != []
    ensures AllWhole(n, scans) <==> AllWhole(n, [scans[0]]) && AllWhole(n, scans[1..])
  {
    var one, more := [scans[0]], scans[1..];
    assert forall j :: 0 <= j < |more| ==> more[j] == scans[j + 1];
    assert forall j :: 0 < j < |scans| ==> scans[j] == more[j - 1];
    assert one[0] == scans[0];
  }

  lemma OneSequential(sent: seq<bool>, s: ScanInfo)
    ensures SequentialScanOk(sent, s) <==> AllWhole(|sent|, [s]) && forall ci :: 0 <= ci < |sent| && ci in s.comps ==> !sent[ci]
  {
    assert [s][0] == s;
    if ComponentsOk(|sent|, s) {
      forall i, j | 0 <= i < j < |s.comps| ensures s.comps[i] < s.comps[j] { Ascending(s, |sent|, i, j); }
    }
    if AllWhole(|sent|, [s]) {
      assert ComponentsOk(|sent|, s);
    }
    if SequentialScanOk(sent, s) {
      forall ci | 0 <= ci < |sent| && ci in s.comps
        ensures !sent[ci]
      {
        var i :| 0 <= i < |s.comps| && s.comps[i] == ci;
        assert !sent[s.comps[i]];
      }
    }
  }

  /** A sequential script is accepted exactly if each scan sends all of its components, and each component is sent once. */
  lemma AcceptedIffOnce(ncomps: nat, scans: seq<ScanInfo>)
    requires scans != [] && !IsProgressive(scans)
    ensures ScriptOk(ncomps, scans) <==>
      AllWhole(ncomps, scans) && forall ci :: 0 <= ci < ncomps ==> Times(scans, ci) == 1
  {
    hide AllWhole, Times, SequentialOk;
    SequentialIff(seq(ncomps, _ => false), scans);
  }
}
