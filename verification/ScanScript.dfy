/**
 Scan scripts: validate_script (jcmaster.c), the checks with which the progressive decoder starts a scan
 (start_pass_phuff_decoder, jdphuff.c) and the recommended scripts (jpeg_simple_progression, jcparam.c).
 */
module ScanScript {
  import opened Wrappers
  import opened Coefficients

  const MAX_AH_AL := 10

  /** jpeg_scan_info; comps are the component_index[] of the comps_in_scan components. */
  datatype ScanInfo = ScanInfo(comps: seq<int>, ss: int, se: int, ah: int, al: int)

  /** For each component and coefficient, -1 until it has been sent, and then the last Al for it. */
  type BitPos = l: seq<seq<int>> | forall i :: 0 <= i < |l| ==> |l[i]| == DCTSIZE2 witness []

  // ----- Validation, as predicates

  predicate ComponentsOk(ncomps: nat, s: ScanInfo) {
    && 0 < |s.comps| <= MAX_COMPS_IN_SCAN
    && forall i :: 0 <= i < |s.comps| ==> 0 <= s.comps[i] < ncomps && (i > 0 ==> s.comps[i - 1] < s.comps[i])
  }

  predicate ProgressionOk(s: ScanInfo) {
    && 0 <= s.ss < DCTSIZE2 && s.ss <= s.se < DCTSIZE2 && 0 <= s.ah <= MAX_AH_AL && 0 <= s.al <= MAX_AH_AL
    && (if s.ss == 0 then s.se == 0 else |s.comps| == 1)
  }

  /** The scan is the first of a coefficient at last, or refines it by one bit. */
  predicate NextBit(last: int, s: ScanInfo) {
    if last < 0 then s.ah == 0 else s.ah == last && s.al == s.ah - 1
  }

  predicate BandFollows(last: seq<int>, s: ScanInfo)
    requires |last| == DCTSIZE2
  {
    && (s.ss != 0 ==> last[0] >= 0)
    && forall k :: s.ss <= k <= s.se && 0 <= k < DCTSIZE2 ==> NextBit(last[k], s)
  }

  predicate ProgressiveScanOk(last: BitPos, s: ScanInfo) {
    && ComponentsOk(|last|, s) && ProgressionOk(s)
    && forall i :: 0 <= i < |s.comps| ==> BandFollows(last[s.comps[i]], s)
  }

  /** A band of coefficients is known down to bit al. */
  function SetBand(last: seq<int>, ss: int, se: int, al: int): (l: seq<int>)
    ensures |l| == |last|
  {
    seq(|last|, k requires 0 <= k < |last| => if ss <= k <= se then al else last[k])
  }

  function AfterScan(last: BitPos, s: ScanInfo): (l: BitPos)
    ensures |l| == |last|
  {
    seq(|last|, i requires 0 <= i < |last| => if i in s.comps then SetBand(last[i], s.ss, s.se, s.al) else last[i])
  }

  /** The DC coefficients of all components have been sent, at least their first bits. */
  predicate AllSent(last: BitPos) {
    forall i :: 0 <= i < |last| ==> last[i][0] >= 0
  }

  predicate ProgressiveOk(last: BitPos, scans: seq<ScanInfo>)
    decreases |scans|
  {
    if scans == [] then AllSent(last)
    else ProgressiveScanOk(last, scans[0]) && ProgressiveOk(AfterScan(last, scans[0]), scans[1..])
  }

  predicate SequentialScanOk(sent: seq<bool>, s: ScanInfo) {
    && ComponentsOk(|sent|, s) && s.ss == 0 && s.se == DCTSIZE2 - 1 && s.ah == 0 && s.al == 0
    && forall i :: 0 <= i < |s.comps| ==> !sent[s.comps[i]]
  }

  function SentAfter(sent: seq<bool>, s: ScanInfo): (r: seq<bool>)
    ensures |r| == |sent|
  {
    seq(|sent|, i requires 0 <= i < |sent| => sent[i] || i in s.comps)
  }

  predicate SequentialOk(sent: seq<bool>, scans: seq<ScanInfo>)
    decreases |scans|
  {
    if scans == [] then forall i :: 0 <= i < |sent| ==> sent[i]
    else SequentialScanOk(sent, scans[0]) && SequentialOk(SentAfter(sent, scans[0]), scans[1..])
  }

  function Unsent(ncomps: nat): BitPos {
    seq(ncomps, _ => seq(DCTSIZE2, _ => -1))
  }

  predicate IsProgressive(scans: seq<ScanInfo>)
    requires scans != []
  {
    scans[0].ss != 0 || scans[0].se != DCTSIZE2 - 1
  }

  predicate ScriptOk(ncomps: nat, scans: seq<ScanInfo>) {
    scans != [] &&
    if IsProgressive(scans) then ProgressiveOk(Unsent(ncomps), scans) else SequentialOk(seq(ncomps, _ => false), scans)
  }

  // ----- validate_script

  method CheckComponents(ncomps: nat, s: ScanInfo) returns (ok: bool, error: Error)
    ensures ok == ComponentsOk(ncomps, s)
    ensures !ok ==> error == ComponentCount || error == BadScanScript
  {
    error := ComponentCount;
    if |s.comps| <= 0 || |s.comps| > MAX_COMPS_IN_SCAN {
      return false, ComponentCount;
    }
    for ci := 0 to |s.comps|
      invariant forall i :: 0 <= i < ci ==> 0 <= s.comps[i] < ncomps && (i > 0 ==> s.comps[i - 1] < s.comps[i])
    {
      var thisi := s.comps[ci];
      if thisi < 0 || thisi >= ncomps {
        return false, BadScanScript;
      }
      if ci > 0 && thisi <= s.comps[ci - 1] {
        return false, BadScanScript;
      }
    }
    ok := true;
  }

  ghost function Table(a: array2<int>): BitPos
    requires a.Length1 == DCTSIZE2
    reads a
  {
    seq(a.Length0, i requires 0 <= i < a.Length0 reads a => seq(DCTSIZE2, k requires 0 <= k < DCTSIZE2 reads a => a[i, k]))
  }

  /** The loop over the coefficients of one component of a progressive scan. */
  method CheckBand(last: array2<int>, ci: nat, s: ScanInfo) returns (ok: bool)
    requires last.Length1 == DCTSIZE2 && ci < last.Length0 && ProgressionOk(s)
    modifies last
    ensures ok == BandFollows(old(Table(last))[ci], s)
    ensures ok ==> Table(last) == old(Table(last))[ci := SetBand(old(Table(last))[ci], s.ss, s.se, s.al)]
  {
    ghost var before := Table(last);
    if s.ss != 0 && last[ci, 0] < 0 {
      return false;
    }
    var coefi := s.ss;
    while coefi <= s.se
      invariant s.ss <= coefi <= s.se + 1
      invariant forall k :: s.ss <= k < coefi ==> NextBit(before[ci][k], s)
      invariant forall i, k :: 0 <= i < last.Length0 && 0 <= k < DCTSIZE2 ==>
        last[i, k] == if i == ci && s.ss <= k < coefi then s.al else before[i][k]
    {
      if last[ci, coefi] < 0 {
        if s.ah != 0 {
          return false;
        }
      } else if s.ah != last[ci, coefi] || s.al != s.ah - 1 {
        return false;
      }
      last[ci, coefi] := s.al;
      coefi := coefi + 1;
    }
    ok := true;
    assert Table(last)[ci] == SetBand(before[ci], s.ss, s.se, s.al);
    assert forall i :: 0 <= i < last.Length0 && i != ci ==> Table(last)[i] == before[i];
  }

  /** The components below n of the scan have been dealt with. */
  function PartScan(last: BitPos, s: ScanInfo, n: nat): (l: BitPos)
    requires n <= |s.comps|
    ensures |l| == |last|
  {
    seq(|last|, i requires 0 <= i < |last| => if i in s.comps[..n] then SetBand(last[i], s.ss, s.se, s.al) else last[i])
  }

  lemma PartScanStep(last: BitPos, s: ScanInfo, n: nat)
    requires n < |s.comps| && ComponentsOk(|last|, s)
    ensures PartScan(last, s, n)[s.comps[n]] == last[s.comps[n]]
    ensures PartScan(last, s, n + 1)
         == PartScan(last, s, n)[s.comps[n] := SetBand(last[s.comps[n]], s.ss, s.se, s.al)]
  {
    hide SetBand;
    var c := s.comps;
    assert c[..n + 1] == c[..n] + [c[n]];
    forall i | 0 <= i < n ensures c[i] < c[n] { Ascending(s, |last|, i, n); }
  }

  lemma {:induction false} Ascending(s: ScanInfo, ncomps: nat, i: nat, j: nat)
    requires ComponentsOk(ncomps, s) && i < j < |s.comps|
    ensures s.comps[i] < s.comps[j]
    decreases j
  {
    if i < j - 1 {
      Ascending(s, ncomps, i, j - 1);
    }
  }

  method CheckProgressive(last: array2<int>, s: ScanInfo) returns (ok: bool)
    requires last.Length1 == DCTSIZE2 && ComponentsOk(last.Length0, s)
    modifies last
    ensures ok == ProgressiveScanOk(old(Table(last)), s)
    ensures ok ==> Table(last) == AfterScan(old(Table(last)), s)
  {
    hide SetBand, BandFollows;
    if s.ss < 0 || s.ss >= DCTSIZE2 || s.se < s.ss || s.se >= DCTSIZE2 ||
       s.ah < 0 || s.ah > MAX_AH_AL || s.al < 0 || s.al > MAX_AH_AL {
      return false;
    }
    if s.ss == 0 {
      if s.se != 0 {
        return false;
      }
    } else if |s.comps| != 1 {
      return false;
    }
    ghost var before := Table(last);
    assert before == PartScan(before, s, 0);
    for ci := 0 to |s.comps|
      invariant Table(last) == PartScan(before, s, ci)
      invariant forall i :: 0 <= i < ci ==> BandFollows(before[s.comps[i]], s)
    {
      PartScanStep(before, s, ci);
      ok := CheckBand(last, s.comps[ci], s);
      if !ok {
        return;
      }
    }
    assert s.comps[..|s.comps|] == s.comps;
    ok := true;
  }

  method CheckSequential(sent: array<bool>, s: ScanInfo) returns (r: Result<()>)
    requires ComponentsOk(sent.Length, s)
    modifies sent
    ensures r.Ok? == SequentialScanOk(old(sent[..]), s)
    ensures r.Err? ==> r.error == BadProgScript || r.error == BadScanScript
    ensures r.Ok? ==> sent[..] == SentAfter(old(sent[..]), s)
  {
    if s.ss != 0 || s.se != DCTSIZE2 - 1 || s.ah != 0 || s.al != 0 {
      return Err(BadProgScript);
    }
    for ci := 0 to |s.comps|
      invariant forall i :: 0 <= i < ci ==> !old(sent[..])[s.comps[i]]
      invariant forall i :: 0 <= i < sent.Length ==> sent[i] == (old(sent[..])[i] || i in s.comps[..ci])
    {
      forall i | 0 <= i < ci ensures s.comps[i] < s.comps[ci] { Ascending(s, sent.Length, i, ci); }
      var thisi := s.comps[ci];
      if sent[thisi] {
        return Err(BadScanScript);
      }
      assert s.comps[..ci + 1] == s.comps[..ci] + [thisi];
      sent[thisi] := true;
    }
    assert s.comps[..|s.comps|] == s.comps;
    r := Ok(());
  }

  /** validate_script; the result says whether the script is progressive. */
  method ValidateScript(ncomps: nat, scans: seq<ScanInfo>) returns (r: Result<bool>)
    requires ncomps <= MAX_COMPONENTS
    ensures r.Ok? <==> ScriptOk(ncomps, scans)
    ensures r.Ok? ==> r.value == IsProgressive(scans)
    ensures r.Err? ==> r.error in {BadScanScript, ComponentCount, BadProgScript, MissingData}
  {
    hide ProgressiveScanOk, SequentialScanOk, AfterScan, SentAfter, ComponentsOk, ProgressiveOk, SequentialOk;
    if |scans| <= 0 {
      return Err(BadScanScript);
    }
    var progressive := scans[0].ss != 0 || scans[0].se != DCTSIZE2 - 1;
    var last := new int[ncomps, DCTSIZE2]((_, _) => -1);
    var sent := new bool[ncomps](_ => false);
    assert Table(last) == Unsent(ncomps) by {
      forall i | 0 <= i < ncomps ensures Table(last)[i] == Unsent(ncomps)[i] {
        assert Table(last)[i] == seq(DCTSIZE2, _ => -1);
      }
    }
    assert sent[..] == seq(ncomps, _ => false);
    ghost var ok := ScriptOk(ncomps, scans);
    assert scans[0..] == scans;
    for scanno := 0 to |scans|
      invariant progressive ==> (ok <==> ProgressiveOk(Table(last), scans[scanno..]))
      invariant !progressive ==> (ok <==> SequentialOk(sent[..], scans[scanno..]))
    {
      var s := scans[scanno];
      OneScanMore(Table(last), sent[..], scans, scanno);
      OkNeedsComponents(Table(last), sent[..], s);
      var good, error := CheckComponents(ncomps, s);
      if !good {
        return Err(error);
      }
      if progressive {
        good := CheckProgressive(last, s);
        if !good {
          return Err(BadProgScript);
        }
      } else {
        var e := CheckSequential(sent, s);
        if e.Err? {
          return Err(e.error);
        }
      }
    }
    NoScanMore(Table(last), sent[..], scans);
    for ci := 0 to ncomps
      invariant progressive ==> forall i :: 0 <= i < ci ==> Table(last)[i][0] >= 0
      invariant !progressive ==> forall i :: 0 <= i < ci ==> sent[..][i]
    {
      if progressive {
        assert last[ci, 0] == Table(last)[ci][0];
        if last[ci, 0] < 0 {
          return Err(MissingData);
        }
      } else if !sent[ci] {
        return Err(MissingData);
      }
    }
    r := Ok(progressive);
  }

  lemma OneScanMore(last: BitPos, sent: seq<bool>, scans: seq<ScanInfo>, j: nat)
    requires j < |scans|
    ensures ProgressiveOk(last, scans[j..])
       <==> ProgressiveScanOk(last, scans[j]) && ProgressiveOk(AfterScan(last, scans[j]), scans[j + 1..])
    ensures SequentialOk(sent, scans[j..])
       <==> SequentialScanOk(sent, scans[j]) && SequentialOk(SentAfter(sent, scans[j]), scans[j + 1..])
  {
    hide ProgressiveScanOk, SequentialScanOk, AfterScan, SentAfter;
    assert scans[j..][0] == scans[j] && scans[j..][1..] == scans[j + 1..];
  }

  lemma NoScanMore(last: BitPos, sent: seq<bool>, scans: seq<ScanInfo>)
    ensures ProgressiveOk(last, scans[|scans|..]) <==> AllSent(last)
    ensures SequentialOk(sent, scans[|scans|..]) <==> forall i :: 0 <= i < |sent| ==> sent[i]
  {
  }

  lemma OkNeedsComponents(last: BitPos, sent: seq<bool>, s: ScanInfo)
    ensures ProgressiveScanOk(last, s) ==> ComponentsOk(|last|, s)
    ensures SequentialScanOk(sent, s) ==> ComponentsOk(|sent|, s)
  {
  }

  // ----- start_pass_phuff_decoder

  /** The checks on the scan parameters; the decoder takes Al up to 13. */
  predicate DecoderAccepts(s: ScanInfo) {
    && (if s.ss == 0 then s.se == 0 else s.ss <= s.se < DCTSIZE2 && |s.comps| == 1)
    && (s.ah != 0 ==> s.al == s.ah - 1)
    && s.al <= 13
  }

  /** coef_bits of one component is brought up to date; every inconsistency is a warning. */
  method UpdateCoefBits(bits: array2<int>, ci: nat, s: ScanInfo) returns (warnings: nat)
    requires bits.Length1 == DCTSIZE2 && ci < bits.Length0 && 0 <= s.ss && s.se < DCTSIZE2
    modifies bits
    ensures warnings == 0 <==> BandExpected(old(Table(bits))[ci], s)
    ensures Table(bits) == old(Table(bits))[ci := SetBand(old(Table(bits))[ci], s.ss, s.se, s.al)]
  {
    ghost var before := Table(bits);
    warnings := 0;
    if s.ss != 0 && bits[ci, 0] < 0 {
      warnings := warnings + 1;
    }
    var coefi := s.ss;
    while coefi <= s.se
      invariant s.ss <= coefi <= s.se + 1 || (coefi == s.ss && s.ss > s.se)
      invariant warnings == 0 <==> (s.ss != 0 ==> before[ci][0] >= 0) && forall k :: s.ss <= k < coefi ==> Expected(before[ci][k], s)
      invariant forall i, k :: 0 <= i < bits.Length0 && 0 <= k < DCTSIZE2 ==>
        bits[i, k] == if i == ci && s.ss <= k < coefi then s.al else before[i][k]
    {
      var expected := if bits[ci, coefi] < 0 then 0 else bits[ci, coefi];
      if s.ah != expected {
        warnings := warnings + 1;
      }
      bits[ci, coefi] := s.al;
      coefi := coefi + 1;
    }
    assert Table(bits)[ci] == SetBand(before[ci], s.ss, s.se, s.al);
    assert forall i :: 0 <= i < bits.Length0 && i != ci ==> Table(bits)[i] == before[i];
  }

  predicate Expected(last: int, s: ScanInfo) {
    s.ah == if last < 0 then 0 else last
  }

  predicate BandExpected(last: seq<int>, s: ScanInfo)
    requires |last| == DCTSIZE2
  {
    && (s.ss != 0 ==> last[0] >= 0)
    && forall k :: s.ss <= k <= s.se && 0 <= k < DCTSIZE2 ==> Expected(last[k], s)
  }

  /** The checks with which the progressive decoder starts a scan: an error, or the number of warnings. */
  method StartPass(bits: array2<int>, s: ScanInfo) returns (r: Option<nat>)
    requires bits.Length1 == DCTSIZE2 && ComponentsOk(bits.Length0, s) && 0 <= s.ss && 0 <= s.se
    modifies bits
    ensures r.Some? <==> DecoderAccepts(s)
    ensures r.Some? <==>
      && (if s.ss == 0 then s.se == 0 else s.ss <= s.se <= 63 && |s.comps| == 1)
      && (s.ah == 0 || s.al == s.ah - 1) && s.al <= 13
    ensures r.Some? ==> (r.value == 0 <==> forall i :: 0 <= i < |s.comps| ==> BandExpected(old(Table(bits))[s.comps[i]], s))
    ensures r.Some? ==> Table(bits) == AfterScan(old(Table(bits)), s)
  {
    hide SetBand, BandExpected;
    var bad := false;
    if s.ss == 0 {
      if s.se != 0 {
        bad := true;
      }
    } else {
      if s.ss > s.se || s.se >= DCTSIZE2 {
        bad := true;
      }
      if |s.comps| != 1 {
        bad := true;
      }
    }
    if s.ah != 0 && s.al != s.ah - 1 {
      bad := true;
    }
    if s.al > 13 {
      bad := true;
    }
    if bad {
      return None;
    }
    ghost var before := Table(bits);
    assert before == PartScan(before, s, 0);
    var warnings := 0;
    for ci := 0 to |s.comps|
      invariant Table(bits) == PartScan(before, s, ci)
      invariant warnings == 0 <==> forall i :: 0 <= i < ci ==> BandExpected(before[s.comps[i]], s)
    {
      PartScanStep(before, s, ci);
      var w := UpdateCoefBits(bits, s.comps[ci], s);
      warnings := warnings + w;
    }
    assert s.comps[..|s.comps|] == s.comps;
    r := Some(warnings);
  }

  // ----- What a valid script guarantees

  /** The state in front of scan j. */
  function Before(last: BitPos, scans: seq<ScanInfo>, j: nat): (l: BitPos)
    requires j <= |scans|
    ensures |l| == |last|
    decreases j
  {
    if j == 0 then last else Before(AfterScan(last, scans[0]), scans[1..], j - 1)
  }

  lemma {:induction false} EveryScanOk(last: BitPos, scans: seq<ScanInfo>, j: nat)
    requires ProgressiveOk(last, scans) && j < |scans|
    ensures ProgressiveScanOk(Before(last, scans, j), scans[j])
    ensures Before(last, scans, j + 1) == AfterScan(Before(last, scans, j), scans[j])
    decreases j
  {
    hide ProgressiveScanOk, AfterScan;
    if j > 0 {
      EveryScanOk(AfterScan(last, scans[0]), scans[1..], j - 1);
    } else {
      assert Before(last, scans, 1) == Before(AfterScan(last, scans[0]), scans[1..], 0);
    }
  }

  /** The decoder, which sees the scans in the same order, accepts each of them and has nothing to warn about. */
  lemma DecoderAgrees(ncomps: nat, scans: seq<ScanInfo>, j: nat)
    requires ScriptOk(ncomps, scans) && IsProgressive(scans) && j < |scans|
    ensures DecoderAccepts(scans[j])
    ensures var bits := Before(Unsent(ncomps), scans, j);
      && (forall i :: 0 <= i < |scans[j].comps| ==> 0 <= scans[j].comps[i] < ncomps)
      && (forall i :: 0 <= i < |scans[j].comps| ==> BandExpected(bits[scans[j].comps[i]], scans[j]))
  {
    var bits, s := Before(Unsent(ncomps), scans, j), scans[j];
    EveryScanOk(Unsent(ncomps), scans, j);
    LevelsInRange(Unsent(ncomps), scans, j);
    forall i | 0 <= i < |s.comps|
      ensures BandExpected(bits[s.comps[i]], s) && (s.ah != 0 ==> s.al == s.ah - 1)
    {
      assert BandFollows(bits[s.comps[i]], s);
      assert NextBit(bits[s.comps[i]][s.ss], s);
    }
    assert BandExpected(bits[s.comps[0]], s);
  }

  predicate Levels(last: BitPos) {
    forall i, k :: 0 <= i < |last| && 0 <= k < DCTSIZE2 ==> -1 <= last[i][k] <= MAX_AH_AL
  }

  lemma {:induction false} LevelsInRange(last: BitPos, scans: seq<ScanInfo>, j: nat)
    requires ProgressiveOk(last, scans) && j <= |scans| && Levels(last)
    ensures Levels(Before(last, scans, j))
    decreases j
  {
    if j > 0 {
      LevelsInRange(AfterScan(last, scans[0]), scans[1..], j - 1);
    }
  }

  // ----- The chain of one coefficient

  /** The (Ah, Al) of the scans that send coefficient k of component ci, in order. */
  function Sent(scans: seq<ScanInfo>, ci: nat, k: nat): seq<(int, int)> {
    if scans == [] then []
    else (if Sends(scans[0], ci, k) then [(scans[0].ah, scans[0].al)] else []) + Sent(scans[1..], ci, k)
  }

  predicate Sends(s: ScanInfo, ci: nat, k: nat) {
    ci in s.comps && s.ss <= k <= s.se
  }

  /** (0, a), (a, a - 1), ... from the level last on. */
  predicate IsChain(last: int, chain: seq<(int, int)>)
    decreases |chain|
  {
    chain != [] ==>
      && (if last < 0 then chain[0].0 == 0 && chain[0].1 >= 0 else chain[0].0 == last && chain[0].1 == last - 1)
      && IsChain(chain[0].1, chain[1..])
  }

  function ChainEnd(last: int, chain: seq<(int, int)>): int {
    if chain == [] then last else chain[|chain| - 1].1
  }

  lemma OneSent(last: BitPos, s: ScanInfo, ci: nat, k: nat)
    requires ProgressiveScanOk(last, s) && ci < |last| && k < DCTSIZE2
    ensures AfterScan(last, s)[ci][k] == if Sends(s, ci, k) then s.al else last[ci][k]
    ensures Sends(s, ci, k) ==> NextBit(last[ci][k], s) && s.al >= 0
  {
    if Sends(s, ci, k) {
      var i :| 0 <= i < |s.comps| && s.comps[i] == ci;
      assert BandFollows(last[s.comps[i]], s);
    }
  }

  lemma {:induction false} SentInChain(last: BitPos, scans: seq<ScanInfo>, ci: nat, k: nat)
    requires ProgressiveOk(last, scans) && ci < |last| && k < DCTSIZE2
    ensures IsChain(last[ci][k], Sent(scans, ci, k))
    ensures Before(last, scans, |scans|)[ci][k] == ChainEnd(last[ci][k], Sent(scans, ci, k))
    decreases |scans|
  {
    hide ProgressiveScanOk, AfterScan, SetBand;
    if scans != [] {
      var s := scans[0];
      var next := AfterScan(last, s);
      SentInChain(next, scans[1..], ci, k);
      OneSent(last, s, ci, k);
      if Sends(s, ci, k) {
        assert ([(s.ah, s.al)] + Sent(scans[1..], ci, k))[1..] == Sent(scans[1..], ci, k);
      } else {
        assert [] + Sent(scans[1..], ci, k) == Sent(scans[1..], ci, k);
      }
    }
  }

  /** Every coefficient is sent bit by bit from its first scan on. */
  lemma ScriptsAreChains(ncomps: nat, scans: seq<ScanInfo>, ci: nat, k: nat)
    requires ScriptOk(ncomps, scans) && IsProgressive(scans) && ci < ncomps && k < DCTSIZE2
    ensures IsChain(-1, Sent(scans, ci, k))
    ensures Before(Unsent(ncomps), scans, |scans|)[ci][k] == ChainEnd(-1, Sent(scans, ci, k))
    ensures Sent(scans, ci, 0) != []
  {
    SentInChain(Unsent(ncomps), scans, ci, k);
    SentInChain(Unsent(ncomps), scans, ci, 0);
    DcIsSent(Unsent(ncomps), scans, ci);
  }

  lemma {:induction false} DcIsSent(last: BitPos, scans: seq<ScanInfo>, ci: nat)
    requires ProgressiveOk(last, scans) && ci < |last|
    ensures Before(last, scans, |scans|)[ci][0] >= 0
    decreases |scans|
  {
    hide ProgressiveScanOk, AfterScan;
    if scans != [] {
      DcIsSent(AfterScan(last, scans[0]), scans[1..], ci);
    }
  }

  // ----- jpeg_simple_progression

  function OneScan(ci: int, ss: int, se: int, ah: int, al: int): ScanInfo {
    ScanInfo([ci], ss, se, ah, al)
  }

  function EachComponent(n: nat, ss: int, se: int, ah: int, al: int): (s: seq<ScanInfo>)
    ensures |s| == n
  {
    seq(n, i requires 0 <= i < n => OneScan(i, ss, se, ah, al))
  }

  function DcScans(n: nat, ah: int, al: int): seq<ScanInfo> {
    if n <= MAX_COMPS_IN_SCAN then [ScanInfo(seq(n, i => i), 0, 0, ah, al)] else EachComponent(n, 0, 0, ah, al)
  }

  function SimpleScript(n: nat, ycc: bool): seq<ScanInfo> {
    if n == 3 && ycc then
      DcScans(n, 0, 1) + [OneScan(0, 1, 5, 0, 2), OneScan(2, 1, 63, 0, 1), OneScan(1, 1, 63, 0, 1), OneScan(0, 6, 63, 0, 2),
                          OneScan(0, 1, 63, 2, 1)]
      + DcScans(n, 1, 0) + [OneScan(2, 1, 63, 1, 0), OneScan(1, 1, 63, 1, 0), OneScan(0, 1, 63, 1, 0)]
    else
      DcScans(n, 0, 1) + EachComponent(n, 1, 5, 0, 2) + EachComponent(n, 6, 63, 0, 2) + EachComponent(n, 1, 63, 2, 1)
      + DcScans(n, 1, 0) + EachComponent(n, 1, 63, 1, 0)
  }

  method FillAScan(space: array<ScanInfo>, scanptr: nat, ci: int, ss: int, se: int, ah: int, al: int) returns (next: nat)
    requires scanptr < space.Length
    modifies space
    ensures next == scanptr + 1
    ensures space[..next] == old(space[..scanptr]) + [OneScan(ci, ss, se, ah, al)]
  {
    space[scanptr] := ScanInfo([ci], ss, se, ah, al);
    next := scanptr + 1;
  }

  method FillScans(space: array<ScanInfo>, scanptr: nat, ncomps: nat, ss: int, se: int, ah: int, al: int) returns (next: nat)
    requires scanptr + ncomps <= space.Length
    modifies space
    ensures next == scanptr + ncomps
    ensures space[..next] == old(space[..scanptr]) + EachComponent(ncomps, ss, se, ah, al)
  {
    next := scanptr;
    for ci := 0 to ncomps
      invariant next == scanptr + ci
      invariant space[..next] == old(space[..scanptr]) + EachComponent(ncomps, ss, se, ah, al)[..ci]
    {
      next := FillAScan(space, next, ci, ss, se, ah, al);
    }
  }

  method FillDcScans(space: array<ScanInfo>, scanptr: nat, ncomps: nat, ah: int, al: int) returns (next: nat)
    requires scanptr + |DcScans(ncomps, ah, al)| <= space.Length
    modifies space
    ensures next == scanptr + |DcScans(ncomps, ah, al)|
    ensures space[..next] == old(space[..scanptr]) + DcScans(ncomps, ah, al)
  {
    if ncomps <= MAX_COMPS_IN_SCAN {
      space[scanptr] := ScanInfo(seq(ncomps, i => i), 0, 0, ah, al);
      next := scanptr + 1;
    } else {
      next := FillScans(space, scanptr, ncomps, 0, 0, ah, al);
    }
  }

  lemma DcCount(n: nat, ah: int, al: int)
    ensures |DcScans(n, ah, al)| == if n <= MAX_COMPS_IN_SCAN then 1 else n
  {
  }

  /** jpeg_simple_progression: the script takes up exactly the entries that were counted beforehand. */
  method SimpleProgression(ncomps: nat, ycc: bool) returns (scans: seq<ScanInfo>, nscans: nat)
    requires 1 <= ncomps <= MAX_COMPONENTS
    ensures |scans| == nscans && scans == SimpleScript(ncomps, ycc)
    ensures nscans == if ncomps == 3 && ycc then 10 else if ncomps > MAX_COMPS_IN_SCAN then 6 * ncomps else 2 + 4 * ncomps
  {
    hide OneScan, EachComponent, DcScans;
    if ncomps == 3 && ycc {
      nscans := 10;
    } else if ncomps > MAX_COMPS_IN_SCAN {
      nscans := 6 * ncomps;
    } else {
      nscans := 2 + 4 * ncomps;
    }
    var space := new ScanInfo[if nscans > 10 then nscans else 10](_ => ScanInfo([], 0, 0, 0, 0));
    DcCount(ncomps, 0, 1);
    DcCount(ncomps, 1, 0);
    var p: nat;
    if ncomps == 3 && ycc {
      p := FillYcc(space);
    } else {
      p := FillGeneral(space, ncomps);
    }
    scans := space[..p];
  }

  /** The custom script for YCbCr images. */
  method FillYcc(space: array<ScanInfo>) returns (p: nat)
    requires space.Length >= 10
    modifies space
    ensures p == 10 && space[..p] == SimpleScript(3, true)
  {
    hide OneScan, DcScans;
    ghost var a, d := DcScans(3, 0, 1), DcScans(3, 1, 0);
    DcCount(3, 0, 1);
    DcCount(3, 1, 0);
    p := FillDcScans(space, 0, 3, 0, 1);
    p := FillAScan(space, p, 0, 1, 5, 0, 2);
    p := FillAScan(space, p, 2, 1, 63, 0, 1);
    p := FillAScan(space, p, 1, 1, 63, 0, 1);
    ghost var b := a + [OneScan(0, 1, 5, 0, 2)] + [OneScan(2, 1, 63, 0, 1)] + [OneScan(1, 1, 63, 0, 1)];
    assert space[..p] == b;
    p := FillAScan(space, p, 0, 6, 63, 0, 2);
    p := FillAScan(space, p, 0, 1, 63, 2, 1);
    p := FillDcScans(space, p, 3, 1, 0);
    ghost var e := b + [OneScan(0, 6, 63, 0, 2)] + [OneScan(0, 1, 63, 2, 1)] + d;
    assert space[..p] == e;
    p := FillAScan(space, p, 2, 1, 63, 1, 0);
    p := FillAScan(space, p, 1, 1, 63, 1, 0);
    p := FillAScan(space, p, 0, 1, 63, 1, 0);
    assert space[..p] == e + [OneScan(2, 1, 63, 1, 0)] + [OneScan(1, 1, 63, 1, 0)] + [OneScan(0, 1, 63, 1, 0)];
  }

  /** The all-purpose script. */
  method FillGeneral(space: array<ScanInfo>, ncomps: nat) returns (p: nat)
    requires space.Length >= if ncomps > MAX_COMPS_IN_SCAN then 6 * ncomps else 2 + 4 * ncomps
    modifies space
    ensures p == if ncomps > MAX_COMPS_IN_SCAN then 6 * ncomps else 2 + 4 * ncomps
    ensures !(ncomps == 3) ==> space[..p] == SimpleScript(ncomps, true)
    ensures space[..p] == SimpleScript(ncomps, false)
  {
    hide EachComponent, DcScans;
    DcCount(ncomps, 0, 1);
    DcCount(ncomps, 1, 0);
    p := FillDcScans(space, 0, ncomps, 0, 1);
    assert space[..p] == DcScans(ncomps, 0, 1);
    p := FillScans(space, p, ncomps, 1, 5, 0, 2);
    p := FillScans(space, p, ncomps, 6, 63, 0, 2);
    p := FillScans(space, p, ncomps, 1, 63, 2, 1);
    p := FillDcScans(space, p, ncomps, 1, 0);
    p := FillScans(space, p, ncomps, 1, 63, 1, 0);
  }

  // ----- The recommended scripts are valid and complete

  /** Coefficients sent down to a for DC, b for 1 to 5 and c for 6 to 63. */
  function Bands(a: int, b: int, c: int): (l: seq<int>)
    ensures |l| == DCTSIZE2
  {
    seq(DCTSIZE2, k => if k == 0 then a else if k <= 5 then b else c)
  }

  predicate StepsOk(last: BitPos, scans: seq<ScanInfo>)
    decreases |scans|
  {
    scans == [] || (ProgressiveScanOk(last, scans[0]) && StepsOk(AfterScan(last, scans[0]), scans[1..]))
  }

  lemma {:induction false} StepsConcat(last: BitPos, a: seq<ScanInfo>, b: seq<ScanInfo>)
    requires StepsOk(last, a) && StepsOk(Before(last, a, |a|), b)
    ensures StepsOk(last, a + b) && Before(last, a + b, |a + b|) == Before(Before(last, a, |a|), b, |b|)
    decreases |a|
  {
    hide ProgressiveScanOk, AfterScan;
    if a == [] {
      assert a + b == b;
    } else {
      assert (a + b)[0] == a[0] && (a + b)[1..] == a[1..] + b;
      StepsConcat(AfterScan(last, a[0]), a[1..], b);
    }
  }

  lemma {:induction false} StepsThenSent(last: BitPos, scans: seq<ScanInfo>)
    requires StepsOk(last, scans)
    ensures ProgressiveOk(last, scans) <==> AllSent(Before(last, scans, |scans|))
    decreases |scans|
  {
    hide ProgressiveScanOk, AfterScan, AllSent;
    if scans != [] {
      StepsThenSent(AfterScan(last, scans[0]), scans[1..]);
    }
  }

  lemma OneScanStep(last: BitPos, ci: nat, ss: int, se: int, ah: int, al: int)
    requires ci < |last| && ProgressionOk(OneScan(ci, ss, se, ah, al)) && BandFollows(last[ci], OneScan(ci, ss, se, ah, al))
    ensures StepsOk(last, [OneScan(ci, ss, se, ah, al)])
    ensures Before(last, [OneScan(ci, ss, se, ah, al)], 1) == last[ci := SetBand(last[ci], ss, se, al)]
  {
    var s := OneScan(ci, ss, se, ah, al);
    assert [s][1..] == [];
    assert Before(last, [s], 1) == Before(AfterScan(last, s), [s][1..], 0);
  }

  function Uniform(n: nat, l: seq<int>): BitPos
    requires |l| == DCTSIZE2
  {
    seq(n, _ => l)
  }

  lemma {:induction false} EachComponentSteps(n: nat, i: nat, l: seq<int>, ss: int, se: int, ah: int, al: int)
    requires |l| == DCTSIZE2 && i <= n && ProgressionOk(OneScan(0, ss, se, ah, al)) && BandFollows(l, OneScan(0, ss, se, ah, al))
    ensures var last: BitPos := Uniform(i, SetBand(l, ss, se, al)) + Uniform(n - i, l);
      var scans := EachComponent(n, ss, se, ah, al)[i..];
      StepsOk(last, scans) && Before(last, scans, |scans|) == Uniform(n, SetBand(l, ss, se, al))
    decreases n - i
  {
    hide SetBand, BandFollows, ProgressionOk, AfterScan, ProgressiveScanOk;
    var l' := SetBand(l, ss, se, al);
    var last: BitPos := Uniform(i, l') + Uniform(n - i, l);
    var scans := EachComponent(n, ss, se, ah, al);
    if i == n {
      assert last == Uniform(n, l');
    } else {
      SameBand(l, OneScan(0, ss, se, ah, al), OneScan(i, ss, se, ah, al));
      OneScanStep(last, i, ss, se, ah, al);
      assert last[i := l'] == Uniform(i + 1, l') + Uniform(n - (i + 1), l);
      EachComponentSteps(n, i + 1, l, ss, se, ah, al);
      assert scans[i..] == [OneScan(i, ss, se, ah, al)] + scans[i + 1..];
      StepsConcat(last, [OneScan(i, ss, se, ah, al)], scans[i + 1..]);
    }
  }

  lemma SameBand(l: seq<int>, s: ScanInfo, s': ScanInfo)
    requires |l| == DCTSIZE2 && s' == s.(comps := s'.comps) && |s'.comps| == |s.comps|
    ensures BandFollows(l, s) <==> BandFollows(l, s')
    ensures ProgressionOk(s) <==> ProgressionOk(s')
  {
    if BandFollows(l, s) {
      assert forall k :: s.ss <= k <= s.se && 0 <= k < DCTSIZE2 ==> NextBit(l[k], s) && (NextBit(l[k], s) <==> NextBit(l[k], s'));
    }
    if BandFollows(l, s') {
      assert forall k :: s.ss <= k <= s.se && 0 <= k < DCTSIZE2 ==> NextBit(l[k], s') && (NextBit(l[k], s) <==> NextBit(l[k], s'));
    }
  }

  lemma DcSteps(n: nat, a: int, b: int, c: int, ah: int, al: int)
    requires 1 <= n && 0 <= ah <= MAX_AH_AL && 0 <= al <= MAX_AH_AL && (if a < 0 then ah == 0 else ah == a && al == ah - 1)
    ensures StepsOk(Uniform(n, Bands(a, b, c)), DcScans(n, ah, al))
    ensures Before(Uniform(n, Bands(a, b, c)), DcScans(n, ah, al), |DcScans(n, ah, al)|) == Uniform(n, Bands(al, b, c))
  {
    var l := Bands(a, b, c);
    var last := Uniform(n, l);
    assert SetBand(l, 0, 0, al) == Bands(al, b, c);
    if n <= MAX_COMPS_IN_SCAN {
      var s := ScanInfo(seq(n, i => i), 0, 0, ah, al);
      assert [s][1..] == [] && forall i :: 0 <= i < n ==> s.comps[i] == i;
      forall i | 0 <= i < n
        ensures AfterScan(last, s)[i] == Bands(al, b, c)
      {
        assert s.comps[i] == i;
      }
      assert AfterScan(last, s) == Uniform(n, Bands(al, b, c));
      assert Before(last, [s], 1) == Before(AfterScan(last, s), [s][1..], 0);
    } else {
      EachComponentSteps(n, 0, l, 0, 0, ah, al);
      assert Uniform(0, SetBand(l, 0, 0, al)) + Uniform(n, l) == Uniform(n, l);
      assert EachComponent(n, 0, 0, ah, al)[0..] == EachComponent(n, 0, 0, ah, al);
    }
  }

  /** One AC scan for every component. */
  lemma AcSteps(n: nat, l: seq<int>, l': seq<int>, ss: int, se: int, ah: int, al: int)
    requires |l| == DCTSIZE2 && ProgressionOk(OneScan(0, ss, se, ah, al)) && BandFollows(l, OneScan(0, ss, se, ah, al))
    requires l' == SetBand(l, ss, se, al)
    ensures StepsOk(Uniform(n, l), EachComponent(n, ss, se, ah, al))
    ensures Before(Uniform(n, l), EachComponent(n, ss, se, ah, al), n) == Uniform(n, l')
  {
    EachComponentSteps(n, 0, l, ss, se, ah, al);
    assert Uniform(0, l') + Uniform(n, l) == Uniform(n, l);
    assert EachComponent(n, ss, se, ah, al)[0..] == EachComponent(n, ss, se, ah, al);
  }

  lemma SetBands(a: int, b: int, c: int, x: int)
    ensures SetBand(Bands(a, b, c), 0, 0, x) == Bands(x, b, c)
    ensures SetBand(Bands(a, b, c), 1, 5, x) == Bands(a, x, c)
    ensures SetBand(Bands(a, b, c), 6, 63, x) == Bands(a, b, x)
    ensures SetBand(Bands(a, b, c), 1, 63, x) == Bands(a, x, x)
  {
  }

  lemma GeneralScript(n: nat)
    requires 1 <= n
    ensures var scans := DcScans(n, 0, 1) + EachComponent(n, 1, 5, 0, 2) + EachComponent(n, 6, 63, 0, 2)
                         + EachComponent(n, 1, 63, 2, 1) + DcScans(n, 1, 0) + EachComponent(n, 1, 63, 1, 0);
      StepsOk(Unsent(n), scans) && Before(Unsent(n), scans, |scans|) == Uniform(n, Bands(0, 0, 0))
  {
    hide StepsOk, Before, EachComponent, DcScans, Bands, SetBand;
    assert Unsent(n) == Uniform(n, Bands(-1, -1, -1)) by { UnsentBands(n); }
    BandsFollow();
    var u := Unsent(n);
    var a, b, c, d, e, f := DcScans(n, 0, 1), EachComponent(n, 1, 5, 0, 2), EachComponent(n, 6, 63, 0, 2),
                            EachComponent(n, 1, 63, 2, 1), DcScans(n, 1, 0), EachComponent(n, 1, 63, 1, 0);
    DcSteps(n, -1, -1, -1, 0, 1);
    SetBands(1, -1, -1, 2);
    AcSteps(n, Bands(1, -1, -1), Bands(1, 2, -1), 1, 5, 0, 2);
    StepsConcat(u, a, b);
    SetBands(1, 2, -1, 2);
    AcSteps(n, Bands(1, 2, -1), Bands(1, 2, 2), 6, 63, 0, 2);
    StepsConcat(u, a + b, c);
    SetBands(1, 2, 2, 1);
    AcSteps(n, Bands(1, 2, 2), Bands(1, 1, 1), 1, 63, 2, 1);
    StepsConcat(u, a + b + c, d);
    DcSteps(n, 1, 1, 1, 1, 0);
    StepsConcat(u, a + b + c + d, e);
    SetBands(0, 1, 1, 0);
    AcSteps(n, Bands(0, 1, 1), Bands(0, 0, 0), 1, 63, 1, 0);
    StepsConcat(u, a + b + c + d + e, f);
  }

  lemma UnsentBands(n: nat)
    ensures Unsent(n) == Uniform(n, Bands(-1, -1, -1))
  {
    assert seq(DCTSIZE2, _ => -1) == Bands(-1, -1, -1);
  }

  lemma BandsFollow()
    ensures BandFollows(Bands(1, -1, -1), OneScan(0, 1, 5, 0, 2)) && BandFollows(Bands(1, 2, -1), OneScan(0, 6, 63, 0, 2))
    ensures BandFollows(Bands(1, 2, 2), OneScan(0, 1, 63, 2, 1)) && BandFollows(Bands(0, 1, 1), OneScan(0, 1, 63, 1, 0))
    ensures BandFollows(Bands(1, -1, -1), OneScan(0, 1, 63, 0, 1))
  {
  }

  /** The script for YCbCr images, whose components are coded with different bit depths on the way. */
  lemma YccScript()
    ensures StepsOk(Unsent(3), SimpleScript(3, true))
    ensures Before(Unsent(3), SimpleScript(3, true), 10) == Uniform(3, Bands(0, 0, 0)) && |SimpleScript(3, true)| == 10
  {
    hide StepsOk, Before, DcScans, Bands, SetBand, OneScan, BandFollows;
    UnsentBands(3);
    var u := Unsent(3);
    DcCount(3, 0, 1);
    DcCount(3, 1, 0);
    DcSteps(3, -1, -1, -1, 0, 1);
    var a := DcScans(3, 0, 1);
    YccAc();
    var b := [OneScan(0, 1, 5, 0, 2), OneScan(2, 1, 63, 0, 1), OneScan(1, 1, 63, 0, 1), OneScan(0, 6, 63, 0, 2),
              OneScan(0, 1, 63, 2, 1)];
    StepsConcat(u, a, b);
    DcSteps(3, 1, 1, 1, 1, 0);
    var d := DcScans(3, 1, 0);
    StepsConcat(u, a + b, d);
    YccLast();
    var e := [OneScan(2, 1, 63, 1, 0), OneScan(1, 1, 63, 1, 0), OneScan(0, 1, 63, 1, 0)];
    StepsConcat(u, a + b + d, e);
    assert SimpleScript(3, true) == a + b + d + e;
  }

  lemma YccAc()
    ensures var b := [OneScan(0, 1, 5, 0, 2), OneScan(2, 1, 63, 0, 1), OneScan(1, 1, 63, 0, 1), OneScan(0, 6, 63, 0, 2),
                      OneScan(0, 1, 63, 2, 1)];
      StepsOk(Uniform(3, Bands(1, -1, -1)), b) && Before(Uniform(3, Bands(1, -1, -1)), b, 5) == Uniform(3, Bands(1, 1, 1))
  {
    hide StepsOk, Before, Bands, SetBand, BandFollows;
    BandsFollow();
    var x, y, z := Bands(1, -1, -1), Bands(1, 2, -1), Bands(1, 1, 1);
    var l0: BitPos := Uniform(3, x);
    SetBands(1, -1, -1, 2);
    SetBands(1, -1, -1, 1);
    SetBands(1, 2, -1, 2);
    SetBands(1, 2, 2, 1);
    var s0, s1, s2, s3, s4 := OneScan(0, 1, 5, 0, 2), OneScan(2, 1, 63, 0, 1), OneScan(1, 1, 63, 0, 1), OneScan(0, 6, 63, 0, 2),
                              OneScan(0, 1, 63, 2, 1);
    OneScanStep(l0, 0, 1, 5, 0, 2);
    var l1 := l0[0 := y];
    SameBand(x, OneScan(0, 1, 63, 0, 1), s1);
    OneScanStep(l1, 2, 1, 63, 0, 1);
    StepsConcat(l0, [s0], [s1]);
    var l2 := l1[2 := z];
    SameBand(x, OneScan(0, 1, 63, 0, 1), s2);
    OneScanStep(l2, 1, 1, 63, 0, 1);
    StepsConcat(l0, [s0] + [s1], [s2]);
    var l3 := l2[1 := z];
    OneScanStep(l3, 0, 6, 63, 0, 2);
    StepsConcat(l0, [s0] + [s1] + [s2], [s3]);
    var l4 := l3[0 := Bands(1, 2, 2)];
    OneScanStep(l4, 0, 1, 63, 2, 1);
    StepsConcat(l0, [s0] + [s1] + [s2] + [s3], [s4]);
    assert l4[0 := z] == Uniform(3, z);
    assert [s0] + [s1] + [s2] + [s3] + [s4] == [s0, s1, s2, s3, s4];
  }

  lemma YccLast()
    ensures var e := [OneScan(2, 1, 63, 1, 0), OneScan(1, 1, 63, 1, 0), OneScan(0, 1, 63, 1, 0)];
      StepsOk(Uniform(3, Bands(0, 1, 1)), e) && Before(Uniform(3, Bands(0, 1, 1)), e, 3) == Uniform(3, Bands(0, 0, 0))
  {
    hide StepsOk, Before, Bands, SetBand, BandFollows;
    BandsFollow();
    var x, z := Bands(0, 1, 1), Bands(0, 0, 0);
    SetBands(0, 1, 1, 0);
    var s := OneScan(0, 1, 63, 1, 0);
    var s2, s1 := OneScan(2, 1, 63, 1, 0), OneScan(1, 1, 63, 1, 0);
    var l0: BitPos := Uniform(3, x);
    SameBand(x, s, s2);
    SameBand(x, s, s1);
    OneScanStep(l0, 2, 1, 63, 1, 0);
    var l1 := l0[2 := z];
    OneScanStep(l1, 1, 1, 63, 1, 0);
    StepsConcat(l0, [s2], [s1]);
    var l2 := l1[1 := z];
    OneScanStep(l2, 0, 1, 63, 1, 0);
    StepsConcat(l0, [s2] + [s1], [s]);
    assert l2[0 := z] == Uniform(3, z);
    assert [s2] + [s1] + [s] == [s2, s1, s];
  }

  /** Every script that jpeg_simple_progression makes is valid and sends every coefficient down to its last bit. */
  lemma SimpleScriptIsComplete(n: nat, ycc: bool)
    requires 1 <= n
    ensures ScriptOk(n, SimpleScript(n, ycc)) && IsProgressive(SimpleScript(n, ycc))
    ensures Before(Unsent(n), SimpleScript(n, ycc), |SimpleScript(n, ycc)|) == Uniform(n, Bands(0, 0, 0))
  {
    hide StepsOk, Before, SetBand, ProgressiveOk, EachComponent;
    if n == 3 && ycc {
      YccScript();
    } else {
      GeneralScript(n);
    }
    StepsThenSent(Unsent(n), SimpleScript(n, ycc));
    assert Bands(0, 0, 0)[0] == 0;
    FirstIsDcScan(n, ycc);
  }

  lemma FirstIsDcScan(n: nat, ycc: bool)
    requires 1 <= n
    ensures SimpleScript(n, ycc) != [] && SimpleScript(n, ycc)[0].ss == 0 && SimpleScript(n, ycc)[0].se == 0
  {
  }
}
