/**
 Huffman table construction shared by the entropy coders: the canonical code of a JHUFF_TBL (Figures C.1 and C.2
 of ITU-T T.81), the encoder's code/size tables (jchuff.c) and the decoder's maxcode/valoffset/lookahead tables
 (jdhuff.c), with the count check both perform.
 */
module HuffmanTables {
  import opened Bits
  import opened Wrappers

  /** bits[k] = number of codes of length k (bits[0] unused); huffval = the symbols in order of code length. */
  datatype RawHuffTbl = HuffTbl(bits: seq<byte>, huffval: seq<byte>)
  type HuffTbl = h: RawHuffTbl | |h.bits| == 17 && |h.huffval| == 256
    witness HuffTbl(seq(17, _ => 0), seq(256, _ => 0))

  type Counts = s: seq<nat> | |s| == 17 witness seq(17, _ => 0)

  // ----- The canonical code as a function of the counts

  /** Index, in order of code length, of the first code of length l. */
  function Off(bits: Counts, l: nat): nat
    requires l <= 17
  {
    if l <= 1 then 0 else Off(bits, l - 1) + bits[l - 1]
  }

  /** Value of the first code of length l. */
  function First(bits: Counts, l: nat): nat
    requires l <= 17
  {
    if l <= 1 then 0 else 2 * (First(bits, l - 1) + bits[l - 1])
  }

  /** One more than the value of the last code of length l. */
  function Next(bits: Counts, l: nat): nat
    requires l <= 16
  {
    First(bits, l) + bits[l]
  }

  predicate LegalTree(bits: Counts) {
    forall l :: 1 <= l <= 16 ==> Next(bits, l) < Pow2(l)
  }

  predicate ValidCounts(bits: Counts) {
    Off(bits, 17) <= 256 && LegalTree(bits)
  }

  function Size(bits: Counts): nat {
    Off(bits, 17)
  }

  /** Length of the p'th code. */
  function LenAt(bits: Counts, p: nat): (l: nat)
    requires p < Size(bits)
    ensures 1 <= l <= 16
  {
    LenFrom(bits, p, 1)
  }

  function LenFrom(bits: Counts, p: nat, l: nat): (r: nat)
    requires 1 <= l <= 16
    ensures l <= r <= 16
    decreases 17 - l
  {
    if l == 16 || p < Off(bits, l + 1) then l else LenFrom(bits, p, l + 1)
  }

  lemma {:induction false} LenFromBounds(bits: Counts, p: nat, l: nat)
    requires 1 <= l <= 16 && Off(bits, l) <= p < Size(bits)
    ensures var r := LenFrom(bits, p, l); Off(bits, r) <= p < Off(bits, r + 1)
    decreases 17 - l
  {
    if l < 16 && p >= Off(bits, l + 1) {
      LenFromBounds(bits, p, l + 1);
    }
  }

  function CodeAt(bits: Counts, p: nat): (c: nat)
    requires p < Size(bits)
  {
    LenFromBounds(bits, p, 1);
    First(bits, LenAt(bits, p)) + (p - Off(bits, LenAt(bits, p)))
  }

  lemma LenAtBounds(bits: Counts, p: nat)
    requires p < Size(bits)
    ensures var l := LenAt(bits, p);
      && Off(bits, l) <= p < Off(bits, l + 1)
      && First(bits, l) <= CodeAt(bits, p) < Next(bits, l)
  {
    LenFromBounds(bits, p, 1);
  }

  /** The p'th code word. */
  function CodeWord(bits: Counts, p: nat): seq<bool>
    requires p < Size(bits)
  {
    ToBits(CodeAt(bits, p), LenAt(bits, p))
  }

  // ----- Facts about the canonical code

  /**
   The code is that of Annex C of ITU-T T.81: the first code word is zeros, each one is one more than the one in front of it,
   shifted left where the length grows, and lengths only grow.
   */
  lemma CodesAreCanonical(bits: Counts, p: nat)
    requires p < Size(bits)
    ensures p == 0 ==> CodeAt(bits, p) == 0
    ensures p > 0 ==>
      && LenAt(bits, p - 1) <= LenAt(bits, p)
      && CodeAt(bits, p) == Shl(CodeAt(bits, p - 1) + 1, LenAt(bits, p) - LenAt(bits, p - 1))
  {
    hide CodeAt, LenAt;
    LenAtBounds(bits, p);
    var l := LenAt(bits, p);
    LenAtUnique(bits, p, l);
    if p == 0 {
      FirstZero(bits, l);
    } else {
      LenAtBounds(bits, p - 1);
      var m := LenAt(bits, p - 1);
      LenAtUnique(bits, p - 1, m);
      if l < m {
        OffMonotone(bits, l + 1, m);
      }
      if m < l {
        OffMonotone(bits, m + 1, l);
        FirstAcross(bits, m, l);
      }
    }
  }

  /** Where no code has a length in between, the first code of length l follows the last one of length m. */
  lemma {:induction false} FirstAcross(bits: Counts, m: nat, l: nat)
    requires 1 <= m < l <= 16 && Off(bits, m + 1) == Off(bits, l)
    ensures First(bits, l) == Shl(First(bits, m) + bits[m], l - m)
    decreases l
  {
    if m + 1 < l {
      OffMonotone(bits, m + 1, l - 1);
      FirstAcross(bits, m, l - 1);
    } else {
      assert Shl(First(bits, m) + bits[m], 1) == 2 * Shl(First(bits, m) + bits[m], 0);
    }
  }

  /** There are as many code words of each length as its count says. */
  lemma CountOfLength(bits: Counts, l: nat, p: nat)
    requires 1 <= l <= 16 && p < Size(bits)
    ensures LenAt(bits, p) == l <==> Off(bits, l) <= p < Off(bits, l) + bits[l]
  {
    hide CodeAt, LenAt;
    LenAtBounds(bits, p);
    if Off(bits, l) <= p < Off(bits, l) + bits[l] {
      LenAtUnique(bits, p, l);
    }
  }

  lemma {:induction false} OffMonotone(bits: Counts, l: nat, m: nat)
    requires l <= m <= 17
    ensures Off(bits, l) <= Off(bits, m)
    decreases m
  {
    if l < m {
      OffMonotone(bits, l, m - 1);
    }
  }

  lemma LenAtUnique(bits: Counts, p: nat, l: nat)
    requires 1 <= l <= 16 && Off(bits, l) <= p < Off(bits, l + 1)
    ensures p < Size(bits) && LenAt(bits, p) == l
    ensures CodeAt(bits, p) == First(bits, l) + (p - Off(bits, l))
  {
    OffMonotone(bits, l + 1, 17);
    LenFromBounds(bits, p, 1);
    var r := LenAt(bits, p);
    if l < r {
      OffMonotone(bits, l + 1, r);
    } else if r < l {
      OffMonotone(bits, r + 1, l);
    }
  }

  lemma {:induction false} FirstZero(bits: Counts, l: nat)
    requires l <= 17 && Off(bits, l) == 0
    ensures First(bits, l) == 0
  {
    if l > 1 {
      FirstZero(bits, l - 1);
    }
  }

  /** All codes shorter than m, extended to m bits, lie below First(m). */
  lemma {:induction false} FirstAboveNext(bits: Counts, l: nat, m: nat)
    requires 1 <= l < m <= 17
    ensures Shl(Next(bits, l), m - l) <= First(bits, m)
    decreases m
  {
    if l + 1 < m {
      FirstAboveNext(bits, l, m - 1);
    }
  }

  /** sum over l of bits[l] * 2^(16 - l): the Kraft sum of the counts, scaled by 2^16. */
  function KraftSum(bits: Counts, l: nat): nat
    requires l <= 16
  {
    if l == 0 then 0 else KraftSum(bits, l - 1) + Shl(bits[l], 16 - l)
  }

  lemma {:induction false} KraftIsNext(bits: Counts, l: nat)
    requires 1 <= l <= 16
    ensures KraftSum(bits, l) == Shl(Next(bits, l), 16 - l)
    decreases l
  {
    if l == 1 {
      assert KraftSum(bits, 0) == 0;
    } else {
      KraftIsNext(bits, l - 1);
      ShlDouble(Next(bits, l - 1), 16 - l);
      ShlAdd(First(bits, l), bits[l], 16 - l);
    }
  }

  lemma {:induction false} ShlAdd(x: int, y: int, k: nat)
    ensures Shl(x + y, k) == Shl(x, k) + Shl(y, k)
    decreases k
  {
    if k > 0 {
      ShlAdd(x, y, k - 1);
    }
  }

  lemma {:induction false} ShlOfPow2(l: nat, k: nat)
    ensures Shl(Pow2(l), k) == Pow2(l + k)
    decreases k
  {
    if k > 0 {
      ShlOfPow2(l, k - 1);
    }
  }

  lemma {:induction false} KraftMonotone(bits: Counts, l: nat, m: nat)
    requires l <= m <= 16
    ensures KraftSum(bits, l) <= KraftSum(bits, m)
    decreases m
  {
    if l < m {
      KraftMonotone(bits, l, m - 1);
      ShlMonotone(0, bits[m], 16 - m);
      ShlPow2(0, 16 - m);
    }
  }

  /** The per-length test of Figure C.2 accepts exactly the counts whose Kraft sum is strictly below one. */
  lemma LegalTreeIffKraft(bits: Counts)
    ensures LegalTree(bits) <==> KraftSum(bits, 16) < Pow2(16)
  {
    KraftIsNext(bits, 16);
    if KraftSum(bits, 16) < Pow2(16) {
      forall l | 1 <= l <= 16
        ensures Next(bits, l) < Pow2(l)
      {
        KraftIsNext(bits, l);
        KraftMonotone(bits, l, 16);
        ShlOfPow2(l, 16 - l);
        if Pow2(l) <= Next(bits, l) {
          ShlMonotone(Pow2(l), Next(bits, l), 16 - l);
        }
      }
    }
  }

  /** A later code, cut to the length of an earlier one, is larger than it. */
  lemma LaterCodeIsLarger(bits: Counts, p: nat, q: nat)
    requires LegalTree(bits) && p < q < Size(bits)
    ensures LenAt(bits, p) <= LenAt(bits, q)
    ensures CodeAt(bits, p) < Shr(CodeAt(bits, q), LenAt(bits, q) - LenAt(bits, p)) < Pow2(LenAt(bits, p))
  {
    hide LenAt, Pow2, First, Off;
    var l, m := LenAt(bits, p), LenAt(bits, q);
    LenAtBounds(bits, p);
    LenAtBounds(bits, q);
    if m < l {
      OffMonotone(bits, m + 1, l);
    }
    var d := CodeAt(bits, q);
    if l < m {
      FirstAboveNext(bits, l, m);
      ShrShlAdd(Next(bits, l), 0, m - l);
      ShrMonotone(Shl(Next(bits, l), m - l), d, m - l);
    }
    ShrFits(d, l, m - l);
  }

  /** No code word is a prefix of another, and none is all ones. */
  lemma CodesArePrefixFree(bits: Counts, p: nat, q: nat)
    requires LegalTree(bits) && p < q < Size(bits)
    ensures !(CodeWord(bits, p) <= CodeWord(bits, q))
    ensures !(CodeWord(bits, q) <= CodeWord(bits, p))
  {
    hide LegalTree, LenAt, CodeAt, Pow2;
    var l, m := LenAt(bits, p), LenAt(bits, q);
    LaterCodeIsLarger(bits, p, q);
    ToBitsSplit(CodeAt(bits, q), l, m - l);
    var e := Shr(CodeAt(bits, q), m - l);
    if CodeWord(bits, p) <= CodeWord(bits, q) {
      assert ToBits(e, l) == CodeWord(bits, q)[..l] == CodeWord(bits, p);
      ToBitsInjective(CodeAt(bits, p), e, l);
    }
  }

  lemma NoCodeIsAllOnes(bits: Counts, p: nat)
    requires LegalTree(bits) && p < Size(bits)
    ensures CodeWord(bits, p) != Const(true, LenAt(bits, p))
  {
    LenAtBounds(bits, p);
    NotAllOnes(CodeAt(bits, p), LenAt(bits, p));
  }

  lemma {:induction false} ShrFits(x: nat, l: nat, k: nat)
    requires x < Pow2(l + k)
    ensures 0 <= Shr(x, k) < Pow2(l)
    decreases k
  {
    if k > 0 {
      ShrFits(x / 2, l, k - 1);
    }
  }

  lemma {:induction false} NotAllOnes(c: nat, l: nat)
    requires c < Pow2(l) - 1
    ensures ToBits(c, l) != Const(true, l)
    decreases l
  {
    if l > 0 {
      if c % 2 == 1 {
        NotAllOnes(c / 2, l - 1);
        assert Const(true, l)[..l - 1] == Const(true, l - 1);
        assert ToBits(c, l)[..l - 1] == ToBits(c / 2, l - 1);
      } else {
        assert ToBits(c, l)[l - 1] == false;
        assert Const(true, l)[l - 1] == true;
      }
    }
  }

  // ----- Figures C.1 and C.2: code lengths and codes (jchuff.c and jdhuff.c share this text)

  /** sizes and codes are the canonical ones, and the list of sizes ends with a zero. */
  ghost predicate AreCodes(bits: Counts, sizes: seq<nat>, codes: seq<nat>) {
    && |sizes| == Size(bits) + 1 && |codes| == Size(bits)
    && (forall p :: 0 <= p < Size(bits) ==> sizes[p] == LenAt(bits, p) && codes[p] == CodeAt(bits, p))
    && sizes[Size(bits)] == 0
  }

  method CodeSizes(bits: Counts) returns (r: Result<seq<nat>>)
    ensures r.Ok? <==> Size(bits) <= 256
    ensures r.Err? ==> r.error == BadHuffTable
    ensures r.Ok? ==> |r.value| == Size(bits) + 1 && r.value[Size(bits)] == 0
    ensures r.Ok? ==> forall p :: 0 <= p < Size(bits) ==> r.value[p] == LenAt(bits, p)
  {
    var huffsize := new nat[257](_ => 0);
    var p := 0;
    for l := 1 to 17
      invariant p == Off(bits, l) <= 256 && p <= Size(bits)
      invariant forall q :: 0 <= q < p ==> huffsize[q] == LenAt(bits, q)
    {
      var i := bits[l];
      assert Off(bits, l + 1) == p + i;
      OffMonotone(bits, l + 1, 17);
      if p + i > 256 {
        return Err(BadHuffTable);
      }
      while i > 0
        invariant 0 <= i <= bits[l] && p == Off(bits, l + 1) - i <= Size(bits)
        invariant forall q :: 0 <= q < p ==> huffsize[q] == LenAt(bits, q)
      {
        LenAtUnique(bits, p, l);
        huffsize[p] := l;
        p := p + 1;
        i := i - 1;
      }
    }
    huffsize[p] := 0;
    r := Ok(huffsize[..p + 1]);
  }

  /** The inner loop of Figure C.2: the codes of one length si, numbered upwards from code. */
  method CodesOfLength(bits: Counts, huffsize: seq<nat>, si: nat, huffcode: seq<nat>, code: nat)
    returns (huffcode': seq<nat>, code': nat)
    requires |huffsize| == Size(bits) + 1 && huffsize[Size(bits)] == 0
    requires forall p :: 0 <= p < Size(bits) ==> huffsize[p] == LenAt(bits, p)
    requires 1 <= si <= 16 && |huffcode| == Off(bits, si) && code == First(bits, si)
    ensures |huffcode'| == Off(bits, si + 1) && huffcode <= huffcode'
    ensures forall q :: Off(bits, si) <= q < Off(bits, si + 1) ==> huffcode'[q] == First(bits, si) + (q - Off(bits, si))
    ensures code' == Next(bits, si)
  {
    OffMonotone(bits, si + 1, 17);
    var p := |huffcode|;
    huffcode', code' := huffcode, code;
    while huffsize[p] == si
      invariant Off(bits, si) <= p == |huffcode'| <= Off(bits, si + 1)
      invariant huffcode <= huffcode'
      invariant code' == First(bits, si) + (p - Off(bits, si))
      invariant forall q :: Off(bits, si) <= q < p ==> huffcode'[q] == First(bits, si) + (q - Off(bits, si))
      decreases Off(bits, si + 1) - p
    {
      LenAtBounds(bits, p);
      huffcode' := huffcode' + [code'];
      p := p + 1;
      code' := code' + 1;
    }
    if p < Off(bits, si + 1) {
      LenAtUnique(bits, p, si);
    }
  }

  ghost predicate CodesUpTo(bits: Counts, huffcode: seq<nat>) {
    |huffcode| <= Size(bits) && forall q :: 0 <= q < |huffcode| ==> huffcode[q] == CodeAt(bits, q)
  }

  lemma ExtendCodes(bits: Counts, si: nat, huffcode: seq<nat>, huffcode': seq<nat>)
    requires 1 <= si <= 16 && |huffcode| == Off(bits, si) && |huffcode'| == Off(bits, si + 1) && huffcode <= huffcode'
    requires CodesUpTo(bits, huffcode)
    requires forall q :: Off(bits, si) <= q < Off(bits, si + 1) ==> huffcode'[q] == First(bits, si) + (q - Off(bits, si))
    ensures CodesUpTo(bits, huffcode')
  {
    OffMonotone(bits, si + 1, 17);
    forall q | 0 <= q < |huffcode'|
      ensures huffcode'[q] == CodeAt(bits, q)
    {
      if q < |huffcode| {
        assert huffcode'[q] == huffcode[q];
      } else {
        LenAtUnique(bits, q, si);
      }
    }
  }

  lemma NoShorterCodes(bits: Counts, s: nat, l: nat)
    requires 1 <= l < s <= 16 && Off(bits, s) == 0
    ensures Next(bits, l) < Pow2(l)
  {
    OffMonotone(bits, l, s);
    OffMonotone(bits, l + 1, s);
    FirstZero(bits, l);
  }

  ghost predicate LegalBelow(bits: Counts, s: nat)
    requires s <= 17
  {
    forall l :: 1 <= l < s ==> Next(bits, l) < Pow2(l)
  }

  lemma LegalNext(bits: Counts, s: nat)
    requires 1 <= s <= 16 && LegalBelow(bits, s) && Next(bits, s) < Pow2(s)
    ensures LegalBelow(bits, s + 1)
  {
  }

  method GenerateCodes(bits: Counts) returns (r: Result<(seq<nat>, seq<nat>)>)
    ensures r.Ok? <==> ValidCounts(bits)
    ensures r.Err? ==> r.error == BadHuffTable
    ensures r.Ok? ==> AreCodes(bits, r.value.0, r.value.1)
  {
    var huffsize :- CodeSizes(bits);
    var huffcode: seq<nat> := [];
    var code, si := 0, huffsize[0];
    if si == 0 {
      LegalIfEmptyTail(bits, 1);
      return Ok((huffsize, huffcode));
    }
    LenAtBounds(bits, 0);
    FirstZero(bits, si);
    forall l | 1 <= l < si
      ensures Next(bits, l) < Pow2(l)
    {
      NoShorterCodes(bits, si, l);
    }
    while huffsize[|huffcode|] != 0
      invariant 1 <= si <= 17 && |huffcode| == Off(bits, si) && code == First(bits, si)
      invariant LegalBelow(bits, si)
      invariant CodesUpTo(bits, huffcode)
      decreases 17 - si
    {
      LenAtBounds(bits, |huffcode|);
      if LenAt(bits, |huffcode|) < si {
        OffMonotone(bits, LenAt(bits, |huffcode|) + 1, si);
      }
      ghost var before := huffcode;
      huffcode, code := CodesOfLength(bits, huffsize, si, huffcode, code);
      ExtendCodes(bits, si, before, huffcode);
      if code >= Pow2(si) {
        return Err(BadHuffTable);
      }
      LegalNext(bits, si);
      code := 2 * code;
      si := si + 1;
    }
    LegalIfEmptyTail(bits, si);
    r := Ok((huffsize, huffcode));
  }

  lemma LegalIfEmptyTail(bits: Counts, s: nat)
    requires 1 <= s <= 17 && Off(bits, s) == Size(bits) && LegalBelow(bits, s)
    ensures LegalTree(bits)
  {
    forall l | s <= l <= 16
      ensures Next(bits, l) < Pow2(l)
    {
      EmptyTail(bits, s, l);
    }
  }

  /** Lengths beyond the last used one never break the tree. */
  lemma {:induction false} EmptyTail(bits: Counts, s: nat, l: nat)
    requires 1 <= s <= l <= 16 && Off(bits, s) == Size(bits)
    requires s > 1 ==> Next(bits, s - 1) < Pow2(s - 1)
    ensures Next(bits, l) < Pow2(l)
    decreases l
  {
    OffMonotone(bits, s, l);
    OffMonotone(bits, l + 1, 17);
    if l > s {
      EmptyTail(bits, s, l - 1);
    }
  }

  // ----- Figure C.3: encoding tables

  datatype RawCDerivedTbl = CDerivedTbl(ehufco: seq<nat>, ehufsi: seq<nat>)
  /** Code and size by symbol; size 0 marks a symbol without a code. */
  type CDerivedTbl = c: RawCDerivedTbl | |c.ehufco| == 256 && |c.ehufsi| == 256
    witness CDerivedTbl(seq(256, _ => 0), seq(256, _ => 0))

  function MaxSymbol(isDC: bool): nat {
    if isDC then 15 else 255
  }

  ghost predicate DistinctSymbols(h: HuffTbl, isDC: bool)
    requires Size(h.bits) <= 256
  {
    && (forall p :: 0 <= p < Size(h.bits) ==> h.huffval[p] <= MaxSymbol(isDC))
    && (forall p, q :: 0 <= p < q < Size(h.bits) ==> h.huffval[p] != h.huffval[q])
  }

  ghost predicate AcceptedByEncoder(h: HuffTbl, isDC: bool) {
    ValidCounts(h.bits) && DistinctSymbols(h, isDC)
  }

  /** The tables hold the code and size of the first n symbols, and size 0 for every other symbol. */
  ghost predicate CodesBySymbol(h: HuffTbl, n: nat, ehufco: seq<nat>, ehufsi: seq<nat>)
    requires n <= Size(h.bits) <= 256 && |ehufco| == 256 && |ehufsi| == 256
  {
    && (forall p :: 0 <= p < n ==>
        ehufsi[h.huffval[p]] == LenAt(h.bits, p) && ehufco[h.huffval[p]] == CodeAt(h.bits, p))
    && (forall s :: 0 <= s < 256 && s !in h.huffval[..n] ==> ehufsi[s] == 0)
  }

  lemma SetCode(h: HuffTbl, p: nat, ehufco: seq<nat>, ehufsi: seq<nat>)
    requires p < Size(h.bits) <= 256 && |ehufco| == 256 && |ehufsi| == 256
    requires CodesBySymbol(h, p, ehufco, ehufsi) && ehufsi[h.huffval[p]] == 0
    ensures CodesBySymbol(h, p + 1, ehufco[h.huffval[p] := CodeAt(h.bits, p)], ehufsi[h.huffval[p] := LenAt(h.bits, p)])
    ensures forall q :: 0 <= q < p ==> h.huffval[q] != h.huffval[p]
  {
    assert h.huffval[..p + 1] == h.huffval[..p] + [h.huffval[p]];
  }

  ghost predicate IsCDerived(h: HuffTbl, c: CDerivedTbl) {
    Size(h.bits) <= 256 && CodesBySymbol(h, Size(h.bits), c.ehufco, c.ehufsi)
  }

  method MakeCDerivedTbl(h: HuffTbl, isDC: bool) returns (r: Result<CDerivedTbl>)
    ensures r.Ok? <==> AcceptedByEncoder(h, isDC)
    ensures r.Err? ==> r.error == BadHuffTable
    ensures r.Ok? ==> IsCDerived(h, r.value)
  {
    var t :- GenerateCodes(h.bits);
    var (huffsize, huffcode) := t;
    var ehufco: seq<nat>, ehufsi: seq<nat> := seq(256, _ => 0), seq(256, _ => 0);
    for p := 0 to |huffcode|
      invariant |ehufco| == 256 && |ehufsi| == 256
      invariant CodesBySymbol(h, p, ehufco, ehufsi)
      invariant forall q :: 0 <= q < p ==> h.huffval[q] <= MaxSymbol(isDC)
      invariant forall q, q' :: 0 <= q < q' < p ==> h.huffval[q] != h.huffval[q']
    {
      var i: nat := h.huffval[p];
      if i > MaxSymbol(isDC) || ehufsi[i] != 0 {
        return Err(BadHuffTable);
      }
      SetCode(h, p, ehufco, ehufsi);
      ehufco := ehufco[i := huffcode[p]];
      ehufsi := ehufsi[i := huffsize[p]];
    }
    r := Ok(CDerivedTbl(ehufco, ehufsi));
  }

  // ----- Figure F.15 and the lookahead table: decoding tables

  const HUFF_LOOKAHEAD := 8
  const SENTINEL := 0xFFFFF

  datatype RawDDerivedTbl =
    DDerivedTbl(maxcode: seq<int>, valoffset: seq<int>, lookNbits: seq<nat>, lookSym: seq<byte>, pub: HuffTbl)
  type DDerivedTbl = d: RawDDerivedTbl |
      |d.maxcode| == 18 && |d.valoffset| == 17 && |d.lookNbits| == 256 && |d.lookSym| == 256
    witness DDerivedTbl(seq(18, _ => 0), seq(17, _ => 0), seq(256, _ => 0), seq(256, _ => 0),
                        HuffTbl(seq(17, _ => 0), seq(256, _ => 0)))

  /** Largest code of length l, -1 if there is none. */
  function MaxCode(bits: Counts, l: nat): int
    requires 1 <= l <= 16
  {
    if bits[l] > 0 then Next(bits, l) - 1 else -1
  }

  ghost predicate BitSerialTables(h: HuffTbl, d: DDerivedTbl) {
    d.pub == h && SerialUpTo(h.bits, 17, d.maxcode, d.valoffset) && d.maxcode[17] == SENTINEL
  }

  /** First 8-bit string at or above all codes of length below l, left-justified in 8 bits. */
  function LookStart(bits: Counts, l: nat): nat
    requires 1 <= l <= 8
  {
    Shl(First(bits, l), 8 - l)
  }

  function LookEnd(bits: Counts, l: nat): nat
    requires 1 <= l <= 8
  {
    Shl(Next(bits, l), 8 - l)
  }

  /** Entry `look` is right: it names the code that `look` starts with, or says that none is short enough. */
  ghost predicate LookEntry(h: HuffTbl, look: nat, nb: nat, sym: byte)
    requires Size(h.bits) <= 256
  {
    if nb == 0 then
      look >= LookEnd(h.bits, 8)
    else
      && nb <= 8
      && LookStart(h.bits, nb) <= look < LookEnd(h.bits, nb)
      && var p := Off(h.bits, nb) + (Shr(look, 8 - nb) - First(h.bits, nb));
         0 <= p < Size(h.bits) && sym == h.huffval[p]
  }

  ghost predicate IsLookup(h: HuffTbl, nbits: seq<nat>, sym: seq<byte>)
    requires Size(h.bits) <= 256 && |nbits| == 256 && |sym| == 256
  {
    forall look :: 0 <= look < 256 ==> LookEntry(h, look, nbits[look], sym[look])
  }

  ghost predicate IsDDerived(h: HuffTbl, d: DDerivedTbl) {
    && ValidCounts(h.bits)
    && BitSerialTables(h, d)
    && IsLookup(h, d.lookNbits, d.lookSym)
  }

  ghost predicate SymbolsFit(h: HuffTbl, n: nat, max: nat)
    requires n <= 256
  {
    forall p :: 0 <= p < n ==> h.huffval[p] <= max
  }

  ghost predicate AcceptedByDecoder(h: HuffTbl, isDC: bool) {
    ValidCounts(h.bits) && SymbolsFit(h, Size(h.bits), MaxSymbol(isDC))
  }

  lemma LookRange(bits: Counts, l: nat)
    requires LegalTree(bits) && 1 <= l <= 8
    ensures LookStart(bits, l) <= LookEnd(bits, l) < 256
  {
    var n := Next(bits, l);
    ShlMonotone(First(bits, l), n, 8 - l);
    ShlMonotone(n + 1, Pow2(l), 8 - l);
    ShlAdd(n, 1, 8 - l);
    ShlOfPow2(l, 8 - l);
    assert Pow2(8) == 256;
  }

  /** The 8-bit strings that start with codes of successive lengths follow each other without a gap. */
  lemma LookContiguous(bits: Counts, l: nat)
    requires 1 <= l < 8
    ensures LookStart(bits, l + 1) == LookEnd(bits, l)
  {
    ShlDouble(Next(bits, l), 7 - l);
  }

  /** The first k entries are filled in and say what LookEntry demands; the others are still zero. */
  ghost predicate LookFilled(h: HuffTbl, k: nat, nbits: seq<nat>, sym: seq<byte>)
    requires Size(h.bits) <= 256
  {
    && |nbits| == 256 && |sym| == 256 && k <= 256
    && (forall j :: 0 <= j < k ==> nbits[j] != 0 && LookEntry(h, j, nbits[j], sym[j]))
    && (forall j :: k <= j < 256 ==> nbits[j] == 0)
  }

  lemma LookBounds(bits: Counts, l: nat, code: nat, k: nat)
    requires LegalTree(bits) && 1 <= l <= 8 && First(bits, l) <= code < Next(bits, l)
    requires Shl(code, 8 - l) <= k < Shl(code + 1, 8 - l)
    ensures k < 256 && LookStart(bits, l) <= k < LookEnd(bits, l)
  {
    ShlMonotone(code + 1, Next(bits, l), 8 - l);
    ShlMonotone(First(bits, l), code, 8 - l);
    LookRange(bits, l);
  }

  lemma ShrInLook(l: nat, code: nat, k: nat)
    requires 1 <= l <= 8 && Shl(code, 8 - l) <= k < Shl(code + 1, 8 - l)
    ensures Shr(k, 8 - l) == code
  {
    ShlAdd(code, 1, 8 - l);
    ShlPow2(1, 8 - l);
    ShrShlAdd(code, k - Shl(code, 8 - l), 8 - l);
  }

  lemma NewLookEntry(h: HuffTbl, l: nat, p: nat, code: nat, k: nat)
    requires ValidCounts(h.bits) && 1 <= l <= 8 && Off(h.bits, l) <= p < Off(h.bits, l + 1)
    requires code == First(h.bits, l) + (p - Off(h.bits, l))
    requires Shl(code, 8 - l) <= k < Shl(code + 1, 8 - l)
    ensures k < 256 && p < 256 && LookEntry(h, k, l, h.huffval[p])
  {
    OffMonotone(h.bits, l + 1, 17);
    LookBounds(h.bits, l, code, k);
    ShrInLook(l, code, k);
  }

  lemma SetLookEntry(h: HuffTbl, l: nat, k: nat, s: byte, nbits: seq<nat>, sym: seq<byte>)
    requires Size(h.bits) <= 256 && LookFilled(h, k, nbits, sym)
    requires k < 256 && l > 0 && LookEntry(h, k, l, s)
    ensures LookFilled(h, k + 1, nbits[k := l], sym[k := s])
  {
    var nbits', sym' := nbits[k := l], sym[k := s];
    forall j | 0 <= j < k + 1
      ensures nbits'[j] != 0 && LookEntry(h, j, nbits'[j], sym'[j])
    {
    }
  }

  /** The codes of length l are numbered upwards from First(l). */
  ghost predicate Consecutive(bits: Counts, huffcode: seq<nat>, l: nat)
    requires 1 <= l <= 16
  {
    Off(bits, l + 1) <= |huffcode| &&
    forall q :: Off(bits, l) <= q < Off(bits, l + 1) ==> huffcode[q] == First(bits, l) + (q - Off(bits, l))
  }

  lemma CodesAreConsecutive(bits: Counts, huffcode: seq<nat>, l: nat)
    requires 1 <= l <= 16 && |huffcode| == Size(bits) && CodesUpTo(bits, huffcode)
    ensures Consecutive(bits, huffcode, l)
  {
    OffMonotone(bits, l + 1, 17);
    forall q | Off(bits, l) <= q < Off(bits, l + 1)
      ensures huffcode[q] == First(bits, l) + (q - Off(bits, l))
    {
      LenAtUnique(bits, q, l);
    }
  }

  /** The innermost lookahead loop: every 8-bit string that starts with the p'th code, of length l. */
  method FillOneCode(h: HuffTbl, l: nat, p: nat, code: nat, nbits: seq<nat>, sym: seq<byte>)
    returns (lookNbits: seq<nat>, lookSym: seq<byte>)
    requires ValidCounts(h.bits)
    requires 1 <= l <= 8 && Off(h.bits, l) <= p < Off(h.bits, l + 1)
    requires code == First(h.bits, l) + (p - Off(h.bits, l))
    requires LookFilled(h, Shl(code, 8 - l), nbits, sym)
    ensures LookFilled(h, Shl(code + 1, 8 - l), lookNbits, lookSym)
  {
    OffMonotone(h.bits, l + 1, 17);
    var lookbits := Shl(code, 8 - l);
    lookNbits, lookSym := nbits, sym;
    ShlAdd(code, 1, 8 - l);
    ShlPow2(1, 8 - l);
    var ctr := Shl(1, 8 - l);
    while ctr > 0
      invariant 0 <= ctr <= Pow2(8 - l)
      invariant lookbits == Shl(code, 8 - l) + (Pow2(8 - l) - ctr)
      invariant LookFilled(h, lookbits, lookNbits, lookSym)
    {
      NewLookEntry(h, l, p, code, lookbits);
      SetLookEntry(h, l, lookbits, h.huffval[p], lookNbits, lookSym);
      lookNbits := lookNbits[lookbits := l];
      lookSym := lookSym[lookbits := h.huffval[p]];
      lookbits := lookbits + 1;
      ctr := ctr - 1;
    }
  }

  /** The middle lookahead loop: all codes of length l. */
  method FillOneLength(h: HuffTbl, huffcode: seq<nat>, l: nat, nbits: seq<nat>, sym: seq<byte>)
    returns (lookNbits: seq<nat>, lookSym: seq<byte>)
    requires ValidCounts(h.bits) && 1 <= l <= 8 && Consecutive(h.bits, huffcode, l)
    requires LookFilled(h, LookStart(h.bits, l), nbits, sym)
    ensures LookFilled(h, LookEnd(h.bits, l), lookNbits, lookSym)
  {
    lookNbits, lookSym := nbits, sym;
    var p: nat := Off(h.bits, l);
    ghost var code := First(h.bits, l);
    for i := 1 to h.bits[l] as int + 1
      invariant p == Off(h.bits, l) + (i - 1) && code == First(h.bits, l) + (i - 1)
      invariant LookFilled(h, Shl(code, 8 - l), lookNbits, lookSym)
    {
      assert huffcode[p] == code;
      lookNbits, lookSym := FillOneCode(h, l, p, huffcode[p], lookNbits, lookSym);
      p := p + 1;
      code := code + 1;
    }
    assert code == Next(h.bits, l);
  }

  lemma LookupComplete(h: HuffTbl, nbits: seq<nat>, sym: seq<byte>)
    requires Size(h.bits) <= 256 && LookFilled(h, LookEnd(h.bits, 8), nbits, sym)
    ensures IsLookup(h, nbits, sym)
  {
  }

  method FillLookahead(h: HuffTbl, huffcode: seq<nat>) returns (lookNbits: seq<nat>, lookSym: seq<byte>)
    requires ValidCounts(h.bits)
    requires |huffcode| == Size(h.bits) && CodesUpTo(h.bits, huffcode)
    ensures |lookNbits| == 256 && |lookSym| == 256 && IsLookup(h, lookNbits, lookSym)
  {
    lookNbits, lookSym := seq(256, _ => 0), seq(256, _ => 0);
    assert LookStart(h.bits, 1) == 0 by { ShlPow2(0, 7); }
    ghost var filled := 0;
    for l := 1 to 9
      invariant l <= 8 ==> filled == LookStart(h.bits, l)
      invariant l == 9 ==> filled == LookEnd(h.bits, 8)
      invariant LookFilled(h, filled, lookNbits, lookSym)
    {
      CodesAreConsecutive(h.bits, huffcode, l);
      lookNbits, lookSym := FillOneLength(h, huffcode, l, lookNbits, lookSym);
      filled := LookEnd(h.bits, l);
      if l < 8 {
        LookContiguous(h.bits, l);
      }
    }
    LookupComplete(h, lookNbits, lookSym);
  }

  ghost predicate SerialUpTo(bits: Counts, n: nat, maxcode: seq<int>, valoffset: seq<int>)
    requires n <= 17
  {
    && |maxcode| == 18 && |valoffset| == 17
    && (forall l :: 1 <= l < n ==> maxcode[l] == MaxCode(bits, l))
    && (forall l :: 1 <= l < n && bits[l] > 0 ==> valoffset[l] == Off(bits, l) - First(bits, l))
  }

  lemma SetSerial(bits: Counts, l: nat, maxcode: seq<int>, valoffset: seq<int>, m: int, v: int)
    requires 1 <= l <= 16 && SerialUpTo(bits, l, maxcode, valoffset)
    requires m == MaxCode(bits, l) && (bits[l] > 0 ==> v == Off(bits, l) - First(bits, l))
    ensures SerialUpTo(bits, l + 1, maxcode[l := m], valoffset[l := v])
  {
  }

  /** Figure F.15: the tables for bit-serial decoding. */
  method FillBitSerial(bits: Counts, huffcode: seq<nat>) returns (maxcode: seq<int>, valoffset: seq<int>)
    requires |huffcode| == Size(bits) && CodesUpTo(bits, huffcode)
    ensures SerialUpTo(bits, 17, maxcode, valoffset) && maxcode[17] == SENTINEL
  {
    maxcode, valoffset := seq(18, _ => 0), seq(17, _ => 0);
    var p: nat := 0;
    for l := 1 to 17
      invariant p == Off(bits, l)
      invariant SerialUpTo(bits, l, maxcode, valoffset)
    {
      if bits[l] != 0 {
        OffMonotone(bits, l + 1, 17);
        LenAtUnique(bits, p, l);
        LenAtUnique(bits, p + bits[l] - 1, l);
        SetSerial(bits, l, maxcode, valoffset, huffcode[p + bits[l] - 1], p - huffcode[p]);
        valoffset := valoffset[l := p - huffcode[p]];
        p := p + bits[l];
        maxcode := maxcode[l := huffcode[p - 1]];
      } else {
        SetSerial(bits, l, maxcode, valoffset, -1, valoffset[l]);
        maxcode := maxcode[l := -1];
      }
    }
    maxcode := maxcode[17 := SENTINEL];
  }

  method AllDcSymbols(h: HuffTbl, numsymbols: nat) returns (ok: bool)
    requires numsymbols <= 256
    ensures ok <==> SymbolsFit(h, numsymbols, 15)
  {
    for i := 0 to numsymbols
      invariant SymbolsFit(h, i, 15)
    {
      var sym := h.huffval[i];
      if sym < 0 || sym > 15 {
        return false;
      }
    }
    return true;
  }

  method MakeDDerivedTbl(h: HuffTbl, isDC: bool) returns (r: Result<DDerivedTbl>)
    ensures r.Ok? <==> AcceptedByDecoder(h, isDC)
    ensures r.Err? ==> r.error == BadHuffTable
    ensures r.Ok? ==> IsDDerived(h, r.value)
  {
    var t :- GenerateCodes(h.bits);
    var (huffsize, huffcode) := t;
    var maxcode, valoffset := FillBitSerial(h.bits, huffcode);
    var lookNbits, lookSym := FillLookahead(h, huffcode);
    if isDC {
      var ok := AllDcSymbols(h, |huffcode|);
      if !ok {
        return Err(BadHuffTable);
      }
    }
    r := Ok(DDerivedTbl(maxcode, valoffset, lookNbits, lookSym, h));
  }
}
