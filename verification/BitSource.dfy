/**
 Reading bits of an entropy-coded segment (jdhuff.c and jdhuff.h) as functions on a value: the unread input bytes
 that are available, the bit buffer, the marker that stopped the segment (0 if none was met) and the
 insufficient_data flag and the count of warnings.  None means that the routine has to suspend for lack of input.
 */
module BitSource {
  import opened Bits
  import opened HuffmanTables
  import opened Wrappers

  const MIN_GET_BITS := 25

  datatype Source = Source(rest: seq<byte>, buf: seq<bool>, marker: byte, starved: bool, warnings: int)

  /** From s to t, no warning was issued and insufficient_data was not touched. */
  predicate Quiet(s: Source, t: Source) {
    t.starved == s.starved && t.warnings == s.warnings
  }

  function SkipFF(rest: seq<byte>): (r: seq<byte>)
    ensures |r| <= |rest|
    ensures r != [] ==> r[0] != 0xFF
  {
    if rest != [] && rest[0] == 0xFF then SkipFF(rest[1..]) else rest
  }

  // ----- jpeg_fill_bit_buffer, CHECK_BIT_BUFFER, GET_BITS

  /** One turn of the loading loop: a data byte enters the buffer, or the marker that ends the segment is met. */
  function LoadByte(s: Source): (r: Option<Source>)
    ensures r.Some? ==> |r.value.rest| < |s.rest| && s.buf <= r.value.buf && Quiet(s, r.value)
  {
    if s.rest == [] then None
    else if s.rest[0] != 0xFF then Some(s.(rest := s.rest[1..], buf := s.buf + ToBits(s.rest[0], 8)))
    else
      var t := SkipFF(s.rest[1..]);
      if t == [] then None
      else if t[0] == 0 then Some(s.(rest := t[1..], buf := s.buf + ToBits(0xFF, 8)))
      else Some(s.(rest := t[1..], marker := t[0]))
  }

  /** The loading loop: bytes enter the buffer until it holds 25 bits or a marker is met. */
  function Load(s: Source): (r: Option<Source>)
    ensures r.Some? ==> r.value.marker != 0 || |r.value.buf| >= MIN_GET_BITS
    decreases |s.rest|
  {
    if s.marker != 0 || |s.buf| >= MIN_GET_BITS then Some(s)
    else
      match LoadByte(s)
      case None => None
      case Some(t) => Load(t)
  }

  /** Past a marker, a request that cannot be met is met with zero bits. */
  function NoMoreBytes(s: Source, n: nat): Source
    requires n <= MIN_GET_BITS
  {
    if n > |s.buf| then
      s.(buf := s.buf + Const(false, MIN_GET_BITS - |s.buf|), starved := true,
           warnings := s.warnings + (if s.starved then 0 else 1))
    else s
  }

  function Fill(s: Source, n: nat): Option<Source>
    requires n <= MIN_GET_BITS
  {
    match Load(s)
    case None => None
    case Some(t) => Some(if t.marker != 0 then NoMoreBytes(t, n) else t)
  }

  function Need(s: Source, n: nat): Option<Source>
    requires n <= MIN_GET_BITS
  {
    if |s.buf| < n then Fill(s, n) else Some(s)
  }

  lemma NeedSize(s: Source, n: nat)
    requires n <= MIN_GET_BITS
    ensures Need(s, n).Some? ==> n <= |Need(s, n).value.buf|
  {
  }

  function Drop(s: Source, n: nat): Source
    requires n <= |s.buf|
  {
    s.(buf := s.buf[n..])
  }

  function GetBits(s: Source, n: nat): Option<(int, Source)>
    requires n <= MIN_GET_BITS
  {
    match Need(s, n)
    case None => None
    case Some(t) => Some((FromBits(t.buf[..n]), Drop(t, n)))
  }

  // ----- Huffman decoding: HUFF_DECODE and jpeg_huff_decode

  /** Past the codes of length l: the invariant of bit-serial decoding that keeps the huffval index in range. */
  lemma NotDecodedYet(bits: Counts, l: nat, code: nat)
    requires 1 <= l <= 16 && First(bits, l) <= code
    requires code > MaxCode(bits, l)
    ensures Next(bits, l) <= code
    ensures First(bits, l + 1) <= 2 * code
  {
  }

  lemma DecodedIndex(bits: Counts, l: nat, code: nat)
    requires ValidCounts(bits) && 1 <= l <= 16 && First(bits, l) <= code <= MaxCode(bits, l)
    ensures Off(bits, l) + (code - First(bits, l)) < Size(bits) <= 256
  {
    OffMonotone(bits, l + 1, 17);
  }

  lemma SentinelStops(code: nat)
    requires code < Pow2(17)
    ensures code <= SENTINEL
  {
    assert Pow2(9) == 512;
    assert Pow2(17) == 256 * Pow2(9);
  }

  /** The symbol of the code `code` of length l.  DecodedIndex shows that decoding never leaves huffval. */
  function Symbol(h: HuffTbl, l: nat, code: nat): byte
    requires 1 <= l <= 16
  {
    var i := Off(h.bits, l) + (code - First(h.bits, l));
    if 0 <= i < 256 then h.huffval[i] else 0
  }

  function Warn(s: Source): Source {
    s.(warnings := s.warnings + 1)
  }

  function AppendBit(code: nat, b: bool): nat {
    2 * code + (if b then 1 else 0)
  }

  /** The loop of jpeg_huff_decode: l bits have been read and have the value code. */
  function Collect(h: HuffTbl, s: Source, l: nat, code: nat): Option<(byte, Source)>
    requires 1 <= l <= 17
    decreases 17 - l
  {
    if l > 16 then Some((0, Warn(s)))
    else if code > MaxCode(h.bits, l) then
      match Need(s, 1)
      case None => None
      case Some(t) => Collect(h, Drop(t, 1), l + 1, AppendBit(code, t.buf[0]))
    else Some((Symbol(h, l, code), s))
  }

  /** Length of the code of at most 8 bits that the bits b start with, 0 if there is none. */
  function ShortLen(bits: Counts, b: seq<bool>, l: nat): (r: nat)
    requires |b| == 8 && 1 <= l <= 9
    ensures r != 0 ==> l <= r <= 8
    decreases 9 - l
  {
    if l == 9 then 0 else if FromBits(b[..l]) <= MaxCode(bits, l) then l else ShortLen(bits, b, l + 1)
  }

  lemma FromBitsSnoc(b: seq<bool>, l: nat)
    requires l < |b|
    ensures FromBits(b[..l + 1]) == AppendBit(FromBits(b[..l]), b[l])
  {
    assert b[..l + 1][..l] == b[..l];
  }

  /** jpeg_huff_decode, entered from HUFF_DECODE with the length the code is known to have at least. */
  function SlowDecode(h: HuffTbl, s: Source, l: nat): Option<(byte, Source)>
    requires 1 <= l <= 9
  {
    match Need(s, l)
    case None => None
    case Some(t) => Collect(h, Drop(t, l), l, FromBits(t.buf[..l]))
  }

  function HuffDecode(h: HuffTbl, s: Source): Option<(byte, Source)> {
    match (if |s.buf| < HUFF_LOOKAHEAD then Fill(s, 0) else Some(s))
    case None => None
    case Some(t) =>
      if |t.buf| < HUFF_LOOKAHEAD then SlowDecode(h, t, 1)
      else
        var l := ShortLen(h.bits, t.buf[..8], 1);
        if l != 0 then Some((Symbol(h, l, FromBits(t.buf[..l])), Drop(t, l))) else SlowDecode(h, t, 9)
  }

  // ----- What lies ahead: the bits up to the marker that ends the segment

  /** The bits left in the segment, the marker that ends it, and the bytes behind that marker. */
  datatype Ahead = Ahead(bits: seq<bool>, marker: byte, more: seq<byte>)

  function Prepend(b: seq<bool>, a: Option<Ahead>): Option<Ahead> {
    match a
    case None => None
    case Some(x) => Some(x.(bits := b + x.bits))
  }

  function Parse(rest: seq<byte>): (r: Option<Ahead>)
    ensures r.Some? ==> r.value.marker != 0
    decreases |rest|
  {
    if rest == [] then None
    else if rest[0] != 0xFF then Prepend(ToBits(rest[0], 8), Parse(rest[1..]))
    else
      var t := SkipFF(rest[1..]);
      if t == [] then None
      else if t[0] == 0 then Prepend(ToBits(0xFF, 8), Parse(t[1..]))
      else Some(Ahead([], t[0], t[1..]))
  }

  function Lookahead(s: Source): Option<Ahead> {
    if s.marker != 0 then Some(Ahead(s.buf, s.marker, s.rest)) else Prepend(s.buf, Parse(s.rest))
  }

  lemma PrependTwice(a: seq<bool>, b: seq<bool>, x: Option<Ahead>)
    ensures Prepend(a, Prepend(b, x)) == Prepend(a + b, x)
  {
    if x.Some? {
      assert a + (b + x.value.bits) == (a + b) + x.value.bits;
    }
  }

  lemma LoadByteKeepsAhead(s: Source)
    requires s.marker == 0 && Lookahead(s).Some?
    ensures LoadByte(s).Some? && Lookahead(LoadByte(s).value) == Lookahead(s)
  {
    if s.rest[0] != 0xFF {
      PrependTwice(s.buf, ToBits(s.rest[0], 8), Parse(s.rest[1..]));
    } else {
      var t := SkipFF(s.rest[1..]);
      if t[0] == 0 {
        PrependTwice(s.buf, ToBits(0xFF, 8), Parse(t[1..]));
      } else {
        assert s.buf + [] == s.buf;
      }
    }
  }

  lemma {:induction false} LoadKeepsAhead(s: Source)
    requires Lookahead(s).Some?
    ensures Load(s).Some? && Lookahead(Load(s).value) == Lookahead(s)
    ensures s.buf <= Load(s).value.buf && Quiet(s, Load(s).value)
    decreases |s.rest|
  {
    if s.marker == 0 && |s.buf| < MIN_GET_BITS {
      LoadByteKeepsAhead(s);
      LoadKeepsAhead(LoadByte(s).value);
    }
  }

  lemma {:induction false} LoadKeepsPrefix(s: Source)
    requires Load(s).Some?
    ensures s.buf <= Load(s).value.buf && Quiet(s, Load(s).value)
    decreases |s.rest|
  {
    if s.marker == 0 && |s.buf| < MIN_GET_BITS {
      LoadKeepsPrefix(LoadByte(s).value);
    }
  }

  lemma NeedPrefix(s: Source, n: nat)
    requires n <= MIN_GET_BITS && Need(s, n).Some?
    ensures s.buf <= Need(s, n).value.buf && n <= |Need(s, n).value.buf|
  {
    if |s.buf| < n {
      LoadKeepsPrefix(s);
    }
  }

  lemma DropAhead(s: Source, n: nat)
    requires Lookahead(s).Some? && n <= |s.buf|
    ensures Lookahead(Drop(s, n)) == Some(Lookahead(s).value.(bits := Lookahead(s).value.bits[n..]))
  {
    var a := Lookahead(s).value;
    assert a.bits[n..] == s.buf[n..] + a.bits[|s.buf|..];
    if s.marker != 0 {
      assert s.buf[n..] + a.bits[|s.buf|..] == s.buf[n..];
    } else {
      assert a.bits[|s.buf|..] == Parse(s.rest).value.bits;
    }
  }

  /** As long as the segment has the bits, reading neither suspends nor sets insufficient_data. */
  lemma NeedExact(s: Source, n: nat)
    requires n <= MIN_GET_BITS && Lookahead(s).Some? && n <= |Lookahead(s).value.bits|
    ensures Need(s, n).Some?
    ensures var t := Need(s, n).value;
      Lookahead(t) == Lookahead(s) && n <= |t.buf| && Quiet(s, t) && t.buf[..n] == Lookahead(s).value.bits[..n]
  {
    if |s.buf| < n {
      LoadKeepsAhead(s);
    }
  }

  lemma FillZeroExact(s: Source)
    requires Lookahead(s).Some?
    ensures Fill(s, 0).Some?
    ensures var t := Fill(s, 0).value; Lookahead(t) == Lookahead(s) && Quiet(s, t) && s.buf <= t.buf
    ensures |Fill(s, 0).value.buf| < MIN_GET_BITS ==> Fill(s, 0).value.marker != 0
  {
    LoadKeepsAhead(s);
  }

  lemma GetBitsExact(s: Source, n: nat)
    requires n <= MIN_GET_BITS && Lookahead(s).Some? && n <= |Lookahead(s).value.bits|
    ensures GetBits(s, n).Some?
    ensures var a := Lookahead(s).value;
      var (v, t) := GetBits(s, n).value;
      v == FromBits(a.bits[..n]) && Lookahead(t) == Some(a.(bits := a.bits[n..])) && Quiet(s, t)
  {
    NeedExact(s, n);
    DropAhead(Need(s, n).value, n);
  }

  // ----- The fast decoder is the bit-serial one

  /** Figure F.16, on a bit string: the length and the symbol of the code at its start; 17 and 0 for garbage. */
  function Serial(h: HuffTbl, b: seq<bool>, l: nat): (nat, byte)
    requires |b| >= 17 && 1 <= l <= 17
    decreases 17 - l
  {
    if l > 16 then (17, 0)
    else if FromBits(b[..l]) > MaxCode(h.bits, l) then Serial(h, b, l + 1)
    else (l, Symbol(h, l, FromBits(b[..l])))
  }

  /** s is s0, which had a ahead of it, with c bits consumed and, if those are not there, k > 0 zero bits added. */
  ghost predicate Consumed(s: Source, a: Ahead, s0: Source, c: nat, k: nat) {
    && c <= |a.bits| + k
    && Lookahead(s) == Some(a.(bits := (a.bits + Const(false, k))[c..]))
    && (if k == 0 then Quiet(s0, s)
        else
          && s.starved && s.warnings == s0.warnings + (if s0.starved then 0 else 1)
          && 17 <= |a.bits| + k && |a.bits| < 17)
  }

  function View(a: Ahead): (b: seq<bool>)
    ensures |b| >= 17
  {
    a.bits + Const(false, 17)
  }

  lemma ConsumedPrefix(s: Source, a: Ahead, s0: Source, c: nat, k: nat, n: nat)
    requires Consumed(s, a, s0, c, k) && n <= |s.buf| && c + n <= 17
    ensures s.buf[..n] == View(a)[c..c + n]
  {
    var x := Lookahead(s).value.bits;
    assert s.buf <= x;
    forall i | 0 <= i < n
      ensures s.buf[i] == View(a)[c + i]
    {
      assert s.buf[i] == x[i] == (a.bits + Const(false, k))[c + i];
    }
  }

  lemma NeedConsumed(s: Source, a: Ahead, s0: Source, c: nat, k: nat, n: nat) returns (k': nat)
    requires Consumed(s, a, s0, c, k) && 1 <= n && c + n <= 17
    ensures Need(s, n).Some? && Consumed(Need(s, n).value, a, s0, c, k')
    ensures n <= |Need(s, n).value.buf|
    ensures k' > 0 <==> k > 0 || c + n > |a.bits|
  {
    var x := Lookahead(s).value;
    if n <= |x.bits| {
      NeedExact(s, n);
      k' := k;
    } else {
      LoadKeepsAhead(s);
      var t := Load(s).value;
      assert t.marker != 0 && t.buf == a.bits[c..];
      k' := MIN_GET_BITS - |t.buf|;
      assert Need(s, n).value.buf == t.buf + Const(false, k') == (a.bits + Const(false, k'))[c..];
    }
  }

  lemma DropConsumed(s: Source, a: Ahead, s0: Source, c: nat, k: nat, n: nat)
    requires Consumed(s, a, s0, c, k) && n <= |s.buf|
    ensures Consumed(Drop(s, n), a, s0, c + n, k)
  {
    DropAhead(s, n);
  }

  lemma ReadBitConsumed(s: Source, a: Ahead, s0: Source, c: nat, k: nat) returns (k': nat)
    requires Consumed(s, a, s0, c, k) && c < 17
    ensures Need(s, 1).Some? && |Need(s, 1).value.buf| > 0 && Need(s, 1).value.buf[0] == View(a)[c]
    ensures Consumed(Drop(Need(s, 1).value, 1), a, s0, c + 1, k')
    ensures k' > 0 <==> k > 0 || c + 1 > |a.bits|
  {
    k' := NeedConsumed(s, a, s0, c, k, 1);
    var t := Need(s, 1).value;
    ConsumedPrefix(t, a, s0, c, k', 1);
    assert t.buf[0] == t.buf[..1][0] == View(a)[c..c + 1][0];
    DropConsumed(t, a, s0, c, k', 1);
  }

  /** r is the decoder's result for a code of length and symbol ls at the start of a. */
  ghost predicate Agrees(r: Option<(byte, Source)>, ls: (nat, byte), a: Ahead, s0: Source, k: nat) {
    && r.Some? && r.value.0 == ls.1
    && Consumed(r.value.1.(warnings := r.value.1.warnings - (if ls.0 > 16 then 1 else 0)), a, s0, ls.0, k)
    && (k > 0 <==> ls.0 > |a.bits|)
  }

  lemma {:induction false} CollectIsSerial(h: HuffTbl, s: Source, a: Ahead, s0: Source, l: nat, code: nat, k: nat)
    returns (k': nat)
    requires 1 <= l <= 17 && Consumed(s, a, s0, l, k) && code == FromBits(View(a)[..l])
    requires k > 0 <==> l > |a.bits|
    ensures Agrees(Collect(h, s, l, code), Serial(h, View(a), l), a, s0, k')
    decreases 17 - l
  {
    if l <= 16 && code > MaxCode(h.bits, l) {
      FromBitsSnoc(View(a), l);
      k' := ReadBitConsumed(s, a, s0, l, k);
      var t := Need(s, 1).value;
      var code' := AppendBit(code, t.buf[0]);
      k' := CollectIsSerial(h, Drop(t, 1), a, s0, l + 1, code', k');
      assert Collect(h, s, l, code) == Collect(h, Drop(t, 1), l + 1, code');
      assert Serial(h, View(a), l) == Serial(h, View(a), l + 1);
    } else {
      k' := k;
    }
  }

  lemma {:induction false} ShortIsSerial(h: HuffTbl, b: seq<bool>, v: seq<bool>, l: nat)
    requires |b| == 8 && |v| >= 17 && b == v[..8] && 1 <= l <= 9
    ensures var r := ShortLen(h.bits, b, l);
      Serial(h, v, l) == if r == 0 then Serial(h, v, 9) else (r, Symbol(h, r, FromBits(v[..r])))
    decreases 9 - l
  {
    if l < 9 {
      assert b[..l] == v[..l];
      ShortIsSerial(h, b, v, l + 1);
    }
  }

  /**
   HUFF_DECODE with its 8-bit lookahead returns, from every state of the buffer, the symbol that reading bit by bit
   from length 1 returns, and consumes the same bits; bits beyond the end of the segment read as zero and are the
   only ones that set insufficient_data.
   */
  lemma HuffDecodeIsSerial(h: HuffTbl, s: Source) returns (k: nat)
    requires Lookahead(s).Some?
    ensures Agrees(HuffDecode(h, s), Serial(h, View(Lookahead(s).value), 1), Lookahead(s).value, s, k)
  {
    var a := Lookahead(s).value;
    if |s.buf| < HUFF_LOOKAHEAD {
      FillZeroExact(s);
    }
    var t := if |s.buf| < HUFF_LOOKAHEAD then Fill(s, 0).value else s;
    assert Consumed(t, a, s, 0, 0) by { assert a.bits + [] == a.bits; }
    if |t.buf| < HUFF_LOOKAHEAD {
      k := SlowIsSerial(h, t, a, s, 1);
    } else {
      k := FastIsSerial(h, t, a, s);
    }
  }

  lemma SlowIsSerial(h: HuffTbl, t: Source, a: Ahead, s0: Source, l: nat) returns (k: nat)
    requires Consumed(t, a, s0, 0, 0) && 1 <= l <= 9
    ensures Agrees(SlowDecode(h, t, l), Serial(h, View(a), l), a, s0, k)
  {
    k := NeedConsumed(t, a, s0, 0, 0, l);
    var u := Need(t, l).value;
    hide Consumed, Need, Serial, Collect;
    ConsumedPrefix(u, a, s0, 0, k, l);
    DropConsumed(u, a, s0, 0, k, l);
    var code := FromBits(View(a)[..l]);
    k := CollectIsSerial(h, Drop(u, l), a, s0, l, code, k);
    assert SlowDecode(h, t, l) == Collect(h, Drop(u, l), l, code);
  }

  /** The case in which the lookahead table can be consulted. */
  lemma FastIsSerial(h: HuffTbl, t: Source, a: Ahead, s0: Source) returns (k: nat)
    requires Consumed(t, a, s0, 0, 0) && |t.buf| >= 8
    ensures Agrees(HuffDecode(h, t), Serial(h, View(a), 1), a, s0, k)
  {
    ConsumedPrefix(t, a, s0, 0, 0, 8);
    ShortIsSerial(h, t.buf[..8], View(a), 1);
    var l := ShortLen(h.bits, t.buf[..8], 1);
    if l != 0 {
      k := 0;
      DropConsumed(t, a, s0, 0, 0, l);
      assert t.buf[..l] == t.buf[..8][..l] == View(a)[..l];
      assert |a.bits| >= 8;
    } else {
      k := SlowIsSerial(h, t, a, s0, 9);
      assert HuffDecode(h, t) == SlowDecode(h, t, 9);
    }
  }

  // ----- Decoding inverts encoding

  lemma CodeWordPrefix(bits: Counts, p: nat, l: nat)
    requires LegalTree(bits) && p < Size(bits) && l <= LenAt(bits, p)
    ensures FromBits(CodeWord(bits, p)[..l]) == Shr(CodeAt(bits, p), LenAt(bits, p) - l)
  {
    var m, c := LenAt(bits, p), CodeAt(bits, p);
    LenAtBounds(bits, p);
    ToBitsSplit(c, l, m - l);
    assert CodeWord(bits, p)[..l] == ToBits(Shr(c, m - l), l);
    ShrFits(c, l, m - l);
    FromToBits(Shr(c, m - l), l);
    MaskSmall(Shr(c, m - l), l);
  }

  lemma ShorterIsNoCode(bits: Counts, p: nat, l: nat)
    requires LegalTree(bits) && p < Size(bits) && 1 <= l < LenAt(bits, p)
    ensures MaxCode(bits, l) < FromBits(CodeWord(bits, p)[..l])
  {
    var m, c := LenAt(bits, p), CodeAt(bits, p);
    CodeWordPrefix(bits, p, l);
    LenAtBounds(bits, p);
    hide Shl, Shr, FromBits, LenAt, CodeAt, CodeWord, LegalTree;
    FirstAboveNext(bits, l, m);
    ShrShlAdd(Next(bits, l), 0, m - l);
    ShrMonotone(Shl(Next(bits, l), m - l), c, m - l);
  }

  lemma LastIsCode(h: HuffTbl, p: nat)
    requires ValidCounts(h.bits) && p < Size(h.bits)
    ensures var m := LenAt(h.bits, p);
      CodeAt(h.bits, p) <= MaxCode(h.bits, m) && Symbol(h, m, CodeAt(h.bits, p)) == h.huffval[p]
  {
    LenAtBounds(h.bits, p);
  }

  lemma SerialGoesOn(h: HuffTbl, p: nat, b: seq<bool>, l: nat)
    requires ValidCounts(h.bits) && p < Size(h.bits) && |b| >= 17
    requires CodeWord(h.bits, p) <= b && 1 <= l < LenAt(h.bits, p)
    ensures Serial(h, b, l) == Serial(h, b, l + 1)
  {
    hide LegalTree, CodeAt;
    ShorterIsNoCode(h.bits, p, l);
    assert b[..l] == CodeWord(h.bits, p)[..l];
  }

  lemma SerialEnds(h: HuffTbl, p: nat, b: seq<bool>)
    requires ValidCounts(h.bits) && p < Size(h.bits) && |b| >= 17 && CodeWord(h.bits, p) <= b
    ensures Serial(h, b, LenAt(h.bits, p)) == (LenAt(h.bits, p), h.huffval[p])
  {
    hide LegalTree;
    var m := LenAt(h.bits, p);
    CodeWordPrefix(h.bits, p, m);
    LastIsCode(h, p);
    assert b[..m] == CodeWord(h.bits, p)[..m];
  }

  lemma {:induction false} SerialFindsCode(h: HuffTbl, p: nat, b: seq<bool>, l: nat)
    requires ValidCounts(h.bits) && p < Size(h.bits) && |b| >= 17
    requires CodeWord(h.bits, p) <= b && 1 <= l <= LenAt(h.bits, p)
    ensures Serial(h, b, l) == (LenAt(h.bits, p), h.huffval[p])
    decreases 17 - l
  {
    hide Serial, CodeWord, ValidCounts;
    if l < LenAt(h.bits, p) {
      SerialGoesOn(h, p, b, l);
      SerialFindsCode(h, p, b, l + 1);
    } else {
      SerialEnds(h, p, b);
    }
  }

  /** The decoder tables invert the encoder tables: a code word is read back as its symbol, and nothing else is. */
  lemma DecodeInvertsEncode(h: HuffTbl, p: nat, s: Source, w: seq<bool>)
    requires ValidCounts(h.bits) && p < Size(h.bits)
    requires Lookahead(s).Some? && Lookahead(s).value.bits == CodeWord(h.bits, p) + w
    ensures HuffDecode(h, s).Some?
    ensures var (sym, t) := HuffDecode(h, s).value;
      sym == h.huffval[p] && Lookahead(t) == Some(Lookahead(s).value.(bits := w)) && Quiet(s, t)
  {
    var a := Lookahead(s).value;
    assert CodeWord(h.bits, p) <= View(a);
    SerialFindsCode(h, p, View(a), 1);
    var k := HuffDecodeIsSerial(h, s);
    assert (a.bits + Const(false, 0))[LenAt(h.bits, p)..] == w;
  }

  // ----- Suspension: more input never changes what was already decided

  function Extend(s: Source, more: seq<byte>): Source {
    s.(rest := s.rest + more)
  }

  function ExtendResult<T>(r: (T, Source), more: seq<byte>): (T, Source) {
    (r.0, Extend(r.1, more))
  }

  lemma {:induction false} SkipFFExtend(rest: seq<byte>, more: seq<byte>)
    requires SkipFF(rest) != []
    ensures SkipFF(rest + more) == SkipFF(rest) + more
  {
    if rest[0] == 0xFF {
      assert (rest + more)[1..] == rest[1..] + more;
      SkipFFExtend(rest[1..], more);
    }
  }

  lemma LoadByteExtend(s: Source, more: seq<byte>)
    requires LoadByte(s).Some?
    ensures LoadByte(Extend(s, more)) == Some(Extend(LoadByte(s).value, more))
  {
    hide ToBits;
    assert (s.rest + more)[1..] == s.rest[1..] + more;
    if s.rest[0] == 0xFF {
      var t := SkipFF(s.rest[1..]);
      SkipFFExtend(s.rest[1..], more);
      assert (t + more)[1..] == t[1..] + more;
    }
  }

  lemma {:induction false} LoadExtend(s: Source, more: seq<byte>)
    requires Load(s).Some?
    ensures Load(Extend(s, more)) == Some(Extend(Load(s).value, more))
    decreases |s.rest|
  {
    if s.marker == 0 && |s.buf| < MIN_GET_BITS {
      LoadByteExtend(s, more);
      LoadExtend(LoadByte(s).value, more);
    }
  }

  lemma NeedExtend(s: Source, n: nat, more: seq<byte>)
    requires n <= MIN_GET_BITS && Need(s, n).Some?
    ensures Need(Extend(s, more), n) == Some(Extend(Need(s, n).value, more))
  {
    if |s.buf| < n {
      LoadExtend(s, more);
    }
  }

  lemma GetBitsExtend(s: Source, n: nat, more: seq<byte>)
    requires n <= MIN_GET_BITS && GetBits(s, n).Some?
    ensures GetBits(Extend(s, more), n) == Some(ExtendResult(GetBits(s, n).value, more))
  {
    NeedExtend(s, n, more);
  }

  lemma {:induction false} CollectExtend(h: HuffTbl, s: Source, l: nat, code: nat, more: seq<byte>)
    requires 1 <= l <= 17 && Collect(h, s, l, code).Some?
    ensures Collect(h, Extend(s, more), l, code) == Some(ExtendResult(Collect(h, s, l, code).value, more))
    decreases 17 - l
  {
    if l <= 16 && code > MaxCode(h.bits, l) {
      NeedExtend(s, 1, more);
      var t := Need(s, 1).value;
      CollectExtend(h, Drop(t, 1), l + 1, AppendBit(code, t.buf[0]), more);
    }
  }

  lemma SlowExtend(h: HuffTbl, s: Source, l: nat, more: seq<byte>)
    requires 1 <= l <= 9 && SlowDecode(h, s, l).Some?
    ensures SlowDecode(h, Extend(s, more), l) == Some(ExtendResult(SlowDecode(h, s, l).value, more))
  {
    NeedExtend(s, l, more);
    var t := Need(s, l).value;
    CollectExtend(h, Drop(t, l), l, FromBits(t.buf[..l]), more);
  }

  lemma HuffDecodeExtend(h: HuffTbl, s: Source, more: seq<byte>)
    requires HuffDecode(h, s).Some?
    ensures HuffDecode(h, Extend(s, more)) == Some(ExtendResult(HuffDecode(h, s).value, more))
  {
    if |s.buf| < HUFF_LOOKAHEAD {
      LoadExtend(s, more);
    }
    var t := if |s.buf| < HUFF_LOOKAHEAD then Fill(s, 0).value else s;
    if |t.buf| < HUFF_LOOKAHEAD {
      SlowExtend(h, t, 1, more);
    } else if ShortLen(h.bits, t.buf[..8], 1) == 0 {
      SlowExtend(h, t, 9, more);
    }
  }

  // ----- Once a marker has stopped the segment, nothing can suspend and no byte is consumed

  /** t is s after some reading: insufficient_data stays set, and a marker that was met stays where it is. */
  ghost predicate Onward(s: Source, t: Source) {
    && (s.starved ==> t.starved) && s.warnings <= t.warnings
    && (s.marker != 0 ==> t.marker == s.marker && t.rest == s.rest)
  }

  lemma {:induction false} LoadOnward(s: Source)
    ensures s.marker != 0 ==> Load(s) == Some(s)
    ensures Load(s).Some? ==> Quiet(s, Load(s).value)
    decreases |s.rest|
  {
    if s.marker == 0 && |s.buf| < MIN_GET_BITS {
      match LoadByte(s)
      case None =>
      case Some(t) => LoadOnward(t);
    }
  }

  lemma NeedOnward(s: Source, n: nat)
    requires n <= MIN_GET_BITS
    ensures s.marker != 0 ==> Need(s, n).Some?
    ensures Need(s, n).Some? ==> Onward(s, Need(s, n).value) && |Need(s, n).value.buf| >= n
  {
    hide Load;
    LoadOnward(s);
    LoadSize(s);
  }

  lemma LoadSize(s: Source)
    ensures Load(s).Some? ==> Load(s).value.marker != 0 || |Load(s).value.buf| >= MIN_GET_BITS
  {
  }

  lemma GetBitsOnward(s: Source, n: nat)
    requires n <= MIN_GET_BITS
    ensures s.marker != 0 ==> GetBits(s, n).Some?
    ensures GetBits(s, n).Some? ==> Onward(s, GetBits(s, n).value.1)
  {
    hide Need;
    NeedOnward(s, n);
  }

  lemma {:induction false} CollectOnward(h: HuffTbl, s: Source, l: nat, code: nat)
    requires 1 <= l <= 17
    ensures s.marker != 0 ==> Collect(h, s, l, code).Some?
    ensures Collect(h, s, l, code).Some? ==> Onward(s, Collect(h, s, l, code).value.1)
    decreases 17 - l
  {
    hide Need, MaxCode, Symbol;
    if l <= 16 && code > MaxCode(h.bits, l) {
      NeedOnward(s, 1);
      match Need(s, 1)
      case None =>
      case Some(t) => CollectOnward(h, Drop(t, 1), l + 1, AppendBit(code, t.buf[0]));
    }
  }

  lemma SlowOnward(h: HuffTbl, s: Source, l: nat)
    requires 1 <= l <= 9
    ensures s.marker != 0 ==> SlowDecode(h, s, l).Some?
    ensures SlowDecode(h, s, l).Some? ==> Onward(s, SlowDecode(h, s, l).value.1)
  {
    hide Need, Collect;
    NeedOnward(s, l);
    match Need(s, l)
    case None =>
    case Some(t) => CollectOnward(h, Drop(t, l), l, FromBits(t.buf[..l]));
  }

  lemma HuffDecodeOnward(h: HuffTbl, s: Source)
    ensures s.marker != 0 ==> HuffDecode(h, s).Some?
    ensures HuffDecode(h, s).Some? ==> Onward(s, HuffDecode(h, s).value.1)
  {
    hide Load, SlowDecode, ShortLen, Symbol;
    LoadOnward(s);
    var t := if |s.buf| < HUFF_LOOKAHEAD && Fill(s, 0).Some? then Fill(s, 0).value else s;
    SlowOnward(h, t, 1);
    SlowOnward(h, t, 9);
  }
}
