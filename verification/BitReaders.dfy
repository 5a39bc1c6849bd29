/**
 The working state of bit reading (jdhuff.c and jdhuff.h): jpeg_fill_bit_buffer, GET_BITS, HUFF_DECODE with its
 lookahead table and jpeg_huff_decode, step by step, and the proof that they are the functions of module BitSource.
 */
module BitReaders {
  import opened Bits
  import opened Wrappers
  import opened HuffmanTables
  import opened BitSource

  // ----- The bit buffer: the low bitsLeft bits of get_buffer

  function Held(getBuffer: nat, bitsLeft: nat): seq<bool> {
    ToBits(getBuffer, bitsLeft)
  }

  /** One more byte is shifted in from the right. */
  lemma ShiftIn(getBuffer: nat, bitsLeft: nat, c: byte)
    requires bitsLeft + 8 <= 32
    ensures Held(Mask(Shl(getBuffer, 8) + c, 32), bitsLeft + 8) == Held(getBuffer, bitsLeft) + ToBits(c, 8)
  {
    hide ToBits, Mask, Shl, Pow2;
    EightBits();
    ToBitsMask(Shl(getBuffer, 8) + c, 32, bitsLeft + 8);
    ToBitsConcat(getBuffer, c, bitsLeft, 8);
  }

  lemma EightBits()
    ensures Pow2(8) == 256
  {
  }

  /** Zero bits are shifted in from the right. */
  lemma ShiftInZeros(getBuffer: nat, bitsLeft: nat, n: nat)
    requires bitsLeft + n <= 32
    ensures Held(Mask(Shl(getBuffer, n), 32), bitsLeft + n) == Held(getBuffer, bitsLeft) + Const(false, n)
  {
    ToBitsMask(Shl(getBuffer, n), 32, bitsLeft + n);
    ToBitsConcat(getBuffer, 0, bitsLeft, n);
    ToBitsZero(n);
  }

  /** PEEK_BITS and what is left behind the bits. */
  lemma TopBits(getBuffer: nat, bitsLeft: nat, n: nat)
    requires n <= bitsLeft
    ensures Mask(Shr(getBuffer, bitsLeft - n), n) == FromBits(Held(getBuffer, bitsLeft)[..n])
    ensures Held(getBuffer, bitsLeft - n) == Held(getBuffer, bitsLeft)[n..]
  {
    ToBitsSplit(getBuffer, n, bitsLeft - n);
    FromToBits(Shr(getBuffer, bitsLeft - n), n);
  }

  // ----- The lookahead table says what ShortLen computes

  lemma PrefixOfLook(b: seq<bool>, l: nat)
    requires |b| == 8 && 1 <= l <= 8
    ensures FromBits(b[..l]) == Shr(FromBits(b), 8 - l)
  {
    var look := FromBits(b);
    ToFromBits(b);
    ToBitsSplit(look, l, 8 - l);
    assert ToBits(look, 8)[..l] == ToBits(Shr(look, 8 - l), l);
    FromToBits(Shr(look, 8 - l), l);
    ShrFits(look, l, 8 - l);
    MaskSmall(Shr(look, 8 - l), l);
  }

  lemma {:induction false} LookStartsFollow(bits: Counts, l: nat, m: nat)
    requires 1 <= l < m <= 8
    ensures LookEnd(bits, l) <= LookStart(bits, m)
    decreases m
  {
    LookContiguous(bits, m - 1);
    if l < m - 1 {
      LookStartsFollow(bits, l, m - 1);
      ShlMonotone(First(bits, m - 1), Next(bits, m - 1), 8 - (m - 1));
    }
  }

  /** At or above the codes of length l, a string does not start with one of them. */
  lemma NoCodeOfLength(bits: Counts, b: seq<bool>, l: nat)
    requires |b| == 8 && 1 <= l <= 8 && FromBits(b) >= LookEnd(bits, l)
    ensures FromBits(b[..l]) > MaxCode(bits, l)
    ensures FromBits(b[..l]) >= Next(bits, l)
  {
    PrefixOfLook(b, l);
    ShrMonotone(LookEnd(bits, l), FromBits(b), 8 - l);
    ShrShlAdd(Next(bits, l), 0, 8 - l);
  }

  lemma CodeOfLength(bits: Counts, b: seq<bool>, l: nat)
    requires |b| == 8 && 1 <= l <= 8 && LookStart(bits, l) <= FromBits(b) < LookEnd(bits, l)
    ensures First(bits, l) <= FromBits(b[..l]) <= MaxCode(bits, l)
  {
    PrefixOfLook(b, l);
    var x := Shr(FromBits(b), 8 - l);
    ShrMonotone(LookStart(bits, l), FromBits(b), 8 - l);
    ShrShlAdd(First(bits, l), 0, 8 - l);
    ShrBounds(FromBits(b), 8 - l);
    if x >= Next(bits, l) {
      ShlMonotone(Next(bits, l), x, 8 - l);
    }
  }

  lemma {:induction false} ShortLenIs(bits: Counts, b: seq<bool>, l: nat, nb: nat)
    requires |b| == 8 && 1 <= l <= nb <= 9
    requires nb <= 8 ==> LookStart(bits, nb) <= FromBits(b) < LookEnd(bits, nb)
    requires nb == 9 ==> FromBits(b) >= LookEnd(bits, 8)
    ensures ShortLen(bits, b, l) == if nb == 9 then 0 else nb
    decreases nb - l
  {
    hide LookStart, LookEnd, MaxCode;
    if l < nb {
      if nb == 9 {
        EndsGrow(bits, l);
      } else {
        LookStartsFollow(bits, l, nb);
      }
      NoCodeOfLength(bits, b, l);
      ShortLenIs(bits, b, l + 1, nb);
    } else if nb <= 8 {
      CodeOfLength(bits, b, nb);
    }
  }

  lemma EndsGrow(bits: Counts, l: nat)
    requires 1 <= l <= 8
    ensures LookEnd(bits, l) <= LookEnd(bits, 8)
  {
    if l < 8 {
      LookStartsFollow(bits, l, 8);
      ShlMonotone(First(bits, 8), Next(bits, 8), 0);
    }
  }

  /** The table entry for the next 8 bits is the length that ShortLen finds, and its symbol the one decoded. */
  lemma LookupIsShort(h: HuffTbl, d: DDerivedTbl, b: seq<bool>)
    requires IsDDerived(h, d) && |b| == 8
    ensures FromBits(b) < 256
    ensures var nb := d.lookNbits[FromBits(b)];
      && nb <= 8 && ShortLen(h.bits, b, 1) == nb
      && (nb != 0 ==> d.lookSym[FromBits(b)] == Symbol(h, nb, FromBits(b[..nb])))
      && (nb == 0 ==> FromBits(b) >= LookEnd(h.bits, 8))
  {
    hide LookStart, LookEnd, ShortLen, Off, First, Shr, BitSerialTables, FromBits, Pow2;
    EightBits();
    var look := FromBits(b);
    var nb := d.lookNbits[look];
    assert LookEntry(h, look, nb, d.lookSym[look]);
    ShortLenIs(h.bits, b, 1, if nb == 0 then 9 else nb);
    if nb != 0 {
      PrefixOfLook(b, nb);
    }
  }

  /** Behind 8 bits that start no short code, 9 bits are at or above the first code of length 9. */
  lemma NineBits(bits: Counts, b: seq<bool>)
    requires |b| >= 9 && FromBits(b[..8]) >= LookEnd(bits, 8)
    ensures First(bits, 9) <= FromBits(b[..9])
  {
    NoCodeOfLength(bits, b[..8], 8);
    assert b[..8][..8] == b[..8];
    FromBitsSnoc(b, 8);
  }

  // ----- Methods

  /** A data byte of the segment with false, or the marker that ends it with true; and the bytes behind it. */
  function NextByte(rest: seq<byte>): Option<(byte, bool, seq<byte>)> {
    if rest == [] then None
    else if rest[0] != 0xFF then Some((rest[0], false, rest[1..]))
    else
      var t := SkipFF(rest[1..]);
      if t == [] then None
      else if t[0] == 0 then Some((0xFF, false, t[1..]))
      else Some((t[0], true, t[1..]))
  }

  lemma LoadByteIs(s: Source)
    ensures LoadByte(s) ==
      match NextByte(s.rest)
      case None => None
      case Some((c, false, rest)) => Some(s.(rest := rest, buf := s.buf + ToBits(c, 8)))
      case Some((c, true, rest)) => Some(s.(rest := rest, marker := c))
    ensures NextByte(s.rest).Some? ==> |NextByte(s.rest).value.2| < |s.rest|
    ensures NextByte(s.rest).Some? && NextByte(s.rest).value.1 ==> NextByte(s.rest).value.0 != 0
  {
    hide ToBits;
  }

  /** Reading a byte: a zero stuffed behind 0xFF is dropped, and so are fill bytes in front of a marker. */
  method ReadByte(rest: seq<byte>) returns (r: Option<(byte, bool, seq<byte>)>)
    ensures r == NextByte(rest)
  {
    if rest == [] {
      return None;
    }
    var c, next := rest[0], rest[1..];
    if c != 0xFF {
      return Some((c, false, next));
    }
    while next != [] && next[0] == 0xFF
      invariant SkipFF(next) == SkipFF(rest[1..])
    {
      next := next[1..];
    }
    if next == [] {
      return None;
    }
    c, next := next[0], next[1..];
    r := if c == 0 then Some((0xFF, false, next)) else Some((c, true, next));
  }

  class BitReader {
    var rest: seq<byte>
    var getBuffer: nat
    var bitsLeft: nat

    var unreadMarker: byte
    var insufficientData: bool
    var warnings: int

    constructor (rest: seq<byte>, getBuffer: nat, bitsLeft: nat, unreadMarker: byte, insufficientData: bool, warnings: int)
      requires bitsLeft <= 32
      ensures Valid() && Src() == Source(rest, Held(getBuffer, bitsLeft), unreadMarker, insufficientData, warnings)
    {
      this.rest, this.getBuffer, this.bitsLeft := rest, getBuffer, bitsLeft;
      this.unreadMarker, this.insufficientData, this.warnings := unreadMarker, insufficientData, warnings;
    }

    ghost predicate Valid()
      reads this
    {
      bitsLeft <= 32
    }

    ghost function Src(): Source
      reads this
    {
      Source(rest, Held(getBuffer, bitsLeft), unreadMarker, insufficientData, warnings)
    }

    /** The loading loop of jpeg_fill_bit_buffer, on the local copies of the fields. */
    method LoadBits() returns (ok: bool, next: seq<byte>, buffer: nat, left: nat, marker: byte)
      requires Valid()
      ensures ok == Load(Src()).Some? && (!ok ==> unreadMarker == 0)
      ensures ok ==> left <= 32 &&
                     Load(Src()) == Some(Source(next, Held(buffer, left), marker, insufficientData, warnings))
    {
      hide Held, LoadByte, NextByte, Shl, Mask;
      next, buffer, left, marker := rest, getBuffer, bitsLeft, unreadMarker;
      ghost var insufficient, warned := insufficientData, warnings;
      ghost var s0 := Src();
      while left < MIN_GET_BITS && marker == 0
        invariant left <= 32 && (unreadMarker != 0 ==> marker != 0)
        invariant Load(Source(next, Held(buffer, left), marker, insufficient, warned)) == Load(s0)
        decreases |next|
      {
        HeldSize(buffer, left);
        LoadByteIs(Source(next, Held(buffer, left), marker, insufficient, warned));
        var r := ReadByte(next);
        if r.None? {
          ok := false;
          return;
        }
        var (c, isMarker, behind) := r.value;
        next := behind;
        if isMarker {
          marker := c;
        } else {
          ShiftIn(buffer, left, c);
          ShiftNonneg(buffer, 8);
          buffer := Mask(Shl(buffer, 8) + c, 32);
          left := left + 8;
        }
      }
      HeldSize(buffer, left);
      ok := true;
    }

    /** jpeg_fill_bit_buffer; when it has to suspend, nothing has changed. */
    method FillBitBuffer(nbits: nat) returns (ok: bool)
      requires Valid() && nbits <= MIN_GET_BITS
      modifies this
      ensures Valid() && ok == Fill(old(Src()), nbits).Some?
      ensures ok ==> Src() == Fill(old(Src()), nbits).value
      ensures !ok ==> Src() == old(Src()) && unreadMarker == 0
    {
      hide Held, Load, Shl, Mask;
      var next, buffer, left, marker;
      ok, next, buffer, left, marker := LoadBits();
      if !ok {
        return;
      }
      HeldSize(buffer, left);
      if marker != 0 && nbits > left {
        if !insufficientData {
          warnings := warnings + 1;
          insufficientData := true;
        }
        ShiftInZeros(buffer, left, MIN_GET_BITS - left);
        ShiftNonneg(buffer, MIN_GET_BITS - left);
        buffer := Mask(Shl(buffer, MIN_GET_BITS - left), 32);
        left := MIN_GET_BITS;
      }
      rest, getBuffer, bitsLeft, unreadMarker := next, buffer, left, marker;
    }

    /** CHECK_BIT_BUFFER */
    method CheckBitBuffer(nbits: nat) returns (ok: bool)
      requires Valid() && nbits <= MIN_GET_BITS
      modifies this
      ensures Valid() && ok == Need(old(Src()), nbits).Some?
      ensures ok ==> Src() == Need(old(Src()), nbits).value && nbits <= bitsLeft
      ensures !ok ==> Src() == old(Src()) && unreadMarker == 0
    {
      hide Held, Fill;
      HeldSize(getBuffer, bitsLeft);
      ok := true;
      if bitsLeft < nbits {
        ok := FillBitBuffer(nbits);
        if ok {
          NeedSize(old(Src()), nbits);
          HeldSize(getBuffer, bitsLeft);
        }
      }
    }

    /** GET_BITS, when the bits are there. */
    method TakeBits(nbits: nat) returns (v: nat)
      requires Valid() && nbits <= bitsLeft
      modifies `bitsLeft
      ensures Valid() && nbits <= |old(Src()).buf|
      ensures v == FromBits(old(Src()).buf[..nbits]) && Src() == Drop(old(Src()), nbits)
    {
      hide Held, Shr, Mask;
      HeldSize(getBuffer, bitsLeft);
      TopBits(getBuffer, bitsLeft, nbits);
      v := Mask(Shr(getBuffer, bitsLeft - nbits), nbits);
      bitsLeft := bitsLeft - nbits;
    }

    /** CHECK_BIT_BUFFER and GET_BITS */
    method ReadBits(nbits: nat) returns (r: Option<nat>)
      requires Valid() && nbits <= MIN_GET_BITS
      modifies this
      ensures Valid() && r.Some? == GetBits(old(Src()), nbits).Some?
      ensures r.Some? ==> GetBits(old(Src()), nbits) == Some((r.value as int, Src()))
      ensures r.None? ==> Src() == old(Src()) && unreadMarker == 0
    {
      hide Need, Held;
      var ok := CheckBitBuffer(nbits);
      if !ok {
        return None;
      }
      var v := TakeBits(nbits);
      r := Some(v);
    }

    /** jpeg_huff_decode, for a code of at least minBits bits; no index leaves huffval. */
    method JpegHuffDecode(d: DDerivedTbl, minBits: nat) returns (r: Option<byte>)
      requires Valid() && IsDDerived(d.pub, d) && EntersAt(d.pub.bits, Src().buf, minBits)
      modifies this
      ensures Valid() && r.Some? == SlowDecode(d.pub, old(Src()), minBits).Some?
      ensures r.Some? ==> SlowDecode(d.pub, old(Src()), minBits) == Some((r.value, Src()))
      ensures r.None? ==> Unstopped(old(Src()), Src()) && unreadMarker == 0
    {
      hide Need, Held, Collect, IsLookup, First, MaxCode, Pow2, Off;
      ghost var h, s0 := d.pub, Src();
      var ok := CheckBitBuffer(minBits);
      if !ok {
        return None;
      }
      NeedUnstopped(s0, minBits);
      EnteredAt(h.bits, s0, minBits);
      var l, code: nat := minBits, 0;
      code := TakeBits(l);
      ghost var result := Collect(h, Src(), l, code);
      while code > d.maxcode[l]
        invariant 1 <= l <= 17 && Valid() && Collect(h, Src(), l, code) == result && Unstopped(s0, Src())
        invariant code < Pow2(l) && First(h.bits, l) <= code
        decreases 17 - l
      {
        SentinelHolds(l, code);
        CollectMore(h, Src(), l, code);
        NeedUnstopped(Src(), 1);
        ghost var code0 := code;
        code := 2 * code;
        ok := CheckBitBuffer(1);
        if !ok {
          return None;
        }
        var bit := TakeBits(1);
        code := code + bit;
        NotDecodedYet(h.bits, l, code0);
        OneBitMore(code0, l);
        l := l + 1;
      }
      CollectDone(h, Src(), l, code);
      if l > 16 {
        warnings := warnings + 1;
        return Some(0);
      }
      IndexInRange(h.bits, l, code);
      r := Some(d.pub.huffval[code + d.valoffset[l]]);
    }

    /** HUFF_DECODE */
    method HuffDecodeSymbol(d: DDerivedTbl) returns (r: Option<byte>)
      requires Valid() && IsDDerived(d.pub, d)
      modifies this
      ensures Valid() && r.Some? == HuffDecode(d.pub, old(Src())).Some?
      ensures r.Some? ==> HuffDecode(d.pub, old(Src())) == Some((r.value, Src()))
      ensures r.None? ==> Unstopped(old(Src()), Src()) && unreadMarker == 0
    {
      hide Fill, Held, SlowDecode, IsDDerived, ShortLen, Symbol, Shr, Mask, FromBits, LookEnd, Pow2, ToBits;
      ghost var s0 := Src();
      HeldSize(getBuffer, bitsLeft);
      var nb := 0;
      if bitsLeft < HUFF_LOOKAHEAD {
        FillUnstopped(s0);
        var ok := FillBitBuffer(0);
        if !ok {
          return None;
        }
        HeldSize(getBuffer, bitsLeft);
        if bitsLeft < HUFF_LOOKAHEAD {
          nb := 1;
        }
      }
      if nb != 1 {
        TopBits(getBuffer, bitsLeft, HUFF_LOOKAHEAD);
        var look := Mask(Shr(getBuffer, bitsLeft - HUFF_LOOKAHEAD), HUFF_LOOKAHEAD);
        LookupIsShort(d.pub, d, Src().buf[..8]);
        nb := d.lookNbits[look];
        if nb != 0 {
          TopBits(getBuffer, bitsLeft, nb);
          assert Src().buf[..8][..nb] == Src().buf[..nb];
          bitsLeft := bitsLeft - nb;
          return Some(d.lookSym[look]);
        }
        nb := HUFF_LOOKAHEAD + 1;
      }
      r := JpegHuffDecode(d, nb);
    }
  }

  /** Reading that has not met a marker has not changed what survives a suspension. */
  predicate Unstopped(s0: Source, s: Source) {
    s.marker == 0 ==> s0.marker == 0 && s.starved == s0.starved
  }

  lemma NeedUnstopped(s: Source, n: nat)
    requires n <= MIN_GET_BITS
    ensures Need(s, n).Some? ==> Unstopped(s, Need(s, n).value)
  {
    hide Load;
    LoadOnward(s);
  }

  lemma FillUnstopped(s: Source)
    ensures Fill(s, 0).Some? ==> Unstopped(s, Fill(s, 0).value)
  {
    hide Load;
    LoadOnward(s);
  }

  /** How HUFF_DECODE enters jpeg_huff_decode: at length 1, or at 9 when no code of up to 8 bits fits. */
  ghost predicate EntersAt(bits: Counts, buf: seq<bool>, minBits: nat) {
    minBits == 1 || (minBits == 9 && |buf| >= 8 && FromBits(buf[..8]) >= LookEnd(bits, 8))
  }

  lemma EnteredAt(bits: Counts, s: Source, minBits: nat)
    requires EntersAt(bits, s.buf, minBits) && Need(s, minBits).Some?
    ensures |Need(s, minBits).value.buf| >= minBits
    ensures var code := FromBits(Need(s, minBits).value.buf[..minBits]);
      First(bits, minBits) <= code < Pow2(minBits)
  {
    hide LookEnd, FromBits, First;
    NeedSize(s, minBits);
    NeedPrefix(s, minBits);
    var b := Need(s, minBits).value.buf;
    if minBits == 9 {
      assert b[..8] == s.buf[..8];
      NineBits(bits, b);
    } else {
      FirstIsZero(bits);
    }
  }

  lemma FirstIsZero(bits: Counts)
    ensures First(bits, 1) == 0
  {
  }

  lemma SentinelHolds(l: nat, code: nat)
    requires 1 <= l <= 17 && code < Pow2(l)
    ensures l == 17 ==> code <= SENTINEL
  {
    if l == 17 {
      SentinelStops(code);
    }
  }

  lemma CollectMore(h: HuffTbl, s: Source, l: nat, code: nat)
    requires 1 <= l <= 16 && code > MaxCode(h.bits, l)
    ensures Need(s, 1).None? ==> Collect(h, s, l, code).None?
    ensures Need(s, 1).Some? ==>
      var t := Need(s, 1).value;
      |t.buf| > 0 && Collect(h, s, l, code) == Collect(h, Drop(t, 1), l + 1, 2 * code + FromBits(t.buf[..1]))
  {
    hide Need, MaxCode, Symbol;
    NeedSize(s, 1);
    if Need(s, 1).Some? {
      OneBitValue(Need(s, 1).value.buf);
    }
  }

  lemma OneBitValue(b: seq<bool>)
    requires |b| > 0
    ensures FromBits(b[..1]) == if b[0] then 1 else 0
  {
    assert b[..1][..0] == [];
  }

  lemma OneBitMore(code: nat, l: nat)
    requires code < Pow2(l)
    ensures forall b: seq<bool> :: |b| == 1 ==> 2 * code + FromBits(b) < Pow2(l + 1)
  {
    assert Pow2(1) == 2;
  }

  lemma CollectDone(h: HuffTbl, s: Source, l: nat, code: nat)
    requires 1 <= l <= 17 && (l <= 16 ==> code <= MaxCode(h.bits, l))
    ensures Collect(h, s, l, code) == Some(if l > 16 then (0, Warn(s)) else (Symbol(h, l, code), s))
  {
    hide MaxCode, Symbol;
  }

  lemma IndexInRange(bits: Counts, l: nat, code: nat)
    requires ValidCounts(bits) && 1 <= l <= 16 && First(bits, l) <= code <= MaxCode(bits, l)
    ensures bits[l] > 0 && 0 <= Off(bits, l) + (code - First(bits, l)) < 256
  {
    DecodedIndex(bits, l, code);
  }

  lemma ShiftNonneg(x: nat, k: nat)
    ensures Shl(x, k) >= 0 && forall y: int :: Mask(y, 32) >= 0
  {
  }

  lemma HeldSize(getBuffer: nat, bitsLeft: nat)
    ensures |Held(getBuffer, bitsLeft)| == bitsLeft
  {
  }
}
