/**
 Packing of bits into bytes with zero bytes stuffed after 0xFF (emit_bits and flush_bits of jchuff.c and jcphuff.c),
 as functions, and the proof that the reader of module BitSource undoes it.
 */
module BitPacking {
  import opened Bits
  import opened Wrappers
  import opened BitSource

  /** The full bytes of a bit string. */
  function Pack(b: seq<bool>): seq<byte> {
    if |b| < 8 then [] else assert Pow2(8) == 256; [FromBits(b[..8])] + Pack(b[8..])
  }

  /** The bits that do not fill a byte. */
  function Left(b: seq<bool>): (r: seq<bool>)
    ensures |r| == |b| % 8
  {
    if |b| < 8 then b else Left(b[8..])
  }

  function Stuff(bytes: seq<byte>): seq<byte> {
    if bytes == [] then [] else [bytes[0]] + (if bytes[0] == 0xFF then [0] else []) + Stuff(bytes[1..])
  }

  function PadLength(used: nat): nat
    requires used < 8
  {
    if used == 0 then 0 else 8 - used
  }

  /** A segment is completed with one bits. */
  function Padded(b: seq<bool>): (r: seq<bool>)
    ensures |r| % 8 == 0 && |r| < |b| + 8 && b <= r
  {
    b + Const(true, PadLength(|b| % 8))
  }

  /** The bytes of a completed segment. */
  function SegmentBytes(b: seq<bool>): seq<byte> {
    Stuff(Pack(Padded(b)))
  }

  lemma {:induction false} PackAppend(b: seq<bool>, c: seq<bool>)
    ensures Pack(b + c) == Pack(b) + Pack(Left(b) + c)
    ensures Left(b + c) == Left(Left(b) + c)
  {
    if |b| >= 8 {
      assert (b + c)[..8] == b[..8] && (b + c)[8..] == b[8..] + c;
      PackAppend(b[8..], c);
    }
  }

  lemma {:induction false} PackKeepsBits(b: seq<bool>)
    ensures BytesBits(Pack(b)) + Left(b) == b
  {
    if |b| >= 8 {
      ToFromBits(b[..8]);
      var p := Pack(b);
      assert p[1..] == Pack(b[8..]);
      PackKeepsBits(b[8..]);
      assert b == b[..8] + b[8..];
    }
  }

  lemma {:induction false} StuffAppend(a: seq<byte>, b: seq<byte>)
    ensures Stuff(a + b) == Stuff(a) + Stuff(b)
  {
    if a == [] {
      assert a + b == b;
    } else {
      assert (a + b)[1..] == a[1..] + b;
      StuffAppend(a[1..], b);
    }
  }

  lemma ParseOrdinary(b: byte, tail: seq<byte>)
    requires b != 0xFF
    ensures Parse([b] + tail) == Prepend(ToBits(b, 8), Parse(tail))
  {
    assert ([b] + tail)[1..] == tail;
  }

  lemma ParseStuffedFF(tail: seq<byte>)
    ensures Parse([0xFF, 0] + tail) == Prepend(ToBits(0xFF, 8), Parse(tail))
  {
    var rest := [0xFF, 0] + tail;
    assert rest[1..] == [0] + tail;
    assert SkipFF(rest[1..]) == [0] + tail;
    assert ([0] + tail)[1..] == tail;
  }

  lemma ParseMarker(m: byte, more: seq<byte>)
    requires m != 0 && m != 0xFF
    ensures Parse([0xFF, m] + more) == Some(Ahead([], m, more))
  {
    var rest := [0xFF, m] + more;
    assert rest[1..] == [m] + more;
    assert SkipFF(rest[1..]) == [m] + more;
    assert ([m] + more)[1..] == more;
  }

  lemma ConcatAssoc<T>(a: seq<T>, b: seq<T>, c: seq<T>, d: seq<T>)
    ensures (a + b) + c + d == a + (b + c + d)
  {
  }

  /** Reading a stuffed segment up to its marker gives the bytes back. */
  lemma {:induction false} ParseStuffed(bytes: seq<byte>, m: byte, more: seq<byte>)
    requires m != 0 && m != 0xFF
    ensures Parse(Stuff(bytes) + [0xFF, m] + more) == Some(Ahead(BytesBits(bytes), m, more))
  {
    var end := [0xFF, m];
    if bytes == [] {
      assert Stuff(bytes) + end + more == end + more;
      ParseMarker(m, more);
    } else {
      var s := Stuff(bytes[1..]);
      ParseStuffed(bytes[1..], m, more);
      if bytes[0] == 0xFF {
        ConcatAssoc([0xFF, 0], s, end, more);
        assert Stuff(bytes) == [0xFF, 0] + s;
        ParseStuffedFF(s + end + more);
      } else {
        ConcatAssoc([bytes[0]], s, end, more);
        assert Stuff(bytes) == [bytes[0]] + s;
        ParseOrdinary(bytes[0], s + end + more);
      }
    }
  }

  /** What the decoder sees of a completed segment: its bits, at most 7 padding bits, and the marker behind it. */
  lemma ParseSegment(b: seq<bool>, m: byte, more: seq<byte>)
    requires m != 0 && m != 0xFF
    ensures Parse(SegmentBytes(b) + [0xFF, m] + more) == Some(Ahead(Padded(b), m, more))
  {
    var p := Padded(b);
    ParseStuffed(Pack(p), m, more);
    assert BytesBits(Pack(p)) == p by {
      PackKeepsBits(p);
      assert BytesBits(Pack(p)) + Left(p) == BytesBits(Pack(p));
    }
  }

  // ----- The 24-bit accumulator

  /** The bits held in put_buffer: left-justified in its low 24 bits, zeros behind them. */
  ghost predicate Holds(putBuffer: nat, putBits: nat, b: seq<bool>) {
    |b| == putBits <= 24 && ToBits(putBuffer, 24) == b + Const(false, 24 - putBits)
  }

  lemma ShrMaskZero(x: int, n: nat)
    ensures Shr(Mask(x, n), n) == 0
    decreases n
  {
  }

  /** Incoming bits, masked and aligned behind the putBits bits already there. */
  lemma AlignedBits(code: int, size: nat, total: nat)
    requires size <= total <= 24
    ensures ToBits(Shl(Mask(code, size), 24 - total), 24)
         == Const(false, total - size) + ToBits(code, size) + Const(false, 24 - total)
  {
    var x := Mask(code, size);
    ToBitsConcat(x, 0, total, 24 - total);
    ToBitsSplit(x, total - size, size);
    ShrMaskZero(code, size);
    ToBitsZero(total - size);
    ToBitsZero(24 - total);
    ToBitsMask(code, size, size);
  }

  lemma OrOfDisjoint(x: nat, y: nat, p: seq<bool>, q: seq<bool>, r: seq<bool>)
    requires |p| + |q| + |r| == 24
    requires ToBits(x, 24) == Const(false, |p|) + q + r && r == Const(false, |r|)
    requires ToBits(y, 24) == p + Const(false, |q| + |r|)
    ensures ToBits(Or(x, y), 24) == p + q + r
  {
    forall i | 0 <= i < 24
      ensures ToBits(Or(x, y), 24)[i] == (p + q + r)[i]
    {
      ToBitsOr(x, y, 24, i);
    }
  }

  lemma MergeBits(x: nat, putBuffer: nat, putBits: nat, b: seq<bool>, code: int, size: nat)
    requires Holds(putBuffer, putBits, b) && putBits + size <= 24
    requires x == Shl(Mask(code, size), 24 - (putBits + size))
    ensures Holds(Or(x, putBuffer), putBits + size, b + ToBits(code, size))
  {
    AlignedBits(code, size, putBits + size);
    OrOfDisjoint(x, putBuffer, b, ToBits(code, size), Const(false, 24 - (putBits + size)));
  }

  /** One turn of the output loop: the top 8 of the 24 bits leave. */
  lemma TopByte(putBuffer: nat, putBits: nat, b: seq<bool>)
    requires Holds(putBuffer, putBits, b) && 8 <= putBits
    ensures Mask(Shr(putBuffer, 16), 8) == FromBits(b[..8])
  {
    ToBitsSplit(putBuffer, 8, 16);
    FromToBits(Shr(putBuffer, 16), 8);
    assert ToBits(Shr(putBuffer, 16), 8) == ToBits(putBuffer, 24)[..8] == b[..8];
  }

  lemma ShiftOut(putBuffer: nat, putBits: nat, b: seq<bool>)
    requires Holds(putBuffer, putBits, b) && 8 <= putBits
    ensures Holds(Mask(Shl(putBuffer, 8), 32), putBits - 8, b[8..])
  {
    ToBitsSplit(putBuffer, 8, 16);
    assert ToBits(putBuffer, 16) == ToBits(putBuffer, 24)[8..] == b[8..] + Const(false, 24 - putBits);
    ToBitsMask(Shl(putBuffer, 8), 32, 24);
    assert ToBits(Shl(putBuffer, 8), 24) == ToBits(putBuffer, 16) + Const(false, 8) by {
      ToBitsConcat(putBuffer, 0, 16, 8);
      ToBitsZero(8);
    }
    assert Const(false, 24 - putBits) + Const(false, 8) == Const(false, 24 - (putBits - 8));
  }

  lemma StuffOne(head: seq<byte>, c: byte)
    ensures Stuff(head + [c]) == Stuff(head) + ([c] + (if c == 0xFF then [0] else []))
  {
    StuffAppend(head, [c]);
    assert [c][1..] == [];
    assert Stuff([c]) == [c] + (if c == 0xFF then [0] else []) + [];
  }

  /** One byte more of output: out holds the stuffed bytes head, and cur is still to be packed. */
  lemma PackStep(head: seq<byte>, cur: seq<bool>)
    requires |cur| >= 8
    ensures FromBits(cur[..8]) < 256
    ensures head + Pack(cur) == (head + [FromBits(cur[..8])]) + Pack(cur[8..])
    ensures Left(cur) == Left(cur[8..])
  {
    assert Pow2(8) == 256;
    assert Pack(cur) == [FromBits(cur[..8])] + Pack(cur[8..]);
  }

  /** Writing more bits: what was written stays, and the pending bits lead what is added. */
  lemma WriteMore(written: seq<byte>, b: seq<bool>, c: seq<bool>)
    ensures written + Stuff(Pack(b + c)) == (written + Stuff(Pack(b))) + Stuff(Pack(Left(b) + c))
    ensures Left(b + c) == Left(Left(b) + c)
  {
    PackAppend(b, c);
    StuffAppend(Pack(b), Pack(Left(b) + c));
  }

  lemma PackOneByte(b: seq<bool>)
    requires 8 <= |b| < 16
    ensures FromBits(b[..8]) < 256 && Pack(b) == [FromBits(b[..8])]
  {
    assert Pow2(8) == 256;
    assert Pack(b[8..]) == [];
  }

  /** Seven one bits behind fewer than 8 bits: they fill up one byte if there was a bit, none otherwise. */
  lemma SevenOnesFill(x: seq<bool>)
    requires |x| < 8
    ensures Pack(x + Const(true, 7)) == Pack(x + Const(true, PadLength(|x|)))
  {
    var y, z := x + Const(true, 7), x + Const(true, PadLength(|x|));
    if x != [] {
      PackOneByte(y);
      PackOneByte(z);
      assert y[..8] == z[..8];
    }
  }

  /** flush_bits: seven one bits complete the last byte, or leave nothing that is written if there is none. */
  lemma FlushPads(b: seq<bool>)
    ensures Pack(b + ToBits(0x7F, 7)) == Pack(Padded(b))
  {
    SevenOnes();
    PackAppend(b, Const(true, 7));
    PackAppend(b, Const(true, PadLength(|b| % 8)));
    SevenOnesFill(Left(b));
  }

  lemma SevenOnes()
    ensures ToBits(0x7F, 7) == Const(true, 7)
  {
    var c := Const(true, 7);
    assert ToBits(0x7F, 7) == ToBits(0xF, 4) + [true, true, true];
    assert ToBits(0xF, 4) == [true, true, true, true];
  }
}
