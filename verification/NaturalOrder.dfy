/**
 The zigzag order of coefficients (jpeg_natural_order of jutils.c, Figure A.6 of ITU-T T.81): a block as the C code
 stores it, an array in natural order, and the same block in zigzag order, on which the coders are specified.
 */
module NaturalOrder {
  import opened Coefficients

  /** jpeg_natural_order; its sixteen entries past the end of the block are all 63. */
  function Natural(k: nat): (n: nat)
    ensures n < 64
  {
    match k
    case 0 => 0 case 1 => 1 case 2 => 8 case 3 => 16 case 4 => 9 case 5 => 2 case 6 => 3 case 7 => 10
    case 8 => 17 case 9 => 24 case 10 => 32 case 11 => 25 case 12 => 18 case 13 => 11 case 14 => 4 case 15 => 5
    case 16 => 12 case 17 => 19 case 18 => 26 case 19 => 33 case 20 => 40 case 21 => 48 case 22 => 41 case 23 => 34
    case 24 => 27 case 25 => 20 case 26 => 13 case 27 => 6 case 28 => 7 case 29 => 14 case 30 => 21 case 31 => 28
    case 32 => 35 case 33 => 42 case 34 => 49 case 35 => 56 case 36 => 57 case 37 => 50 case 38 => 43 case 39 => 36
    case 40 => 29 case 41 => 22 case 42 => 15 case 43 => 23 case 44 => 30 case 45 => 37 case 46 => 44 case 47 => 51
    case 48 => 58 case 49 => 59 case 50 => 52 case 51 => 45 case 52 => 38 case 53 => 31 case 54 => 39 case 55 => 46
    case 56 => 53 case 57 => 60 case 58 => 61 case 59 => 54 case 60 => 47 case 61 => 55 case 62 => 62 case _ => 63
  }

  function Zigzag(n: nat): (k: nat)
    requires n < 64
    ensures k < 64
  {
    match n
    case 0 => 0 case 1 => 1 case 2 => 5 case 3 => 6 case 4 => 14 case 5 => 15 case 6 => 27 case 7 => 28
    case 8 => 2 case 9 => 4 case 10 => 7 case 11 => 13 case 12 => 16 case 13 => 26 case 14 => 29 case 15 => 42
    case 16 => 3 case 17 => 8 case 18 => 12 case 19 => 17 case 20 => 25 case 21 => 30 case 22 => 41 case 23 => 43
    case 24 => 9 case 25 => 11 case 26 => 18 case 27 => 24 case 28 => 31 case 29 => 40 case 30 => 44 case 31 => 53
    case 32 => 10 case 33 => 19 case 34 => 23 case 35 => 32 case 36 => 39 case 37 => 45 case 38 => 52 case 39 => 54
    case 40 => 20 case 41 => 22 case 42 => 33 case 43 => 38 case 44 => 46 case 45 => 51 case 46 => 55 case 47 => 60
    case 48 => 21 case 49 => 34 case 50 => 37 case 51 => 47 case 52 => 50 case 53 => 56 case 54 => 59 case 55 => 61
    case 56 => 35 case 57 => 36 case 58 => 48 case 59 => 49 case 60 => 57 case 61 => 58 case 62 => 62 case _ => 63
  }

  lemma NaturalRow0(k: nat)
    requires 0 <= k < 16
    ensures Zigzag(Natural(k)) == k
  {
  }

  lemma NaturalRow1(k: nat)
    requires 16 <= k < 32
    ensures Zigzag(Natural(k)) == k
  {
  }

  lemma NaturalRow2(k: nat)
    requires 32 <= k < 48
    ensures Zigzag(Natural(k)) == k
  {
  }

  lemma NaturalRow3(k: nat)
    requires 48 <= k < 64
    ensures Zigzag(Natural(k)) == k
  {
  }

  lemma ZigzagRow0(k: nat)
    requires 0 <= k < 16
    ensures Natural(Zigzag(k)) == k
  {
  }

  lemma ZigzagRow1(k: nat)
    requires 16 <= k < 32
    ensures Natural(Zigzag(k)) == k
  {
  }

  lemma ZigzagRow2(k: nat)
    requires 32 <= k < 48
    ensures Natural(Zigzag(k)) == k
  {
  }

  lemma ZigzagRow3(k: nat)
    requires 48 <= k < 64
    ensures Natural(Zigzag(k)) == k
  {
  }

  lemma ZigzagOfNatural(k: nat)
    requires k < 64
    ensures Zigzag(Natural(k)) == k && Natural(Zigzag(k)) == k
  {
    hide Natural, Zigzag;
    if k < 16 {
      NaturalRow0(k);
      ZigzagRow0(k);
    } else if k < 32 {
      NaturalRow1(k);
      ZigzagRow1(k);
    } else if k < 48 {
      NaturalRow2(k);
      ZigzagRow2(k);
    } else {
      NaturalRow3(k);
      ZigzagRow3(k);
    }
  }

  lemma NaturalPastEnd(k: nat)
    requires k >= 63
    ensures Natural(k) == 63
  {
  }

  type RawBlock = b: seq<Coef> | |b| == DCTSIZE2 witness seq(DCTSIZE2, _ => 0)

  /** A stored block in zigzag order. */
  function InZigzag(b: RawBlock): Block {
    seq(DCTSIZE2, k requires 0 <= k < DCTSIZE2 => b[Natural(k)])
  }

  /** Storing at a zigzag position. */
  lemma StoreInZigzag(b: RawBlock, k: nat, v: Coef)
    requires k < DCTSIZE2 + 16
    ensures InZigzag(b[Natural(k) := v]) == InZigzag(b)[(if k < DCTSIZE2 then k else DCTSIZE2 - 1) := v]
  {
    hide Natural, Zigzag;
    var p := if k < DCTSIZE2 then k else DCTSIZE2 - 1;
    if k >= 63 {
      NaturalPastEnd(k);
      NaturalPastEnd(p);
    }
    forall j | 0 <= j < DCTSIZE2
      ensures Natural(j) == Natural(p) ==> j == p
    {
      ZigzagOfNatural(j);
      ZigzagOfNatural(p);
    }
  }

  /** The blocks of an MCU, as they are stored. */
  function Stored(blocks: seq<array<Coef>>): seq<Block>
    requires forall i :: 0 <= i < |blocks| ==> blocks[i].Length == DCTSIZE2
    reads blocks
  {
    seq(|blocks|, i requires 0 <= i < |blocks| reads blocks => InZigzag(blocks[i][..]))
  }
}
