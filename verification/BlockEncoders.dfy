/**
 The coding of one block by the sequential encoder and by its statistics pass (encode_one_block and htest_one_block of
 jchuff.c) and of the DC coefficient by the progressive one (jcphuff.c), on blocks as they are stored.
 */
module BlockEncoders {
  import opened Bits
  import opened Wrappers
  import opened HuffmanTables
  import opened Symbols
  import opened Emitters
  import opened Coefficients
  import opened NaturalOrder
  import opened SequentialCodec

  /** The loop that finds the number of bits of a magnitude. */
  method CountBits(v: nat) returns (nbits: nat)
    ensures nbits == NBits(v)
  {
    var temp := v;
    nbits := 0;
    while temp != 0
      invariant temp >= 0 && nbits + NBits(temp) == NBits(v)
    {
      nbits := nbits + 1;
      temp := temp / 2;
    }
  }

  /** The same for a magnitude that is known not to be zero. */
  method CountBitsNonzero(v: nat) returns (nbits: nat)
    requires v > 0
    ensures nbits == NBits(v) >= 1
  {
    var temp := v / 2;
    nbits := 1;
    while temp != 0
      invariant temp >= 0 && nbits + NBits(temp) == NBits(v)
    {
      nbits := nbits + 1;
      temp := temp / 2;
    }
  }

  ghost predicate Codable(em: Emitter, items: seq<Item>) {
    em.gather || AllHaveCodes(em.tables, items)
  }

  /** The outcome of coding `items` with the given range check: the items are emitted, or the first thing wrong ends it. */
  ghost predicate Outcome(r: Status, em: Emitter, inRange: bool, items: seq<Item>) {
    && (r.Good? <==> inRange && Codable(em, items))
    && (r.Bad? ==> r.error == BadDctCoef || r.error == MissingCode)
    && (r == Bad(BadDctCoef) ==> !inRange)
    && (r == Bad(MissingCode) ==> !Codable(em, items))
  }

  lemma CodableConcat(em: Emitter, a: seq<Item>, b: seq<Item>)
    ensures Codable(em, a + b) <==> Codable(em, a) && Codable(em, b)
  {
    if AllHaveCodes(em.tables, a + b) {
      forall i | 0 <= i < |a| ensures HasCode(em.tables, a[i]) { assert a[i] == (a + b)[i]; }
      forall i | 0 <= i < |b| ensures HasCode(em.tables, b[i]) { assert b[i] == (a + b)[|a| + i]; }
    }
  }

  lemma NBitsFit(v: nat)
    ensures v == 0 <==> NBits(v) == 0
  {
  }

  /** A DC difference: its category and the appended bits. */
  method EmitDc(em: Emitter, diff: int, tbl: nat) returns (r: Status)
    requires em.Valid() && tbl < NUM_HUFF_TBLS
    modifies em
    ensures Outcome(r, em, DcInRange(diff), DcItems(diff, tbl))
    ensures r.Good? ==> em.Valid() && em.segs == old(em.segs) && em.items == old(em.items) + DcItems(diff, tbl)
  {
    hide Emitter.Valid, HasCode;
    var temp, temp2 := diff, diff;
    if temp < 0 {
      temp := -temp;
      temp2 := temp2 - 1;
    }
    var nbits := CountBits(temp);
    NBitsFit(temp);
    if nbits > MAX_COEF_BITS + 1 {
      return Bad(BadDctCoef);
    }
    ghost var sym, tail := [Sym(false, tbl, nbits)], if nbits == 0 then [] else [Raw(temp2, nbits)];
    CodableConcat(em, sym, tail);
    r := em.EmitSymbol(false, tbl, nbits);
    if r.Bad? {
      NotCodable(em, sym, 0);
      return;
    }
    OneCodable(em, sym[0]);
    if nbits == 0 {
      NoItemsCodable(em);
    } else {
      RawCodable(em, temp2, nbits);
      em.EmitRaw(temp2, nbits);
    }
    assert em.items == old(em.items) + (sym + tail);
  }

  lemma NotCodable(em: Emitter, items: seq<Item>, i: nat)
    requires i < |items| && !em.gather && !HasCode(em.tables, items[i])
    ensures !Codable(em, items)
  {
  }

  lemma NoItemsCodable(em: Emitter)
    ensures Codable(em, [])
  {
  }

  lemma OneCodable(em: Emitter, it: Item)
    ensures Codable(em, [it]) <==> em.gather || HasCode(em.tables, it)
  {
    if AllHaveCodes(em.tables, [it]) {
      assert HasCode(em.tables, [it][0]);
    }
  }

  lemma RawCodable(em: Emitter, val: int, size: nat)
    requires 1 <= size <= 16
    ensures Codable(em, [Raw(val, size)])
  {
  }

  lemma ZrlsStep(done: seq<Item>, k: nat, tbl: nat)
    requires k > 15
    ensures done + Zrls(k, tbl) == done + [Sym(true, tbl, 0xF0)] + Zrls(k - 16, tbl)
  {
  }

  lemma ZrlsEnd(done: seq<Item>, k: nat, tbl: nat)
    requires k <= 15
    ensures done + Zrls(k, tbl) == done
  {
  }

  /** ZRL symbols, as long as the run is longer than 15. */
  method EmitZrls(em: Emitter, run: nat, tbl: nat) returns (r: Status, k: nat)
    requires em.Valid() && tbl < NUM_HUFF_TBLS
    modifies em
    ensures r.Good? <==> Codable(em, Zrls(run, tbl))
    ensures r.Bad? ==> r.error == MissingCode
    ensures r.Good? ==> em.Valid() && em.segs == old(em.segs) && em.items == old(em.items) + Zrls(run, tbl)
    ensures r.Good? ==> k == run % 16
  {
    hide Emitter.Valid, HasCode, AllHaveCodes, Zrls, Codable;
    NoItemsCodable(em);
    k := run;
    ghost var done: seq<Item> := [];
    while k > 15
      invariant em.Valid() && em.segs == old(em.segs) && em.items == old(em.items) + done
      invariant done + Zrls(k, tbl) == Zrls(run, tbl) && Codable(em, done) && k % 16 == run % 16
    {
      ghost var zrl := Sym(true, tbl, 0xF0);
      ZrlsStep(done, k, tbl);
      CodableConcat(em, done + [zrl], Zrls(k - 16, tbl));
      CodableConcat(em, done, [zrl]);
      OneCodable(em, zrl);
      r := em.EmitSymbol(true, tbl, 0xF0);
      if r.Bad? {
        return;
      }
      done := done + [zrl];
      k := k - 16;
    }
    ZrlsEnd(done, k, tbl);
    r := Good;
  }

  /** The symbol of a nonzero coefficient behind r zeros, and its appended bits. */
  function ValueItems(v: int, r: nat, tbl: nat): seq<Item> {
    [Sym(true, tbl, 16 * r + NBits(Abs(v))), Raw(Appended(v), NBits(Abs(v)))]
  }

  /** A nonzero AC coefficient behind a run of r zeros. */
  method EmitRun(em: Emitter, v: int, run: nat, tbl: nat) returns (r: Status)
    requires em.Valid() && tbl < NUM_HUFF_TBLS && v != 0
    modifies em
    ensures Outcome(r, em, NBits(Abs(v)) <= MAX_COEF_BITS, RunItems(v, run, tbl))
    ensures r.Good? ==> em.Valid() && em.segs == old(em.segs) && em.items == old(em.items) + RunItems(v, run, tbl)
  {
    hide Emitter.Valid, HasCode, AllHaveCodes, Zrls, Codable, NBits;
    ghost var n0 := NBits(Abs(v));
    ghost var sym, raw := [Sym(true, tbl, 16 * (run % 16) + n0)], [Raw(Appended(v), n0)];
    ghost var z := Zrls(run, tbl);
    assert RunItems(v, run, tbl) == z + (sym + raw);
    assert old(em.items) + z + sym + raw == old(em.items) + RunItems(v, run, tbl);
    CodableConcat(em, z, sym + raw);
    CodableConcat(em, sym, raw);
    OneCodable(em, sym[0]);
    var left;
    r, left := EmitZrls(em, run, tbl);
    if r.Bad? {
      return;
    }
    var temp, temp2 := v, v;
    if temp < 0 {
      temp := -temp;
      temp2 := temp2 - 1;
    }
    var nbits := CountBitsNonzero(temp);
    NBitsBounds(Abs(v));
    if nbits > MAX_COEF_BITS {
      return Bad(BadDctCoef);
    }
    RawCodable(em, temp2, nbits);
    r := em.EmitSymbol(true, tbl, 16 * left + nbits);
    if r.Bad? {
      return;
    }
    em.EmitRaw(temp2, nbits);
  }

  /** AC coefficients k.. behind r zeros, with what has been emitted for those before. */
  ghost predicate AcSoFar(em: Emitter, b: Block, k: nat, r: nat, tbl: nat, done: seq<Item>)
    requires 1 <= k <= DCTSIZE2
  {
    && done + AcItems(b, k, r, tbl) == AcItems(b, 1, 0, tbl) && Codable(em, done)
    && forall j :: 1 <= j < k ==> NBits(Abs(b[j])) <= MAX_COEF_BITS
  }

  lemma AcZero(em: Emitter, b: Block, k: nat, r: nat, tbl: nat, done: seq<Item>)
    requires 1 <= k < DCTSIZE2 && AcSoFar(em, b, k, r, tbl, done) && b[k] == 0
    ensures AcSoFar(em, b, k + 1, r + 1, tbl, done)
  {
    hide Codable;
    assert NBits(Abs(b[k])) == 0;
  }

  lemma AcNonzero(em: Emitter, b: Block, k: nat, r: nat, tbl: nat, done: seq<Item>)
    requires 1 <= k < DCTSIZE2 && AcSoFar(em, b, k, r, tbl, done) && b[k] != 0
    ensures var x := RunItems(b[k], r, tbl);
      && (NBits(Abs(b[k])) <= MAX_COEF_BITS && Codable(em, x) ==> AcSoFar(em, b, k + 1, 0, tbl, done + x))
      && (!Codable(em, x) ==> !Codable(em, AcItems(b, 1, 0, tbl)))
  {
    hide Codable, RunItems, NBits;
    var x, more := RunItems(b[k], r, tbl), AcItems(b, k + 1, 0, tbl);
    assert done + (x + more) == done + x + more;
    CodableConcat(em, done + x, more);
    CodableConcat(em, done, x);
  }

  lemma AcEnd(em: Emitter, b: Block, r: nat, tbl: nat, done: seq<Item>)
    requires AcSoFar(em, b, DCTSIZE2, r, tbl, done)
    ensures AcInRange(b)
    ensures AcItems(b, 1, 0, tbl) == done + (if r > 0 then [Sym(true, tbl, 0)] else [])
    ensures Codable(em, AcItems(b, 1, 0, tbl))
         <==> r == 0 || em.gather || HasCode(em.tables, Sym(true, tbl, 0))
  {
    hide Codable, HasCode;
    NoItemsCodable(em);
    OneCodable(em, Sym(true, tbl, 0));
    CodableConcat(em, done, if r > 0 then [Sym(true, tbl, 0)] else []);
  }

  /** The AC loop that encode_one_block and htest_one_block share. */
  method EmitAc(em: Emitter, block: array<Coef>, tbl: nat) returns (st: Status)
    requires em.Valid() && tbl < NUM_HUFF_TBLS && block.Length == DCTSIZE2
    modifies em
    ensures var b := InZigzag(block[..]);
      && Outcome(st, em, AcInRange(b), AcItems(b, 1, 0, tbl))
      && (st.Good? ==> em.Valid() && em.segs == old(em.segs) && em.items == old(em.items) + AcItems(b, 1, 0, tbl))
  {
    hide Emitter.Valid, HasCode, AllHaveCodes, Zrls, Codable, NBits, RunItems, AcItems, Natural, AcSoFar;
    ghost var b, done: seq<Item> := InZigzag(block[..]), [];
    var r := 0;
    AcStart(em, b, tbl);
    for k := 1 to DCTSIZE2
      invariant em.Valid() && em.segs == old(em.segs) && em.items == old(em.items) + done
      invariant r >= 0 && AcSoFar(em, b, k, r, tbl, done)
    {
      var temp := block[Natural(k)];
      if temp == 0 {
        AcZero(em, b, k, r, tbl, done);
        r := r + 1;
      } else {
        AcNonzero(em, b, k, r, tbl, done);
        st := EmitRun(em, temp, r, tbl);
        if st.Bad? {
          return;
        }
        done := done + RunItems(temp, r, tbl);
        r := 0;
      }
    }
    AcEnd(em, b, r, tbl, done);
    st := Good;
    if r > 0 {
      st := em.EmitSymbol(true, tbl, 0);
    }
  }

  lemma AcStart(em: Emitter, b: Block, tbl: nat)
    ensures AcSoFar(em, b, 1, 0, tbl, [])
  {
    hide AcItems;
    NoItemsCodable(em);
    assert [] + AcItems(b, 1, 0, tbl) == AcItems(b, 1, 0, tbl);
  }

  /** encode_one_block */
  method EncodeOneBlock(em: Emitter, block: array<Coef>, lastDc: int, dctbl: nat, actbl: nat) returns (st: Status)
    requires em.Valid() && dctbl < NUM_HUFF_TBLS && actbl < NUM_HUFF_TBLS && block.Length == DCTSIZE2
    modifies em
    ensures var b := InZigzag(block[..]);
      && Outcome(st, em, DcInRange(b[0] - lastDc) && AcInRange(b), BlockItems(b, lastDc, dctbl, actbl))
      && (st.Good? ==> em.Valid() && em.segs == old(em.segs)
                       && em.items == old(em.items) + BlockItems(b, lastDc, dctbl, actbl))
  {
    hide Emitter.Valid, HasCode, AllHaveCodes, Codable, NBits, AcItems, DcItems, Natural, AcInRange;
    ghost var b := InZigzag(block[..]);
    FirstIsDc();
    CodableConcat(em, DcItems(b[0] - lastDc, dctbl), AcItems(b, 1, 0, actbl));
    st := EmitDc(em, block[0] - lastDc, dctbl);
    if st.Bad? {
      return;
    }
    st := EmitAc(em, block, actbl);
    assert old(em.items) + DcItems(b[0] - lastDc, dctbl) + AcItems(b, 1, 0, actbl)
        == old(em.items) + (DcItems(b[0] - lastDc, dctbl) + AcItems(b, 1, 0, actbl));
  }

  lemma FirstIsDc()
    ensures Natural(0) == 0
  {
  }
}
