/**
 The output side shared by the two Huffman encoders (emit_bits, flush_bits, emit_symbol, emit_restart of jchuff.c
 and jcphuff.c): the same calls either write stuffed bytes or, when statistics are gathered, count symbols.
 */
module Symbols {
  import opened Bits
  import opened Wrappers
  import opened HuffmanTables
  import opened BitPacking

  /** What an encoder emits: a Huffman symbol of DC or AC table tbl, or the low `size` bits of a value. */
  datatype Item = Sym(ac: bool, tbl: nat, sym: nat) | Raw(val: int, size: nat)

  const NUM_HUFF_TBLS := 4

  /** The derived tables of a scan: 0..3 for DC, 4..7 for AC. */
  type CTables = t: seq<CDerivedTbl> | |t| == 8
    witness seq(8, _ => CDerivedTbl(seq(256, _ => 0), seq(256, _ => 0)))

  function TableIndex(ac: bool, tbl: nat): nat {
    if ac then NUM_HUFF_TBLS + tbl else tbl
  }

  predicate WellFormed(it: Item) {
    match it
    case Sym(_, tbl, sym) => tbl < NUM_HUFF_TBLS && sym < 256
    case Raw(_, size) => 1 <= size <= 16
  }

  function CodeOf(t: CTables, it: Item): seq<bool>
    requires it.Sym? && WellFormed(it)
  {
    var c := t[TableIndex(it.ac, it.tbl)];
    ToBits(c.ehufco[it.sym], c.ehufsi[it.sym])
  }

  /** Symbols with a code, of at most 16 bits. */
  predicate HasCode(t: CTables, it: Item) {
    WellFormed(it) && (it.Sym? ==> 1 <= t[TableIndex(it.ac, it.tbl)].ehufsi[it.sym] <= 16)
  }

  predicate AllHaveCodes(t: CTables, items: seq<Item>) {
    forall i :: 0 <= i < |items| ==> HasCode(t, items[i])
  }

  function ItemBits(t: CTables, it: Item): seq<bool> {
    if !WellFormed(it) then []
    else if it.Sym? then CodeOf(t, it)
    else ToBits(it.val, it.size)
  }

  function ItemsBits(t: CTables, items: seq<Item>): seq<bool> {
    if items == [] then [] else ItemsBits(t, items[..|items| - 1]) + ItemBits(t, items[|items| - 1])
  }

  lemma {:induction false} ItemsBitsConcat(t: CTables, a: seq<Item>, b: seq<Item>)
    ensures ItemsBits(t, a + b) == ItemsBits(t, a) + ItemsBits(t, b)
  {
    if b == [] {
      assert a + b == a;
    } else {
      assert (a + b)[..|a + b| - 1] == a + b[..|b| - 1];
      ItemsBitsConcat(t, a, b[..|b| - 1]);
    }
  }

  lemma ItemsBitsCons(t: CTables, it: Item, b: seq<Item>)
    ensures ItemsBits(t, [it] + b) == ItemBits(t, it) + ItemsBits(t, b)
  {
    hide ItemBits;
    ItemsBitsConcat(t, [it], b);
    assert [it][..0] == [];
    assert ItemsBits(t, [it]) == [] + ItemBits(t, it);
  }

  function Count(items: seq<Item>, it: Item): nat {
    if items == [] then 0
    else Count(items[..|items| - 1], it) + (if items[|items| - 1] == it then 1 else 0)
  }

  lemma {:induction false} CountConcat(a: seq<Item>, b: seq<Item>, it: Item)
    ensures Count(a + b, it) == Count(a, it) + Count(b, it)
  {
    if b == [] {
      assert a + b == a;
    } else {
      assert (a + b)[..|a + b| - 1] == a + b[..|b| - 1];
      CountConcat(a, b[..|b| - 1], it);
    }
  }

  lemma {:induction false} CountedIffPresent(items: seq<Item>, it: Item)
    ensures Count(items, it) > 0 <==> it in items
  {
    if items != [] {
      var n := |items| - 1;
      CountedIffPresent(items[..n], it);
      assert items == items[..n] + [items[n]];
    }
  }

  /** A restart interval that has been closed by marker RST(num). */
  datatype Closed = Closed(items: seq<Item>, num: nat)

  function RstCode(num: nat): (c: byte)
    ensures 0xD0 <= c <= 0xD7
  {
    0xD0 + num % 8
  }

  function ClosedBytes(t: CTables, segs: seq<Closed>): seq<byte> {
    if segs == [] then []
    else
      var n := |segs| - 1;
      ClosedBytes(t, segs[..n]) + SegmentBytes(ItemsBits(t, segs[n].items)) + [0xFF, RstCode(segs[n].num)]
  }

  function AllItems(segs: seq<Closed>): seq<Item> {
    if segs == [] then [] else AllItems(segs[..|segs| - 1]) + segs[|segs| - 1].items
  }

  lemma CloseOne(t: CTables, segs: seq<Closed>, c: Closed)
    ensures ClosedBytes(t, segs + [c]) == ClosedBytes(t, segs) + SegmentBytes(ItemsBits(t, c.items)) + [0xFF, RstCode(c.num)]
    ensures AllItems(segs + [c]) == AllItems(segs) + c.items
  {
    assert (segs + [c])[..|segs|] == segs;
  }

  predicate SizesFit(t: CTables) {
    forall i, s :: 0 <= i < 8 && 0 <= s < 256 ==> t[i].ehufsi[s] <= 16
  }
}

module Emitters {
  import opened Bits
  import opened Wrappers
  import opened HuffmanTables
  import opened BitPacking
  import opened Symbols

  datatype Status = Good | Bad(error: Error)

  /** Every counter holds the number of times its symbol occurs among the items. */
  ghost predicate CountsOf(counts: seq<seq<nat>>, items: seq<Item>) {
    && |counts| == 8
    && (forall i :: 0 <= i < 8 ==> |counts[i]| == 257)
    && (forall ac, tbl, sym :: 0 <= tbl < NUM_HUFF_TBLS && 0 <= sym < 256 ==>
        counts[TableIndex(ac, tbl)][sym] == Count(items, Sym(ac, tbl, sym)))
  }

  class Emitter {
    const gather: bool
    const tables: CTables

    var out: seq<byte>
    var putBuffer: nat
    var putBits: nat
    var counts: seq<seq<nat>>

    ghost var bits: seq<bool>
    ghost var segs: seq<Closed>
    ghost var items: seq<Item>

    constructor (gather: bool, tables: CTables)
      requires SizesFit(tables)
      ensures Valid() && this.gather == gather && this.tables == tables
      ensures segs == [] && items == []
    {
      this.gather, this.tables := gather, tables;
      out, putBuffer, putBits := [], 0, 0;
      counts := seq(8, _ => seq(257, _ => 0));
      bits, segs, items := [], [], [];
      new;
      ToBitsZero(24);
      assert Pack([]) == [];
    }

    /** The bytes written and the bits pending are those of the closed segments and of the current one. */
    ghost predicate Packed()
      reads this
    {
      && out == ClosedBytes(tables, segs) + Stuff(Pack(bits))
      && Holds(putBuffer, putBits, Left(bits))
    }

    ghost predicate Counted()
      reads this
    {
      CountsOf(counts, AllItems(segs) + items)
    }

    ghost predicate Valid()
      reads this
    {
      && SizesFit(tables)
      && (if gather then Counted() else Packed() && bits == ItemsBits(tables, items))
    }

    /** emit_bits, once the size has been found nonzero. */
    method PutBits(code: int, size: nat)
      requires Packed() && 1 <= size <= 16
      modifies `out, `putBuffer, `putBits, `bits
      ensures Packed() && bits == old(bits) + ToBits(code, size)
    {
      ghost var before, incoming := Left(bits), ToBits(code, size);
      WriteMore(ClosedBytes(tables, segs), bits, incoming);
      var put_bits: nat := putBits + size;
      var put_buffer: nat := Shl(Mask(code, size), 24 - put_bits);
      MergeBits(put_buffer, putBuffer, putBits, before, code, size);
      put_buffer := Or(put_buffer, putBuffer);
      out, putBuffer, putBits := OutputBytes(out, put_buffer, put_bits, before + incoming);
      bits := bits + incoming;
    }

    /** emit_symbol: write the code of a symbol, or count it. */
    method EmitSymbol(ac: bool, tbl: nat, sym: nat) returns (r: Status)
      requires Valid() && tbl < NUM_HUFF_TBLS && sym < 256
      modifies this
      ensures r.Good? <==> gather || HasCode(tables, Sym(ac, tbl, sym))
      ensures r.Bad? ==> r.error == MissingCode
      ensures r.Good? ==> Valid() && segs == old(segs) && items == old(items) + [Sym(ac, tbl, sym)]
    {
      hide Holds, Left, Stuff, Pack, ClosedBytes, AllItems;
      ghost var it := Sym(ac, tbl, sym);
      var i := TableIndex(ac, tbl);
      assert AllItems(segs) + (items + [it]) == (AllItems(segs) + items) + [it];
      if gather {
        CountOneMore(counts, AllItems(segs) + items, ac, tbl, sym);
        counts := counts[i := counts[i][sym := counts[i][sym] + 1]];
      } else {
        var size := tables[i].ehufsi[sym];
        if size == 0 {
          return Bad(MissingCode);
        }
        PutBits(tables[i].ehufco[sym], size);
      }
      items := items + [it];
      return Good;
    }

    /** emit_bits for bits that are not a Huffman symbol; no effect when gathering. */
    method EmitRaw(val: int, size: nat)
      requires Valid() && 1 <= size <= 16
      modifies this
      ensures Valid() && segs == old(segs) && items == old(items) + [Raw(val, size)]
    {
      assert AllItems(segs) + (items + [Raw(val, size)]) == (AllItems(segs) + items) + [Raw(val, size)];
      if gather {
        CountRaw(counts, AllItems(segs) + items, val, size);
      } else {
        PutBits(val, size);
      }
      items := items + [Raw(val, size)];
    }

    /** In a gathering pass, bits that are not Huffman symbols leave no trace but in the specification. */
    ghost method NoteRaws(raws: seq<Item>)
      requires Valid() && gather && forall i :: 0 <= i < |raws| ==> raws[i].Raw?
      modifies `items
      ensures Valid() && items == old(items) + raws
    {
      CountRaws(counts, AllItems(segs) + items, raws);
      assert AllItems(segs) + (items + raws) == (AllItems(segs) + items) + raws;
      items := items + raws;
    }

    /** flush_bits */
    method FlushBits()
      requires Packed() && !gather
      modifies `out, `putBuffer, `putBits, `bits
      ensures out == ClosedBytes(tables, segs) + SegmentBytes(old(bits))
      ensures putBuffer == 0 && putBits == 0
    {
      FlushPads(bits);
      PutBits(0x7F, 7);
      putBuffer := 0;
      putBits := 0;
    }

    /** emit_restart, but for the coder's own state: complete the segment and write RST(num). */
    method EmitRestart(num: nat)
      requires Valid()
      modifies this
      ensures Valid() && segs == old(segs) + [Closed(old(items), num)] && items == []
    {
      hide Stuff, Pack, ItemsBits, SegmentBytes, RstCode, ClosedBytes, AllItems, ToBits, CountsOf, Left, Holds;
      CloseOne(tables, segs, Closed(items, num));
      ghost var closed := segs + [Closed(items, num)];
      if !gather {
        FlushBits();
        out := out + [0xFF, RstCode(num)];
        bits := [];
        StartsEmpty(tables);
        assert out == ClosedBytes(tables, closed) + [];
      }
      segs, items := closed, [];
      assert AllItems(segs) + [] == AllItems(segs);
    }

    /** The last flush_bits of a scan. */
    method Finish()
      requires Valid() && !gather
      modifies this
      ensures out == ClosedBytes(tables, segs) + SegmentBytes(ItemsBits(tables, items))
      ensures segs == old(segs) && items == old(items)
    {
      FlushBits();
    }
  }

  lemma StartsEmpty(t: CTables)
    ensures Stuff(Pack([])) == [] && Holds(0, 0, Left([])) && ItemsBits(t, []) == []
  {
    ToBitsZero(24);
    assert Pack([]) == [];
  }

  lemma CountOneMore(counts: seq<seq<nat>>, items: seq<Item>, ac: bool, tbl: nat, sym: nat)
    requires CountsOf(counts, items) && tbl < NUM_HUFF_TBLS && sym < 256
    ensures var i := TableIndex(ac, tbl);
      CountsOf(counts[i := counts[i][sym := counts[i][sym] + 1]], items + [Sym(ac, tbl, sym)])
  {
    var it := Sym(ac, tbl, sym);
    assert (items + [it])[..|items|] == items;
  }

  lemma CountRaw(counts: seq<seq<nat>>, items: seq<Item>, val: int, size: nat)
    requires CountsOf(counts, items)
    ensures CountsOf(counts, items + [Raw(val, size)])
  {
    assert (items + [Raw(val, size)])[..|items|] == items;
  }

  lemma {:induction false} CountRaws(counts: seq<seq<nat>>, items: seq<Item>, raws: seq<Item>)
    requires CountsOf(counts, items) && forall i :: 0 <= i < |raws| ==> raws[i].Raw?
    ensures CountsOf(counts, items + raws)
  {
    if raws == [] {
      assert items + raws == items;
    } else {
      var n := |raws| - 1;
      CountRaws(counts, items, raws[..n]);
      CountRaw(counts, items + raws[..n], raws[n].val, raws[n].size);
      assert items + raws == (items + raws[..n]) + [raws[n]];
    }
  }

  /** The loop of emit_bits: full bytes leave the accumulator, each 0xFF followed by a stuffed zero. */
  method OutputBytes(out: seq<byte>, putBuffer: nat, putBits: nat, ghost b: seq<bool>)
    returns (out': seq<byte>, putBuffer': nat, putBits': nat)
    requires Holds(putBuffer, putBits, b)
    ensures out' == out + Stuff(Pack(b))
    ensures Holds(putBuffer', putBits', Left(b))
  {
    out', putBuffer', putBits' := out, putBuffer, putBits;
    ghost var head: seq<byte>, cur := [], b;
    while putBits' >= 8
      invariant Holds(putBuffer', putBits', cur)
      invariant out' == out + Stuff(head)
      invariant head + Pack(cur) == Pack(b) && Left(cur) == Left(b)
    {
      TopByte(putBuffer', putBits', cur);
      ShiftOut(putBuffer', putBits', cur);
      PackStep(head, cur);
      StuffOne(head, FromBits(cur[..8]));
      var c: byte := Mask(Shr(putBuffer', 16), 8);
      out' := out' + [c];
      if c == 0xFF {
        out' := out' + [0];
      }
      putBuffer' := Mask(Shl(putBuffer', 8), 32);
      putBits' := putBits' - 8;
      head, cur := head + [c], cur[8..];
    }
    assert head + Pack(cur) == head;
  }
}
