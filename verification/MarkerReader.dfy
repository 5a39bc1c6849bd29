/**
 The marker reader of jdmarker.c as it runs: loops over the bytes that are there, assigning to the decompressor's fields
 on the way, and moving the restart point only where the code does.
 */
module MarkerReader {
  import opened Bits
  import opened Wrappers
  import opened Coefficients
  import opened NaturalOrder
  import BitSource
  import opened MarkerSegments
  import opened MarkerParsing
  import opened MarkerChunks
  import RestartMarkers

  /** JPEG_SUSPENDED, JPEG_REACHED_SOS and JPEG_REACHED_EOI */
  datatype Code = JpegSuspended | ReachedSosCode | ReachedEoiCode

  /** A routine has done what the parser says: true for done, false for suspended. */
  predicate Follows(before: State, s: Seg, r: Result<bool>, after: State) {
    match s
    case Need(g) => r == Ok(false) && after == before.(f := g)
    case Fail(e) => r == Err(e)
    case Done(g, p) => p <= |before.input| && r == Ok(true) && after == before.(f := g, input := before.input[p..])
  }

  class MarkerReader {
    const limits: Limits
    /** next_input_byte and bytes_in_buffer: the bytes from the restart point on */
    var input: seq<byte>
    var toSkip: nat
    var f: Fields
    var unreadMarker: byte
    var sawSoi: bool
    var sawSof: bool
    var discardedBytes: nat
    var inputScanNumber: nat
    var markerList: seq<Saved>
    var curMarker: Option<Partial>
    ghost var warnings: nat

    ghost function St(): State
      reads this
    {
      State(input, toSkip, f, unreadMarker, sawSoi, sawSof, discardedBytes, inputScanNumber, markerList, curMarker, warnings)
    }

    constructor (limits: Limits)
      ensures this.limits == limits
      ensures St() == State([], 0, map[], 0, false, false, 0, 0, [], None, 0)
    {
      this.limits := limits;
      input, toSkip, f, unreadMarker, sawSoi, sawSof := [], 0, map[], 0, false, false;
      discardedBytes, inputScanNumber, markerList, curMarker, warnings := 0, 0, [], None, 0;
    }

    method GetDri() returns (r: Result<bool>)
      modifies this`f, this`input
      ensures Follows(old(St()), MarkerSegments.GetDri(old(f), old(input)), r, St())
    {
      if |input| < 2 {
        return Ok(false);
      }
      var length := TwoBytes(input, 0);
      if length != 4 {
        return Err(BadLength);
      }
      if |input| < 4 {
        return Ok(false);
      }
      f := f[RestartInterval := TwoBytes(input, 2)];
      input := input[4..];
      return Ok(true);
    }

    /** The entries of quantization table n; assigned one by one, even if not all of them are there. */
    method GetEntries(start: nat, n: nat, wide: bool) returns (ok: bool, pos: nat)
      modifies this`f
      ensures QuantEntries(old(f), input, start, n, wide, 0) == if ok then Done(f, pos) else Need(f)
    {
      hide Natural;
      pos := start;
      var i := 0;
      while i < DCTSIZE2
        invariant i <= DCTSIZE2
        invariant QuantEntries(old(f), input, start, n, wide, 0) == QuantEntries(f, input, pos, n, wide, i)
      {
        var tmp;
        if wide {
          if pos + 2 > |input| {
            return false, pos;
          }
          tmp := TwoBytes(input, pos);
          pos := pos + 2;
        } else {
          if pos >= |input| {
            return false, pos;
          }
          tmp := input[pos];
          pos := pos + 1;
        }
        f := f[QuantVal(n, Natural(i)) := tmp];
        i := i + 1;
      }
      return true, pos;
    }

    method GetDqt() returns (r: Result<bool>)
      modifies this`f, this`input
      ensures Follows(old(St()), MarkerSegments.GetDqt(old(f), old(input)), r, St())
    {
      hide QuantEntries;
      if |input| < 2 {
        return Ok(false);
      }
      var length: int, pos: nat := TwoBytes(input, 0) - 2, 2;
      while length > 0
        invariant input == old(input) && pos <= |input|
        invariant MarkerSegments.GetDqt(old(f), input) == QuantTables(f, input, pos, length)
      {
        if pos >= |input| {
          return Ok(false);
        }
        var n, prec := input[pos] % 16, input[pos] / 16;
        if n >= NUM_TBLS {
          return Err(DqtIndex);
        }
        var ok;
        ok, pos := GetEntries(pos + 1, n, prec != 0);
        if !ok {
          return Ok(false);
        }
        length := length - (DCTSIZE2 + 1);
        if prec != 0 {
          length := length - DCTSIZE2;
        }
      }
      if length != 0 {
        return Err(BadLength);
      }
      input := input[pos..];
      return Ok(true);
    }

    /** Copy counts and values into a table. */
    method CopyTable(ac: bool, n: nat, bits: seq<byte>, huffval: seq<byte>)
      modifies this`f
      ensures f == StoreHuff(old(f), ac, n, bits, huffval)
    {
      for i := 0 to |bits|
        invariant f == StoreCounts(old(f), ac, n, bits[..i])
      {
        assert bits[..i + 1][..i] == bits[..i];
        f := f[HuffCount(ac, n, i + 1) := bits[i]];
      }
      assert bits[..|bits|] == bits;
      for i := 0 to |huffval|
        invariant f == StoreValues(StoreCounts(old(f), ac, n, bits), ac, n, huffval[..i])
      {
        assert huffval[..i + 1][..i] == huffval[..i];
        f := f[HuffValue(ac, n, i) := huffval[i]];
      }
      assert huffval[..|huffval|] == huffval;
    }

    /** The sixteen counts, and their sum */
    method GetCounts(start: nat) returns (ok: bool, bits: seq<byte>, count: nat)
      ensures ok <==> start + 16 <= |input|
      ensures ok ==> bits == input[start..start + 16] && count == SumBytes(bits)
    {
      bits, count := [], 0;
      for i := 0 to 16
        invariant start + i <= |input| || i == 0
        invariant i == 0 ==> bits == []
        invariant i > 0 ==> bits == input[start..start + i]
        invariant count == SumBytes(bits) && |bits| == i
      {
        if start + i >= |input| {
          return false, bits, count;
        }
        assert (bits + [input[start + i]])[..i] == bits;
        bits := bits + [input[start + i]];
        count := count + input[start + i];
      }
      return true, bits, count;
    }

    /** The values of a table */
    method GetValues(start: nat, count: nat) returns (ok: bool, vals: seq<byte>)
      requires start <= |input|
      ensures ok <==> start + count <= |input|
      ensures ok ==> vals == input[start..start + count]
    {
      vals := [];
      for i := 0 to count
        invariant start + i <= |input| && vals == input[start..start + i]
      {
        if start + i >= |input| {
          return false, vals;
        }
        vals := vals + [input[start + i]];
      }
      return true, vals;
    }

    /** One table of a DHT; next and more are what is then left of the segment. */
    method GetTable(pos: nat, length: int) returns (r: Result<bool>, next: nat, more: int)
      requires length > 16 && pos <= |input|
      modifies this`f
      ensures match r
              case Err(e) => HuffTables(old(f), input, pos, length) == Fail(e)
              case Ok(true) =>
                && pos <= next <= |input| && more < length
                && HuffTables(old(f), input, pos, length) == HuffTables(f, input, next, more)
              case Ok(false) => HuffTables(old(f), input, pos, length) == Need(f)
    {
      hide SumBytes, StoreHuff;
      next, more := pos, length;
      if pos >= |input| {
        return Ok(false), next, more;
      }
      var index := input[pos];
      var ok, bits, count := GetCounts(pos + 1);
      if !ok {
        return Ok(false), next, more;
      }
      more := length - (1 + 16);
      if count > 256 || count > more {
        return Err(BadHuffTable), next, more;
      }
      var vals;
      ok, vals := GetValues(pos + 17, count);
      if !ok {
        return Ok(false), next, more;
      }
      more := more - count;
      next := pos + 17 + count;
      var ac := index / 16 % 2 == 1;
      if ac {
        index := index - 0x10;
      }
      if index >= NUM_TBLS {
        return Err(DhtIndex), next, more;
      }
      CopyTable(ac, index, bits, vals);
      return Ok(true), next, more;
    }

    method GetDht() returns (r: Result<bool>)
      modifies this`f, this`input
      ensures Follows(old(St()), MarkerSegments.GetDht(old(f), old(input)), r, St())
    {
      if |input| < 2 {
        return Ok(false);
      }
      var length: int, pos: nat := TwoBytes(input, 0) - 2, 2;
      while length > 16
        invariant input == old(input) && pos <= |input|
        invariant MarkerSegments.GetDht(old(f), input) == HuffTables(f, input, pos, length)
      {
        r, pos, length := GetTable(pos, length);
        if r.Err? {
          return;
        }
        if !r.value {
          return;
        }
      }
      if length != 0 {
        return Err(BadLength);
      }
      input := input[pos..];
      return Ok(true);
    }

    /** INPUT_2BYTES into a field of the decompressor */
    method InputTwo(cell: Cell, pos: nat) returns (ok: bool)
      modifies this`f
      ensures ok <==> pos + 2 <= |input|
      ensures f == if ok then old(f)[cell := TwoBytes(input, pos)] else HalfRead(old(f), input, cell, pos)
    {
      if pos >= |input| {
        return false;
      }
      f := f[cell := input[pos] as int * 256];
      if pos + 1 >= |input| {
        return false;
      }
      f := f[cell := f[cell] + input[pos + 1] as int];
      ok := true;
      assert f == old(f)[cell := TwoBytes(input, pos)];
    }

    method GetSof(progressive: bool, arith: bool) returns (r: Result<bool>)
      modifies this`f, this`input, this`sawSof
      ensures match MarkerSegments.GetSof(old(f), old(input), progressive, arith, old(sawSof))
              case Need(g) => r == Ok(false) && St() == old(St()).(f := g)
              case Fail(e) => r == Err(e)
              case Done(g, p) => r == Ok(true) && St() == old(St()).(f := g, input := old(input)[p..], sawSof := true)
    {
      f := f[Progressive := ToInt(progressive)][Arith := ToInt(arith)];
      if |input| < 3 {
        return Ok(false);
      }
      var length := TwoBytes(input, 0) - 8;
      f := f[Precision := input[2]];
      var ok := InputTwo(Height, 3);
      if !ok {
        return Ok(false);
      }
      ok := InputTwo(Width, 5);
      if !ok {
        return Ok(false);
      }
      if |input| < 8 {
        return Ok(false);
      }
      var count: nat := input[7];
      f := f[NumComponents := count];
      if sawSof {
        return Err(SofDuplicate);
      }
      if TwoBytes(input, 3) == 0 || TwoBytes(input, 5) == 0 || count == 0 {
        return Err(EmptyImage);
      }
      if length != count * 3 {
        return Err(BadLength);
      }
      var pos;
      ok, pos := GetComps(count);
      if !ok {
        return Ok(false);
      }
      sawSof := true;
      input := input[pos..];
      return Ok(true);
    }

    method GetComps(count: nat) returns (ok: bool, pos: nat)
      modifies this`f
      ensures SofComps(old(f), input, 8, 0, count) == if ok then Done(f, pos) else Need(f)
    {
      pos := 8;
      var ci := 0;
      while ci < count
        invariant ci <= count && SofComps(old(f), input, 8, 0, count) == SofComps(f, input, pos, ci, count)
      {
        if pos >= |input| {
          return false, pos;
        }
        ghost var had := f;
        f := f[CompId(ci) := input[pos]];
        if pos + 1 >= |input| {
          return false, pos;
        }
        var c := input[pos + 1];
        f := f[HSamp(ci) := c / 16][VSamp(ci) := c % 16];
        if pos + 2 >= |input| {
          return false, pos;
        }
        f := f[QuantNo(ci) := input[pos + 2]];
        pos := pos + 3;
        ci := ci + 1;
      }
      return true, pos;
    }

    /** The first component with the id, or the number of components */
    method FindComponent(cc: int) returns (ci: nat)
      ensures ci == FindId(Ids(f), cc, 0) <= |Ids(f)|
    {
      var ids := Ids(f);
      ci := 0;
      while ci < |ids| && ids[ci] != cc
        invariant ci <= |ids| && FindId(ids, cc, 0) == FindId(ids, cc, ci)
      {
        ci := ci + 1;
      }
    }

    /** The state, but for a scan that has just been counted */
    ghost function Uncounted(r: Result<bool>): State
      reads this
    {
      if r == Ok(true) && inputScanNumber > 0 then St().(scans := inputScanNumber - 1) else St()
    }

    method GetSos() returns (r: Result<bool>)
      modifies this`f, this`input, this`inputScanNumber
      ensures Follows(old(St()), MarkerSegments.GetSos(old(f), old(input), sawSof, Ids(old(f))), r, Uncounted(r))
      ensures r == Ok(true) ==> inputScanNumber == old(inputScanNumber) + 1
    {
      hide SosTail, Ids, FindId;
      if !sawSof {
        return Err(SosNoSof);
      }
      if |input| < 3 {
        return Ok(false);
      }
      var length, n := TwoBytes(input, 0), input[2];
      if length != n * 2 + 6 || n < 1 || n > MAX_COMPS_IN_SCAN {
        return Err(BadLength);
      }
      ghost var ids := Ids(f);
      f := f[CompsInScan := n];
      KeepsNames(old(f), f, ids);
      var pos, i := 3, 0;
      while i < n
        invariant i <= n && input == old(input) && pos <= |input| && Ids(f) == ids
        invariant inputScanNumber == old(inputScanNumber)
        invariant MarkerSegments.GetSos(old(f), input, sawSof, ids) == SosComps(f, input, pos, i, n, ids)
      {
        if pos + 2 > |input| {
          return Ok(false);
        }
        var cc, c := input[pos], input[pos + 1];
        var ci := FindComponent(cc);
        if ci == CountIds() {
          return Err(BadComponentId);
        }
        ghost var had := f;
        f := f[CurComp(i) := ci][DcTblNo(ci) := c / 16][AcTblNo(ci) := c % 16];
        KeepsNames(had, f, ids);
        pos := pos + 2;
        i := i + 1;
      }
      r := GetTail(pos);
    }

    function CountIds(): nat
      reads this`f
    {
      |Ids(f)|
    }

    lemma KeepsNames(g: Fields, h: Fields, ids: seq<int>)
      requires Ids(g) == ids
      requires forall c: Cell :: c.NumComponents? || c.CompId? ==> (c in g <==> c in h) && (c in g ==> g[c] == h[c])
      ensures Ids(h) == ids
    {
    }

    /** Ss, Se, Ah and Al */
    method GetTail(pos: nat) returns (r: Result<bool>)
      requires pos <= |input|
      modifies this`f, this`input, this`inputScanNumber
      ensures Follows(old(St()), SosTail(old(f), old(input), pos), r, Uncounted(r))
      ensures r == Ok(true) ==> inputScanNumber == old(inputScanNumber) + 1
    {
      if pos >= |input| {
        return Ok(false);
      }
      f := f[Ss := input[pos]];
      if pos + 1 >= |input| {
        return Ok(false);
      }
      f := f[Se := input[pos + 1]];
      if pos + 2 >= |input| {
        return Ok(false);
      }
      var c := input[pos + 2];
      f := f[Ah := c / 16][Al := c % 16];
      f := f[NextRestartNum := 0];
      inputScanNumber := inputScanNumber + 1;
      input := input[pos + 3..];
      return Ok(true);
    }

    /** skip_input_data of a source that may not have all the bytes yet */
    method SkipInputData(length: int)
      modifies this`input, this`toSkip
      ensures St() == SkipInput(old(St()), length)
    {
      if length > 0 {
        if length <= |input| {
          input := input[length..];
        } else {
          toSkip := length - |input|;
          input := [];
        }
      }
    }

    method SkipVariable() returns (done: bool)
      requires unreadMarker != 0
      modifies this`input, this`toSkip, this`unreadMarker
      ensures MarkerParsing.SkipVariable(old(St())) == if done then Go(St()) else Stop(Suspended(St()))
    {
      if |input| < 2 {
        return false;
      }
      var length: int := TwoBytes(input, 0) - 2;
      input := input[2..];
      unreadMarker := 0;
      SkipInputData(length);
      return true;
    }

    method GetInterestingAppn() returns (done: bool)
      requires unreadMarker != 0
      modifies this`input, this`toSkip, this`unreadMarker
      ensures MarkerParsing.GetInterestingAppn(old(St())) == if done then Go(St()) else Stop(Suspended(St()))
    {
      if |input| < 2 {
        return false;
      }
      var length: int := TwoBytes(input, 0) - 2;
      var numToRead := 0;
      if length >= APPN_DATA_LEN {
        numToRead := APPN_DATA_LEN;
      } else if length > 0 {
        numToRead := length;
      }
      var i := 0;
      while i < numToRead
        invariant i <= numToRead && 2 + i <= |input|
      {
        if 2 + i >= |input| {
          return false;
        }
        i := i + 1;
      }
      input := input[2 + numToRead..];
      unreadMarker := 0;
      SkipInputData(length - numToRead);
      return true;
    }

    /** The data that is wanted of a marker, as far as it is there; the restart point moves along. */
    method ReadData(cur: Partial) returns (ok: bool, data: seq<byte>)
      requires |cur.data| <= cur.limit
      modifies this`input, this`curMarker
      ensures var need := cur.limit - |cur.data|;
        && ok == (|old(input)| >= need)
        && (ok ==> data == cur.data + old(input)[..need] && input == old(input)[need..])
        && (!ok ==> data == cur.data + old(input) && input == [] && curMarker == Some(cur.(data := data)))
    {
      data := cur.data;
      while |data| < cur.limit
        invariant |cur.data| <= |data| <= cur.limit && |data| - |cur.data| <= |old(input)|
        invariant data == cur.data + old(input)[..|data| - |cur.data|] && input == old(input)[|data| - |cur.data|..]
        decreases cur.limit - |data|
      {
        curMarker := Some(cur.(data := data));
        if |input| == 0 {
          return false, data;
        }
        while |data| < cur.limit && |input| > 0
          invariant |cur.data| <= |data| <= cur.limit && |data| - |cur.data| <= |old(input)|
          invariant data == cur.data + old(input)[..|data| - |cur.data|] && input == old(input)[|data| - |cur.data|..]
          decreases cur.limit - |data|
        {
          data := data + [input[0]];
          input := input[1..];
        }
      }
      return true, data;
    }

    method SaveMarker(limit: nat) returns (done: bool)
      requires unreadMarker != 0
      requires curMarker.Some? ==> |curMarker.value.data| <= curMarker.value.limit
      modifies this`input, this`toSkip, this`unreadMarker, this`curMarker, this`markerList
      ensures MarkerParsing.SaveMarker(old(St()), limit) == if done then Go(St()) else Stop(Suspended(St()))
    {
      var cur;
      if curMarker == None {
        if |input| < 2 {
          return false;
        }
        var length: int := TwoBytes(input, 0) - 2;
        if length < 0 {
          input := input[2..];
          unreadMarker := 0;
          return true;
        }
        cur := Partial(length, Least(length, limit), []);
        input := input[2..];
      } else {
        cur := curMarker.value;
      }
      var ok, data := ReadData(cur);
      if !ok {
        return false;
      }
      markerList := markerList + [Saved(unreadMarker, cur.originalLength, data)];
      curMarker := None;
      unreadMarker := 0;
      SkipInputData(cur.originalLength - cur.limit);
      return true;
    }

    /** next_marker */
    method NextMarker() returns (found: bool)
      requires sawSoi && unreadMarker == 0
      modifies this`input, this`discardedBytes, this`unreadMarker, this`warnings
      ensures FindMarker(old(St())) == if found then Go(St()) else Stop(Suspended(St()))
    {
      var c: byte := 0;
      while true
        invariant unreadMarker == 0 && warnings == old(warnings)
        invariant RestartMarkers.NextMarker(old(input), old(discardedBytes)) == RestartMarkers.NextMarker(input, discardedBytes)
        decreases |input|
      {
        while input != [] && input[0] != 0xFF
          invariant unreadMarker == 0 && warnings == old(warnings)
          invariant RestartMarkers.NextMarker(old(input), old(discardedBytes)) == RestartMarkers.NextMarker(input, discardedBytes)
          decreases |input|
        {
          discardedBytes := discardedBytes + 1;
          input := input[1..];
        }
        if input == [] {
          return false;
        }
        var next := input[1..];
        ghost var t := BitSource.SkipFF(next);
        while next != [] && next[0] == 0xFF
          invariant BitSource.SkipFF(next) == t
        {
          next := next[1..];
        }
        if next == [] {
          return false;
        }
        c := next[0];
        if c != 0 {
          input := next[1..];
          break;
        }
        discardedBytes := discardedBytes + 2;
        assert |t| < |input|;
        input := next[1..];
      }
      if discardedBytes != 0 {
        warnings := warnings + 1;
        discardedBytes := 0;
      }
      unreadMarker := c;
      return true;
    }

    /** first_marker */
    method FirstMarker() returns (r: Result<bool>)
      requires !sawSoi && unreadMarker == 0
      modifies this`input, this`unreadMarker
      ensures FindMarker(old(St())) == Stepped(r, St())
    {
      if |input| < 2 {
        return Ok(false);
      }
      if input[0] != 0xFF || input[1] != M_SOI {
        return Err(NoSoi);
      }
      unreadMarker := M_SOI;
      input := input[2..];
      return Ok(true);
    }

    /** What a result stands for in terms of steps */
    static ghost function Stepped(r: Result<bool>, after: State): StepResult {
      match r
      case Err(e) => Stop(Failed(e))
      case Ok(done) => if done then Go(after) else Stop(Suspended(after))
    }

    method GetSoi() returns (r: Result<bool>)
      requires unreadMarker != 0
      modifies this`f, this`sawSoi, this`unreadMarker
      ensures MarkerParsing.GetSoi(old(St())) == Stepped(r, St())
    {
      if sawSoi {
        return Err(SoiDuplicate);
      }
      f := f[RestartInterval := 0];
      sawSoi := true;
      unreadMarker := 0;
      return Ok(true);
    }

    /** A marker with parameters in a table segment */
    method TableSegment() returns (r: Result<bool>)
      requires unreadMarker in {M_DHT, M_DQT, M_DRI}
      modifies this`f, this`input, this`unreadMarker
      ensures Process(old(St()), limits) == Stepped(r, St())
    {
      hide MarkerSegments.GetDht, MarkerSegments.GetDqt, MarkerSegments.GetDri;
      if unreadMarker == M_DHT {
        r := GetDht();
      } else if unreadMarker == M_DQT {
        r := GetDqt();
      } else {
        r := GetDri();
      }
      if r == Ok(true) {
        unreadMarker := 0;
      }
    }

    method FrameSegment() returns (r: Result<bool>)
      requires unreadMarker in {M_SOF0, M_SOF1, M_SOF2, M_SOF9, M_SOF10}
      modifies this`f, this`input, this`unreadMarker, this`sawSof
      ensures Process(old(St()), limits) == Stepped(r, St())
    {
      hide MarkerSegments.GetSof;
      if unreadMarker == M_SOF0 || unreadMarker == M_SOF1 {
        r := GetSof(false, false);
      } else if unreadMarker == M_SOF2 {
        r := GetSof(true, false);
      } else if unreadMarker == M_SOF9 {
        r := GetSof(false, true);
      } else {
        r := GetSof(true, true);
      }
      if r == Ok(true) {
        unreadMarker := 0;
      }
    }

    /** APPn and COM by the processor chosen for them; DNL and DAC are skipped. */
    method VariableSegment() returns (done: bool)
      requires M_APP0 <= unreadMarker <= M_APP15 || unreadMarker in {M_COM, M_DNL, M_DAC}
      requires curMarker.Some? ==> |curMarker.value.data| <= curMarker.value.limit
      modifies this`input, this`toSkip, this`unreadMarker, this`curMarker, this`markerList
      ensures Process(old(St()), limits) == Stepped(Ok(done), St())
    {
      hide MarkerParsing.SaveMarker, MarkerParsing.SkipVariable, MarkerParsing.GetInterestingAppn;
      var m := unreadMarker;
      if (M_APP0 <= m <= M_APP15 || m == M_COM) && m in limits {
        done := SaveMarker(limits[m]);
      } else if m == M_APP0 || m == M_APP14 {
        done := GetInterestingAppn();
      } else {
        done := SkipVariable();
      }
    }

    /** The case of read_markers for the marker at hand, unless it ends the reading */
    method ProcessMarker() returns (r: Result<bool>)
      requires unreadMarker !in {0, M_SOS, M_EOI} && Wf(St())
      modifies this
      ensures Process(old(St()), limits) == Stepped(r, St())
    {
      var m := unreadMarker;
      if m == M_SOI {
        r := GetSoi();
      } else if m in {M_SOF0, M_SOF1, M_SOF2, M_SOF9, M_SOF10} {
        r := FrameSegment();
      } else if m in {M_DHT, M_DQT, M_DRI} {
        r := TableSegment();
      } else if M_APP0 <= m <= M_APP15 || m in {M_COM, M_DNL, M_DAC} {
        var done := VariableSegment();
        r := Ok(done);
      } else if RestartMarkers.M_RST0 <= m <= RestartMarkers.M_RST7 || m == M_TEM {
        unreadMarker := 0;
        r := Ok(true);
      } else if IsUnsupportedSof(m) {
        r := Err(SofUnsupported);
      } else {
        r := Err(UnknownMarker);
      }
    }

    /** read_markers: until SOS or EOI, or until there are no more bytes */
    method ReadMarkers() returns (r: Result<Code>)
      requires Wf(St())
      modifies this
      ensures match MarkerParsing.ReadMarkers(old(St()), limits)
              case Suspended(s) => r == Ok(JpegSuspended) && St() == s
              case ReachedSos(s) => r == Ok(ReachedSosCode) && St() == s
              case ReachedEoi(s) => r == Ok(ReachedEoiCode) && St() == s
              case Failed(e) => r == Err(e)
    {
      hide Process, FindMarker, Wf;
      while true
        invariant Wf(St()) && MarkerParsing.ReadMarkers(old(St()), limits) == MarkerParsing.ReadMarkers(St(), limits)
        decreases 2 * |input| + if unreadMarker != 0 then 1 else 0
      {
        ghost var before := St();
        StepFed(before, [], limits);
        StepShrinks(before, limits);
        var done;
        if unreadMarker == 0 {
          if !sawSoi {
            done := FirstMarker();
          } else {
            var found := NextMarker();
            done := Ok(found);
          }
        } else if unreadMarker == M_SOS {
          r := ReadSos();
          return;
        } else if unreadMarker == M_EOI {
          EoiReached(before, limits);
          unreadMarker := 0;
          return Ok(ReachedEoiCode);
        } else {
          done := ProcessMarker();
        }
        if done.Err? {
          return Err(done.error);
        }
        if !done.value {
          return Ok(JpegSuspended);
        }
      }
    }

    method ReadSos() returns (r: Result<Code>)
      requires unreadMarker == M_SOS
      modifies this
      ensures match Step(old(St()), limits)
              case Stop(Suspended(s)) => r == Ok(JpegSuspended) && St() == s
              case Stop(ReachedSos(s)) => r == Ok(ReachedSosCode) && St() == s
              case Stop(Failed(e)) => r == Err(e)
              case _ => false
    {
      hide MarkerSegments.GetSos;
      var done := GetSos();
      if done.Err? {
        return Err(done.error);
      }
      if !done.value {
        return Ok(JpegSuspended);
      }
      unreadMarker := 0;
      return Ok(ReachedSosCode);
    }
  }

  lemma EoiReached(st: State, limits: Limits)
    requires st.unread == M_EOI
    ensures Step(st, limits) == Stop(ReachedEoi(st.(unread := 0)))
  {
  }
}
