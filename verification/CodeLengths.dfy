/**
 Code lengths and their cost: the Kraft inequality for prefix codes, and the step of Huffman's argument, by which
 merging the two least weights loses nothing.  Symbols are the indices of a sequence of weights; weight 0 means unused.
 */
module CodeLengths {
  import opened Bits

  /** The weighted length of the code of the symbols below n. */
  function Cost(w: seq<nat>, len: seq<nat>, n: nat): int
    requires n <= |w| == |len|
  {
    if n == 0 then 0 else Cost(w, len, n - 1) + w[n - 1] * len[n - 1]
  }

  predicate Within(w: seq<nat>, len: seq<nat>, m: nat) {
    |w| == |len| && forall i :: 0 <= i < |w| && w[i] > 0 ==> len[i] <= m
  }

  /** The Kraft sum of the used symbols below n, in units of 2^-m. */
  function Units(w: seq<nat>, len: seq<nat>, m: nat, n: nat): int
    requires n <= |w| && Within(w, len, m)
  {
    if n == 0 then 0
    else Units(w, len, m, n - 1) + (if w[n - 1] > 0 then Pow2(m - len[n - 1]) else 0)
  }

  /** The lengths of some code, none longer than m. */
  predicate Kraft(w: seq<nat>, len: seq<nat>, m: nat) {
    Within(w, len, m) && Units(w, len, m, |w|) <= Pow2(m)
  }

  /** No code for these weights costs less than b. */
  ghost predicate LowerBound(w: seq<nat>, b: int) {
    forall len, m :: Kraft(w, len, m) ==> Cost(w, len, |w|) >= b
  }

  // ----- Sums under updates

  lemma {:induction false} CostUpdate(w: seq<nat>, len: seq<nat>, i: nat, x: nat, n: nat)
    requires n <= |w| == |len| && i < |w|
    ensures Cost(w, len[i := x], n) == Cost(w, len, n) + if i < n then w[i] * (x - len[i]) else 0
  {
    if n > 0 {
      CostUpdate(w, len, i, x, n - 1);
    }
  }

  lemma {:induction false} CostWeight(w: seq<nat>, len: seq<nat>, i: nat, x: nat, n: nat)
    requires n <= |w| == |len| && i < |w|
    ensures Cost(w[i := x], len, n) == Cost(w, len, n) + if i < n then (x - w[i]) * len[i] else 0
  {
    if n > 0 {
      CostWeight(w, len, i, x, n - 1);
    }
  }

  lemma {:induction false} UnitsUpdate(w: seq<nat>, len: seq<nat>, m: nat, i: nat, x: nat, n: nat)
    requires n <= |w| && i < |w| && Within(w, len, m) && x <= m
    ensures Within(w, len[i := x], m)
    ensures Units(w, len[i := x], m, n)
         == Units(w, len, m, n) + if i < n && w[i] > 0 then Pow2(m - x) - Pow2(m - len[i]) else 0
  {
    hide Pow2;
    if n > 0 {
      UnitsUpdate(w, len, m, i, x, n - 1);
    }
  }

  /** Dropping a symbol. */
  lemma {:induction false} UnitsDrop(w: seq<nat>, len: seq<nat>, m: nat, i: nat, n: nat)
    requires n <= |w| && i < |w| && Within(w, len, m)
    ensures Within(w[i := 0], len, m)
    ensures Units(w[i := 0], len, m, n) == Units(w, len, m, n) - if i < n && w[i] > 0 then Pow2(m - len[i]) else 0
  {
    hide Pow2;
    if n > 0 {
      UnitsDrop(w, len, m, i, n - 1);
    }
  }

  /** Only whether a symbol is used matters. */
  lemma {:induction false} UnitsWeight(w: seq<nat>, len: seq<nat>, m: nat, i: nat, x: nat, n: nat)
    requires n <= |w| && i < |w| && Within(w, len, m) && x > 0 && w[i] > 0
    ensures Within(w[i := x], len, m) && Units(w[i := x], len, m, n) == Units(w, len, m, n)
  {
    hide Pow2;
    if n > 0 {
      UnitsWeight(w, len, m, i, x, n - 1);
    }
  }

  /** If no used symbol has length m, smaller units do. */
  lemma {:induction false} UnitsHalve(w: seq<nat>, len: seq<nat>, m: nat, n: nat)
    requires n <= |w| && m > 0 && Within(w, len, m - 1)
    ensures Within(w, len, m) && Units(w, len, m, n) == 2 * Units(w, len, m - 1, n)
  {
    if n > 0 {
      UnitsHalve(w, len, m, n - 1);
    }
  }

  lemma {:induction false} UnitsNonneg(w: seq<nat>, len: seq<nat>, m: nat, n: nat, i: nat)
    requires n <= |w| && Within(w, len, m)
    ensures Units(w, len, m, n) >= 0
    ensures i < n && w[i] > 0 ==> Units(w, len, m, n) >= Pow2(m - len[i])
  {
    hide Pow2;
    if n > 0 {
      UnitsNonneg(w, len, m, n - 1, i);
    }
  }

  // ----- Huffman's argument

  /** a and b are used and no other used symbol weighs less than either. */
  ghost predicate TwoLeast(w: seq<nat>, a: nat, b: nat) {
    && a < |w| && b < |w| && a != b && w[a] > 0 && w[b] > 0
    && forall i :: 0 <= i < |w| && w[i] > 0 && i != a && i != b ==> w[a] <= w[i] && w[b] <= w[i]
  }

  function Merged(w: seq<nat>, a: nat, b: nat): seq<nat>
    requires a < |w| && b < |w|
  {
    w[a := w[a] + w[b]][b := 0]
  }

  /** Giving the lighter of two symbols the longer length. */
  lemma Exchange(w: seq<nat>, len: seq<nat>, m: nat, a: nat, d: nat) returns (len': seq<nat>)
    requires Kraft(w, len, m) && a < |w| && d < |w| && a != d && w[d] > 0 && 0 < w[a] <= w[d] && len[a] <= len[d]
    ensures Kraft(w, len', m) && Cost(w, len', |w|) <= Cost(w, len, |w|)
    ensures len' == len[a := len[d]][d := len[a]]
  {
    hide Cost, Units, Pow2;
    var n := |w|;
    CostUpdate(w, len, a, len[d], n);
    CostUpdate(w, len[a := len[d]], d, len[a], n);
    UnitsUpdate(w, len, m, a, len[d], n);
    UnitsUpdate(w, len[a := len[d]], m, d, len[a], n);
    len' := len[a := len[d]][d := len[a]];
    Lighter(w[a], w[d], len[a], len[d]);
  }

  lemma Lighter(x: nat, y: nat, l: nat, k: nat)
    requires x <= y && l <= k
    ensures x * (k - l) + y * (l - k) <= 0
  {
    assert x * (k - l) + y * (l - k) == (x - y) * (k - l);
  }

  /** Siblings of the greatest length make one symbol that is shorter by one. */
  lemma MergeSiblings(w: seq<nat>, len: seq<nat>, m: nat, a: nat, b: nat) returns (len': seq<nat>)
    requires Kraft(w, len, m) && a < |w| && b < |w| && a != b && w[a] > 0 && w[b] > 0 && m > 0
    requires len[a] == m && len[b] == m
    ensures Kraft(Merged(w, a, b), len', m)
    ensures Cost(Merged(w, a, b), len', |w|) + w[a] + w[b] == Cost(w, len, |w|)
  {
    hide Cost, Units;
    var n := |w|;
    len' := len[a := m - 1];
    var w1 := w[a := w[a] + w[b]];
    UnitsUpdate(w, len, m, a, m - 1, n);
    UnitsWeight(w, len', m, a, w[a] + w[b], n);
    UnitsDrop(w1, len', m, b, n);
    CostUpdate(w, len, a, m - 1, n);
    CostWeight(w, len', a, w[a] + w[b], n);
    CostWeight(w1, len', b, 0, n);
    assert w[b] * (m - 1) == w[b] * m - w[b];
    var x: int := w[a];
    assert x * (m - 1 - m) == -x;
    assert (0 - w[b]) * m == -(w[b] * m);
  }

  /** A symbol that is alone in having length m can be made shorter. */
  lemma {:induction false} OddUnits(w: seq<nat>, len: seq<nat>, m: nat, a: nat, n: nat)
    requires n <= |w| && a < |w| && Within(w, len, m) && len[a] == m && w[a] > 0
    requires forall i :: 0 <= i < |w| && w[i] > 0 && i != a ==> len[i] < m
    ensures Units(w, len, m, n) % 2 == if a < n then 1 else 0
  {
    if n > 0 {
      OddUnits(w, len, m, a, n - 1);
      var i := n - 1;
      if w[i] > 0 && i != a {
        assert Pow2(m - len[i]) == 2 * Pow2(m - len[i] - 1);
      }
    }
  }

  lemma Shorten(w: seq<nat>, len: seq<nat>, m: nat, a: nat) returns (len': seq<nat>)
    requires Kraft(w, len, m) && a < |w| && w[a] > 0 && len[a] == m > 0
    requires forall i :: 0 <= i < |w| && w[i] > 0 && i != a ==> len[i] < m
    ensures Kraft(w, len', m - 1) && Cost(w, len', |w|) <= Cost(w, len, |w|)
  {
    hide Cost, Units;
    var n := |w|;
    OddUnits(w, len, m, a, n);
    UnitsUpdate(w, len, m, a, m - 1, n);
    CostUpdate(w, len, a, m - 1, n);
    len' := len[a := m - 1];
    UnitsHalve(w, len', m, n);
    var x: int := w[a];
    assert x * (m - 1 - m) == -x;
    assert Pow2(m) == 2 * Pow2(m - 1) && Pow2(0) == 1 && Pow2(1) == 2;
  }

  lemma {:induction false} UnitsOfTwo(w: seq<nat>, len: seq<nat>, m: nat, n: nat, a: nat, b: nat)
    requires n <= |w| && Within(w, len, m) && a < n && b < n && a != b && w[a] > 0 && w[b] > 0
    ensures Units(w, len, m, n) >= Pow2(m - len[a]) + Pow2(m - len[b])
  {
    hide Pow2;
    if a == n - 1 {
      UnitsNonneg(w, len, m, n - 1, b);
    } else if b == n - 1 {
      UnitsNonneg(w, len, m, n - 1, a);
    } else {
      UnitsOfTwo(w, len, m, n - 1, a, b);
    }
  }

  /** The two least weights are given length m if any symbol has it, as far as there are such symbols. */
  lemma ExchangeLeast(w: seq<nat>, len: seq<nat>, m: nat, a: nat, b: nat) returns (len': seq<nat>)
    requires TwoLeast(w, a, b) && Kraft(w, len, m) && exists d :: 0 <= d < |w| && w[d] > 0 && len[d] == m
    ensures Kraft(w, len', m) && Cost(w, len', |w|) <= Cost(w, len, |w|)
    ensures len'[a] == m || len'[b] == m
    ensures (len'[a] == m && len'[b] == m) || forall d :: 0 <= d < |w| && w[d] > 0 && d != a && d != b ==> len'[d] < m
  {
    hide Cost, Units;
    len' := len;
    if len'[a] < m && exists d :: 0 <= d < |w| && w[d] > 0 && d != a && d != b && len'[d] == m {
      var d :| 0 <= d < |w| && w[d] > 0 && d != a && d != b && len'[d] == m;
      len' := Exchange(w, len', m, a, d);
    }
    if len'[b] < m && exists d :: 0 <= d < |w| && w[d] > 0 && d != a && d != b && len'[d] == m {
      var d :| 0 <= d < |w| && w[d] > 0 && d != a && d != b && len'[d] == m;
      len' := Exchange(w, len', m, b, d);
    }
  }

  /** Any code can be turned into one for the merged weights that saves what the merge costs. */
  lemma {:induction false} MergeLeast(w: seq<nat>, len: seq<nat>, m: nat, a: nat, b: nat)
    returns (len': seq<nat>, m': nat)
    requires TwoLeast(w, a, b) && Kraft(w, len, m)
    ensures Kraft(Merged(w, a, b), len', m')
    ensures Cost(Merged(w, a, b), len', |w|) + w[a] + w[b] <= Cost(w, len, |w|)
    decreases m
  {
    hide Cost, Units, Merged;
    UnitsOfTwo(w, len, m, |w|, a, b);
    NotBoth(m, len[a], len[b]);
    var l, k := len, m - 1;
    if exists d :: 0 <= d < |w| && w[d] > 0 && len[d] == m {
      l := ExchangeLeast(w, len, m, a, b);
      if l[a] == m && l[b] == m {
        m' := m;
        len' := MergeSiblings(w, l, m, a, b);
        return;
      }
      l := Shorten(w, l, m, if l[a] == m then a else b);
    } else {
      UnitsHalve(w, len, m, |w|);
      assert Pow2(m) == 2 * Pow2(m - 1);
    }
    len', m' := MergeLeast(w, l, m - 1, a, b);
  }

  lemma NotBoth(m: nat, x: nat, y: nat)
    requires x <= m && y <= m && Pow2(m - x) + Pow2(m - y) <= Pow2(m)
    ensures m > 0
  {
  }

  /** Merging the two least weights raises every lower bound by their sum. */
  lemma MergeRaisesBound(w: seq<nat>, a: nat, b: nat, bound: int)
    requires TwoLeast(w, a, b) && LowerBound(Merged(w, a, b), bound)
    ensures LowerBound(w, bound + w[a] + w[b])
  {
    hide Cost, Units;
    forall len, m | Kraft(w, len, m)
      ensures Cost(w, len, |w|) >= bound + w[a] + w[b]
    {
      var len', m' := MergeLeast(w, len, m, a, b);
    }
  }

  lemma {:induction false} CostNonneg(w: seq<nat>, len: seq<nat>, n: nat)
    requires n <= |w| == |len|
    ensures Cost(w, len, n) >= 0
  {
    if n > 0 {
      CostNonneg(w, len, n - 1);
      assert w[n - 1] * len[n - 1] >= 0;
    }
  }

  // ----- Prefix codes

  predicate PrefixFree(w: seq<nat>, code: seq<seq<bool>>) {
    |w| == |code| &&
    forall i, j :: 0 <= i < |w| && 0 <= j < |w| && i != j && w[i] > 0 && w[j] > 0 ==> !(code[i] <= code[j])
  }

  function Lengths(code: seq<seq<bool>>): (len: seq<nat>)
    ensures |len| == |code|
  {
    seq(|code|, i requires 0 <= i < |code| => |code[i]|)
  }

  /** The symbols whose code words start with bit b, and the rest of the code words. */
  function Branch(w: seq<nat>, code: seq<seq<bool>>, b: bool): (v: seq<nat>)
    requires |w| == |code|
    ensures |v| == |w|
  {
    seq(|w|, i requires 0 <= i < |w| => if code[i] != [] && code[i][0] == b then w[i] else 0)
  }

  function Tails(code: seq<seq<bool>>): (t: seq<seq<bool>>)
    ensures |t| == |code|
  {
    seq(|code|, i requires 0 <= i < |code| => if code[i] != [] then code[i][1..] else [])
  }

  lemma {:induction false} UnitsOfBranches(w: seq<nat>, code: seq<seq<bool>>, m: nat, n: nat)
    requires |w| == |code| && n <= |w| && m > 0 && Within(w, Lengths(code), m)
    requires forall i :: 0 <= i < |w| && w[i] > 0 ==> code[i] != []
    ensures Within(Branch(w, code, false), Lengths(Tails(code)), m - 1)
    ensures Within(Branch(w, code, true), Lengths(Tails(code)), m - 1)
    ensures Units(w, Lengths(code), m, n)
         == Units(Branch(w, code, false), Lengths(Tails(code)), m - 1, n)
            + Units(Branch(w, code, true), Lengths(Tails(code)), m - 1, n)
  {
    hide Pow2;
    if n > 0 {
      UnitsOfBranches(w, code, m, n - 1);
    }
  }

  lemma ConsPrefix(b: bool, x: seq<bool>, y: seq<bool>)
    ensures x <= y ==> [b] + x <= [b] + y
  {
    if x <= y {
      assert y == x + y[|x|..];
    }
  }

  lemma BranchPrefixFree(w: seq<nat>, code: seq<seq<bool>>, b: bool)
    requires PrefixFree(w, code)
    ensures PrefixFree(Branch(w, code, b), Tails(code))
  {
    var v, t := Branch(w, code, b), Tails(code);
    forall i, j | 0 <= i < |w| && 0 <= j < |w| && i != j && v[i] > 0 && v[j] > 0
      ensures !(t[i] <= t[j])
    {
      assert code[i] == [b] + t[i] && code[j] == [b] + t[j];
      ConsPrefix(b, t[i], t[j]);
    }
  }

  lemma {:induction false} UnitsOfOne(w: seq<nat>, len: seq<nat>, m: nat, n: nat, i: nat)
    requires n <= |w| && Within(w, len, m) && forall j :: 0 <= j < |w| && w[j] > 0 ==> j == i
    ensures 0 <= Units(w, len, m, n) <= Pow2(m)
  {
    if n > 0 {
      UnitsOfOne(w, len, m, n - 1, i);
      if w[n - 1] > 0 {
        UnitsOfNone(w, len, m, n - 1);
        PowerBelow(m - len[n - 1], m);
      }
    }
  }

  lemma {:induction false} UnitsOfNone(w: seq<nat>, len: seq<nat>, m: nat, n: nat)
    requires n <= |w| && Within(w, len, m) && forall j :: 0 <= j < n ==> w[j] == 0
    ensures Units(w, len, m, n) == 0
  {
    if n > 0 {
      UnitsOfNone(w, len, m, n - 1);
    }
  }

  lemma {:induction false} PowerBelow(x: nat, y: nat)
    requires x <= y
    ensures Pow2(x) <= Pow2(y)
    decreases y
  {
    if x < y {
      PowerBelow(x, y - 1);
    }
  }

  /** The lengths of a prefix code satisfy the Kraft inequality. */
  lemma {:induction false} PrefixCodesAreKraft(w: seq<nat>, code: seq<seq<bool>>, m: nat)
    requires PrefixFree(w, code) && Within(w, Lengths(code), m)
    ensures Kraft(w, Lengths(code), m)
    decreases m
  {
    hide Units, Branch, Tails;
    if e :| 0 <= e < |w| && w[e] > 0 && code[e] == [] {
      forall j | 0 <= j < |w| && w[j] > 0 ensures j == e {
        assert code[e] <= code[j];
      }
      UnitsOfOne(w, Lengths(code), m, |w|, e);
    } else if m == 0 {
      UnitsOfNoneLong(w, code);
    } else {
      UnitsOfBranches(w, code, m, |w|);
      BranchPrefixFree(w, code, false);
      BranchPrefixFree(w, code, true);
      PrefixCodesAreKraft(Branch(w, code, false), Tails(code), m - 1);
      PrefixCodesAreKraft(Branch(w, code, true), Tails(code), m - 1);
      assert Pow2(m) == 2 * Pow2(m - 1);
    }
  }

  lemma UnitsOfNoneLong(w: seq<nat>, code: seq<seq<bool>>)
    requires |w| == |code| && Within(w, Lengths(code), 0)
    requires forall i :: 0 <= i < |w| && w[i] > 0 ==> code[i] != []
    ensures Units(w, Lengths(code), 0, |w|) == 0
  {
    forall j | 0 <= j < |w| ensures w[j] == 0 {
      assert Lengths(code)[j] == |code[j]|;
    }
    UnitsOfNone(w, Lengths(code), 0, |w|);
  }
}
