/**
 jpeg_gen_optimal_table (jchuff.c, section K.2 of ITU-T T.81): Huffman's procedure in place over freq, codesize and
 others, the limit of 16 bits, and the table.
 */
module HuffmanProcedure {
  import opened Bits
  import opened CodeLengths

  const SYMBOLS := 257
  const MAX_COUNT := 1_000_000_000

  function Sum(w: seq<nat>, n: nat): nat
    requires n <= |w|
  {
    if n == 0 then 0 else Sum(w, n - 1) + w[n - 1]
  }

  function Used(w: seq<nat>, n: nat): (c: nat)
    requires n <= |w|
    ensures c <= n
  {
    if n == 0 then 0 else Used(w, n - 1) + (if w[n - 1] > 0 then 1 else 0)
  }

  lemma {:induction false} SumUpdate(w: seq<nat>, i: nat, x: nat, n: nat)
    requires n <= |w| && i < |w|
    ensures Sum(w[i := x], n) == Sum(w, n) + if i < n then x - w[i] else 0
    ensures Used(w[i := x], n)
         == Used(w, n) + if i < n then (if x > 0 then 1 else 0) - (if w[i] > 0 then 1 else 0) else 0
  {
    if n > 0 {
      SumUpdate(w, i, x, n - 1);
    }
  }

  lemma {:induction false} AtMostSum(w: seq<nat>, i: nat, n: nat)
    requires i < n <= |w|
    ensures w[i] <= Sum(w, n) && (w[i] > 0 ==> Used(w, n) > 0)
  {
    if i < n - 1 {
      AtMostSum(w, i, n - 1);
    }
  }

  lemma {:induction false} TwoUsed(w: seq<nat>, i: nat, j: nat, n: nat)
    requires i < n <= |w| && j < n && i != j && w[i] > 0 && w[j] > 0
    ensures Used(w, n) >= 2
  {
    if i < n - 1 && j < n - 1 {
      TwoUsed(w, i, j, n - 1);
    } else {
      AtMostSum(w, if i < j then i else j, n - 1);
    }
  }

  /** Merging keeps the total and uses one symbol less. */
  lemma MergedSum(w: seq<nat>, a: nat, b: nat)
    requires a < |w| && b < |w| && a != b && w[a] > 0 && w[b] > 0
    ensures Sum(Merged(w, a, b), |w|) == Sum(w, |w|) && Used(Merged(w, a, b), |w|) == Used(w, |w|) - 1
  {
    hide Sum, Used;
    var w1 := w[a := w[a] + w[b]];
    SumUpdate(w, a, w[a] + w[b], |w|);
    SumUpdate(w1, b, 0, |w1|);
  }

  // ----- Sums over one tree of the forest: owner[i] is the root of i

  /** The sum of val over the leaves of root c below n. */
  function TreeSum(owner: seq<int>, c: int, val: seq<int>, n: nat): int
    requires n <= |owner| == |val|
  {
    if n == 0 then 0 else TreeSum(owner, c, val, n - 1) + (if owner[n - 1] == c then val[n - 1] else 0)
  }

  function Joined(owner: seq<int>, a: int, b: int): (o: seq<int>)
    ensures |o| == |owner|
  {
    seq(|owner|, i requires 0 <= i < |owner| => if owner[i] == b then a else owner[i])
  }

  lemma {:induction false} TreeSumJoined(owner: seq<int>, a: int, b: int, c: int, val: seq<int>, n: nat)
    requires n <= |owner| == |val| && a != b
    ensures TreeSum(Joined(owner, a, b), c, val, n)
         == if c == a then TreeSum(owner, a, val, n) + TreeSum(owner, b, val, n)
            else if c == b then 0 else TreeSum(owner, c, val, n)
  {
    if n > 0 {
      TreeSumJoined(owner, a, b, c, val, n - 1);
    }
  }

  /** Values that agree on a tree have the same sum over it. */
  lemma {:induction false} TreeSumSame(owner: seq<int>, c: int, val: seq<int>, val': seq<int>, n: nat)
    requires n <= |owner| == |val| == |val'| && forall i :: 0 <= i < n && owner[i] == c ==> val'[i] == val[i]
    ensures TreeSum(owner, c, val', n) == TreeSum(owner, c, val, n)
  {
    if n > 0 {
      TreeSumSame(owner, c, val, val', n - 1);
    }
  }

  lemma {:induction false} TreeSumHalf(owner: seq<int>, c: int, val: seq<int>, val': seq<int>, n: nat)
    requires n <= |owner| == |val| == |val'| && forall i :: 0 <= i < n && owner[i] == c ==> val[i] == 2 * val'[i]
    ensures TreeSum(owner, c, val, n) == 2 * TreeSum(owner, c, val', n)
  {
    if n > 0 {
      TreeSumHalf(owner, c, val, val', n - 1);
    }
  }

  /** Code words of length len[i], in units of 2^-SYMBOLS. */
  function UnitsAt(len: seq<nat>): (u: seq<int>)
    requires forall i :: 0 <= i < |len| ==> len[i] <= SYMBOLS
    ensures |u| == |len|
  {
    seq(|len|, i requires 0 <= i < |len| => Pow2(SYMBOLS - len[i]))
  }

  function AsInts(w: seq<nat>): (v: seq<int>)
    ensures |v| == |w|
  {
    seq(|w|, i requires 0 <= i < |w| => w[i])
  }

  // ----- One merge: every leaf of the two trees gets one bit longer

  function Longer(len: seq<nat>, owner: seq<int>, a: int, b: int): (l: seq<nat>)
    requires |len| == |owner|
    ensures |l| == |len|
  {
    seq(|len|, i requires 0 <= i < |len| => if owner[i] == a || owner[i] == b then len[i] + 1 else len[i])
  }

  lemma {:induction false} CostOfMerge(f: seq<nat>, len: seq<nat>, owner: seq<int>, a: int, b: int, n: nat)
    requires n <= |f| == |len| == |owner| && a != b
    ensures Cost(f, Longer(len, owner, a, b), n)
         == Cost(f, len, n) + TreeSum(owner, a, AsInts(f), n) + TreeSum(owner, b, AsInts(f), n)
  {
    if n > 0 {
      CostOfMerge(f, len, owner, a, b, n - 1);
      assert f[n - 1] * (len[n - 1] + 1) == f[n - 1] * len[n - 1] + f[n - 1];
    }
  }

  /** The forest: every tree is a complete code of its leaves, and weighs what they weigh. */
  ghost predicate IsForest(f: seq<nat>, w: seq<nat>, len: seq<nat>, owner: seq<int>) {
    && |f| == |w| == |len| == |owner| == SYMBOLS
    && (forall i :: 0 <= i < SYMBOLS ==> len[i] + Used(w, SYMBOLS) <= SYMBOLS)
    && (forall i :: 0 <= i < SYMBOLS ==>
        if f[i] == 0 then owner[i] == -1 && w[i] == 0 && len[i] == 0 else 0 <= owner[i] < SYMBOLS && w[owner[i]] > 0)
    && (forall c :: 0 <= c < SYMBOLS && w[c] > 0 ==> owner[c] == c && TreeSum(owner, c, AsInts(f), SYMBOLS) == w[c])
    && (forall c :: 0 <= c < SYMBOLS && w[c] > 0 ==> TreeSum(owner, c, UnitsAt(len), SYMBOLS) == Pow2(SYMBOLS))
  }

  lemma {:induction false} SingleTree(owner: seq<int>, c: int, val: seq<int>, n: nat)
    requires n <= |owner| == |val| && 0 <= c < |owner|
    requires forall i :: 0 <= i < |owner| ==> (owner[i] == c <==> i == c)
    ensures TreeSum(owner, c, val, n) == if c < n then val[c] else 0
  {
    if n > 0 {
      SingleTree(owner, c, val, n - 1);
    }
  }

  /** Where each used symbol is a tree of its own. */
  function Singles(f: seq<nat>): (o: seq<int>)
    ensures |o| == |f|
  {
    seq(|f|, i requires 0 <= i < |f| => if f[i] > 0 then i else -1)
  }

  lemma StartForest(f: seq<nat>, len: seq<nat>)
    requires |f| == |len| == SYMBOLS && forall i :: 0 <= i < SYMBOLS ==> len[i] == 0
    ensures IsForest(f, f, len, Singles(f))
  {
    hide Pow2;
    var o := Singles(f);
    forall c | 0 <= c < SYMBOLS && f[c] > 0
      ensures TreeSum(o, c, AsInts(f), SYMBOLS) == f[c] && TreeSum(o, c, UnitsAt(len), SYMBOLS) == Pow2(SYMBOLS)
    {
      SingleTree(o, c, AsInts(f), SYMBOLS);
      SingleTree(o, c, UnitsAt(len), SYMBOLS);
    }
  }

  lemma MergeWeights(f: seq<nat>, w: seq<nat>, len: seq<nat>, owner: seq<int>, a: nat, b: nat, c: nat)
    requires IsForest(f, w, len, owner) && a < SYMBOLS && b < SYMBOLS && a != b && w[a] > 0 && w[b] > 0
    requires c < SYMBOLS && Merged(w, a, b)[c] > 0
    ensures Joined(owner, a, b)[c] == c && TreeSum(Joined(owner, a, b), c, AsInts(f), SYMBOLS) == Merged(w, a, b)[c]
  {
    hide Pow2, TreeSum, UnitsAt;
    TreeSumJoined(owner, a, b, c, AsInts(f), SYMBOLS);
  }

  lemma MergeUnits(f: seq<nat>, w: seq<nat>, len: seq<nat>, owner: seq<int>, a: nat, b: nat, c: nat)
    requires IsForest(f, w, len, owner) && a < SYMBOLS && b < SYMBOLS && a != b && w[a] > 0 && w[b] > 0
    requires c < SYMBOLS && Merged(w, a, b)[c] > 0
    requires forall i :: 0 <= i < SYMBOLS ==> Longer(len, owner, a, b)[i] <= SYMBOLS
    ensures TreeSum(Joined(owner, a, b), c, UnitsAt(Longer(len, owner, a, b)), SYMBOLS) == Pow2(SYMBOLS)
  {
    hide TreeSum, Used;
    var len' := Longer(len, owner, a, b);
    var u, u' := UnitsAt(len), UnitsAt(len');
    TreeSumJoined(owner, a, b, c, u', SYMBOLS);
    if c == a {
      forall i | 0 <= i < SYMBOLS && (owner[i] == a || owner[i] == b)
        ensures u[i] == 2 * u'[i]
      {
        assert len'[i] == len[i] + 1;
        OnePowerLess(SYMBOLS - len[i]);
      }
      TreeSumHalf(owner, a, u, u', SYMBOLS);
      TreeSumHalf(owner, b, u, u', SYMBOLS);
    } else {
      TreeSumSame(owner, c, u, u', SYMBOLS);
    }
  }

  lemma OnePowerLess(n: nat)
    requires n > 0
    ensures Pow2(n) == 2 * Pow2(n - 1)
  {
  }

  lemma MergeForest(f: seq<nat>, w: seq<nat>, len: seq<nat>, owner: seq<int>, a: nat, b: nat)
    requires IsForest(f, w, len, owner) && a < SYMBOLS && b < SYMBOLS && a != b && w[a] > 0 && w[b] > 0
    ensures IsForest(f, Merged(w, a, b), Longer(len, owner, a, b), Joined(owner, a, b))
  {
    hide TreeSum, Used, Pow2, UnitsAt;
    var w', len', owner' := Merged(w, a, b), Longer(len, owner, a, b), Joined(owner, a, b);
    MergedSum(w, a, b);
    forall c | 0 <= c < SYMBOLS && w'[c] > 0
      ensures owner'[c] == c && TreeSum(owner', c, AsInts(f), SYMBOLS) == w'[c]
      ensures TreeSum(owner', c, UnitsAt(len'), SYMBOLS) == Pow2(SYMBOLS)
    {
      MergeWeights(f, w, len, owner, a, b, c);
      MergeUnits(f, w, len, owner, a, b, c);
    }
  }

  /** What has been spent on the merges so far is what the lengths cost so far. */
  ghost predicate Spent(f: seq<nat>, w: seq<nat>, len: seq<nat>) {
    && |f| == |w| == |len|
    && forall bound :: LowerBound(w, bound) ==> LowerBound(f, bound + Cost(f, len, |f|))
  }

  lemma {:induction false} CostOfZeros(f: seq<nat>, len: seq<nat>, n: nat)
    requires n <= |f| == |len| && forall i :: 0 <= i < n ==> len[i] == 0
    ensures Cost(f, len, n) == 0
  {
    if n > 0 {
      CostOfZeros(f, len, n - 1);
    }
  }

  lemma NothingSpent(f: seq<nat>, len: seq<nat>)
    requires |f| == |len| && forall i :: 0 <= i < |f| ==> len[i] == 0
    ensures Spent(f, f, len)
  {
    hide LowerBound;
    CostOfZeros(f, len, |f|);
  }

  lemma SpendMerge(f: seq<nat>, w: seq<nat>, len: seq<nat>, owner: seq<int>, a: nat, b: nat)
    requires IsForest(f, w, len, owner) && Spent(f, w, len) && TwoLeast(w, a, b)
    ensures Spent(f, Merged(w, a, b), Longer(len, owner, a, b))
  {
    hide LowerBound, Cost, TreeSum, Used, UnitsAt;
    var len' := Longer(len, owner, a, b);
    CostOfMerge(f, len, owner, a, b, SYMBOLS);
    forall bound | LowerBound(Merged(w, a, b), bound)
      ensures LowerBound(f, bound + Cost(f, len', SYMBOLS))
    {
      MergeRaisesBound(w, a, b, bound);
    }
  }

  /** When one tree is left, no code costs less than the lengths. */
  lemma AllSpent(f: seq<nat>, w: seq<nat>, len: seq<nat>)
    requires Spent(f, w, len)
    ensures LowerBound(f, Cost(f, len, |f|))
  {
    hide Cost, Units;
    assert LowerBound(w, 0) by {
      forall l, m | Kraft(w, l, m) ensures Cost(w, l, |w|) >= 0 {
        CostNonneg(w, l, |w|);
      }
    }
  }

  // ----- Chains: the leaves of a tree, linked by others

  /** others links the elements of ch, which ends the chain. */
  predicate IsChain(others: seq<int>, ch: seq<nat>) {
    && ch != [] && (forall k :: 0 <= k < |ch| ==> ch[k] < |others|)
    && (forall k :: 0 <= k < |ch| - 1 ==> others[ch[k]] == ch[k + 1])
    && others[ch[|ch| - 1]] == -1
  }

  predicate NoRepeat(ch: seq<nat>) {
    forall i, j :: 0 <= i < j < |ch| ==> ch[i] != ch[j]
  }

  /** Every root heads a chain of exactly the leaves of its tree, none of them twice. */
  ghost predicate AreChains(w: seq<nat>, others: seq<int>, owner: seq<int>, chains: seq<seq<nat>>) {
    && |w| == |others| == |owner| == |chains| == SYMBOLS
    && forall c :: 0 <= c < SYMBOLS && w[c] > 0 ==>
      && IsChain(others, chains[c]) && chains[c][0] == c
      && (NoRepeat(chains[c]) && chains[c][|chains[c]| - 1] < SYMBOLS)
      && (forall i :: 0 <= i < SYMBOLS ==> (owner[i] == c <==> i in chains[c]))
  }

  function Link(chains: seq<seq<nat>>, a: nat, b: nat): seq<seq<nat>>
    requires a < |chains| && b < |chains|
  {
    chains[a := chains[a] + chains[b]]
  }

  lemma LinkOne(w: seq<nat>, others: seq<int>, owner: seq<int>, chains: seq<seq<nat>>, a: nat, b: nat, last: nat)
    requires AreChains(w, others, owner, chains) && a < SYMBOLS && b < SYMBOLS && a != b && w[a] > 0 && w[b] > 0
    requires last == chains[a][|chains[a]| - 1]
    ensures IsChain(others[last := b], chains[a] + chains[b])
    ensures forall i, j :: 0 <= i < j < |chains[a] + chains[b]| ==> (chains[a] + chains[b])[i] != (chains[a] + chains[b])[j]
    ensures forall i :: 0 <= i < SYMBOLS ==> (Joined(owner, a, b)[i] == a <==> i in chains[a] + chains[b])
  {
    var x, y := chains[a], chains[b];
    var o := others[last := b];
    assert forall i :: 0 <= i < |x| ==> owner[x[i]] == a by { forall i | 0 <= i < |x| ensures owner[x[i]] == a { assert x[i] in x; } }
    assert forall i :: 0 <= i < |y| ==> owner[y[i]] == b by { forall i | 0 <= i < |y| ensures owner[y[i]] == b { assert y[i] in y; } }
    forall k | 0 <= k < |x + y| - 1
      ensures o[(x + y)[k]] == (x + y)[k + 1]
    {
      if k >= |x| {
        assert (x + y)[k] == y[k - |x|];
      }
    }
  }

  lemma LinkChains(w: seq<nat>, others: seq<int>, owner: seq<int>, chains: seq<seq<nat>>, a: nat, b: nat, last: nat)
    requires AreChains(w, others, owner, chains) && a < SYMBOLS && b < SYMBOLS && a != b && w[a] > 0 && w[b] > 0
    requires last == chains[a][|chains[a]| - 1]
    ensures last < SYMBOLS && others[last] == -1
    ensures AreChains(Merged(w, a, b), others[last := b], Joined(owner, a, b), Link(chains, a, b))
  {
    LinkOne(w, others, owner, chains, a, b, last);
    assert last in chains[a];
    var w', o', owner', ch' := Merged(w, a, b), others[last := b], Joined(owner, a, b), Link(chains, a, b);
    forall c | 0 <= c < SYMBOLS && w'[c] > 0 && c != a
      ensures IsChain(o', ch'[c]) && forall i :: 0 <= i < SYMBOLS ==> (owner'[i] == c <==> i in ch'[c])
    {
      assert forall k :: 0 <= k < |chains[c]| ==> chains[c][k] != last by {
        forall k | 0 <= k < |chains[c]| ensures chains[c][k] != last { assert chains[c][k] in chains[c]; }
      }
    }
  }

  lemma SingleChains(f: seq<nat>, others: seq<int>)
    requires |f| == |others| == SYMBOLS && forall i :: 0 <= i < SYMBOLS ==> others[i] == -1
    ensures AreChains(f, others, Singles(f), seq(SYMBOLS, i => [i]))
  {
  }

  // ----- The procedure

  /** The last index of the least nonzero count not above the bound, other than skip. */
  method LeastCount(freq: array<nat>, skip: int) returns (c: int)
    requires freq.Length == SYMBOLS
    ensures c == -1 || (0 <= c < SYMBOLS && c != skip && 0 < freq[c] <= MAX_COUNT)
    ensures forall i :: 0 <= i < SYMBOLS && i != skip && 0 < freq[i] <= MAX_COUNT ==> c >= 0 && freq[c] <= freq[i]
    ensures forall i :: c < i < SYMBOLS && i != skip && 0 < freq[i] <= MAX_COUNT ==> c >= 0 && freq[c] < freq[i]
  {
    c := -1;
    var v := MAX_COUNT;
    for i := 0 to SYMBOLS
      invariant c == -1 || (0 <= c < i && c != skip && 0 < freq[c] == v)
      invariant v <= MAX_COUNT && (c == -1 ==> v == MAX_COUNT)
      invariant forall j :: 0 <= j < i && j != skip && 0 < freq[j] <= MAX_COUNT ==> c >= 0 && v <= freq[j]
      invariant forall j :: c < j < i && j != skip && 0 < freq[j] <= MAX_COUNT ==> c >= 0 && v < freq[j]
    {
      if freq[i] != 0 && freq[i] <= v && i != skip {
        v := freq[i];
        c := i;
      }
    }
  }

  /** The lengths with those of the symbols of ch counted up once. */
  function CountedUp(len: seq<nat>, ch: seq<nat>): (l: seq<nat>)
    ensures |l| == |len|
  {
    seq(|len|, i requires 0 <= i < |len| => if i in ch then len[i] + 1 else len[i])
  }

  lemma ChainStep(others: seq<int>, ch: seq<nat>, k: nat)
    requires IsChain(others, ch) && k < |ch|
    ensures others[ch[k]] == if k < |ch| - 1 then ch[k + 1] else -1
  {
  }

  /** One bit more for everything on the branch of c; the end of the chain is returned. */
  method LengthenBranch(codesize: array<nat>, others: array<int>, c: nat, ghost ch: seq<nat>) returns (last: nat)
    requires codesize.Length == SYMBOLS && others.Length == SYMBOLS && IsChain(others[..], ch) && ch[0] == c
    requires NoRepeat(ch)
    requires codesize as object != others as object
    modifies codesize
    ensures codesize[..] == CountedUp(old(codesize[..]), ch) && last == ch[|ch| - 1]
  {
    last := c;
    ghost var k, o := 0, others[..];
    codesize[last] := codesize[last] + 1;
    while others[last] >= 0
      invariant 0 <= k < |ch| && last == ch[k] && others[..] == o
      invariant forall i :: 0 <= i < SYMBOLS ==> codesize[i] == old(codesize[i]) + if i in ch[..k + 1] then 1 else 0
      decreases |ch| - k
    {
      ChainStep(o, ch, k);
      assert o[ch[k]] == others[ch[k]];
      last := others[last];
      k := k + 1;
      assert ch[..k + 1] == ch[..k] + [ch[k]];
      codesize[last] := codesize[last] + 1;
    }
    ChainStep(o, ch, k);
    assert o[ch[k]] == others[ch[k]];
    assert ch[..k + 1] == ch;
  }

  /** Both branches get longer: that is what the merge does to the code lengths. */
  lemma BothLonger(w: seq<nat>, others: seq<int>, owner: seq<int>, chains: seq<seq<nat>>, len: seq<nat>, a: nat, b: nat)
    requires AreChains(w, others, owner, chains) && a < SYMBOLS && b < SYMBOLS && a != b && w[a] > 0 && w[b] > 0
    requires |len| == SYMBOLS
    ensures CountedUp(CountedUp(len, chains[a]), chains[b]) == Longer(len, owner, a, b)
  {
  }

  /** The state of the merging loop. */
  ghost predicate Merging(f: seq<nat>, w: seq<nat>, len: seq<nat>, others: seq<int>, owner: seq<int>, chains: seq<seq<nat>>) {
    IsForest(f, w, len, owner) && AreChains(w, others, owner, chains) && Spent(f, w, len)
  }

  lemma MergeStep(f: seq<nat>, w: seq<nat>, len: seq<nat>, others: seq<int>, owner: seq<int>, chains: seq<seq<nat>>,
                  a: nat, b: nat, last: nat)
    requires Merging(f, w, len, others, owner, chains) && TwoLeast(w, a, b) && last == chains[a][|chains[a]| - 1]
    ensures last < SYMBOLS && others[last] == -1
    ensures Merging(f, Merged(w, a, b), Longer(len, owner, a, b), others[last := b], Joined(owner, a, b), Link(chains, a, b))
  {
    hide IsForest, AreChains, Spent, Merged;
    assert |w| == SYMBOLS by { ForestSizes(f, w, len, owner); }
    MergeForest(f, w, len, owner, a, b);
    SpendMerge(f, w, len, owner, a, b);
    LinkChains(w, others, owner, chains, a, b, last);
  }

  lemma ForestSizes(f: seq<nat>, w: seq<nat>, len: seq<nat>, owner: seq<int>)
    requires IsForest(f, w, len, owner)
    ensures |f| == |w| == |len| == |owner| == SYMBOLS
  {
  }

  /** Minimal lengths of a complete code for the used symbols. */
  ghost predicate OptimalLengths(f: seq<nat>, len: seq<nat>) {
    && |f| == |len| == SYMBOLS
    && LowerBound(f, Cost(f, len, SYMBOLS))
    && (forall i :: 0 <= i < SYMBOLS && f[i] == 0 ==> len[i] == 0)
    && (forall i :: 0 <= i < SYMBOLS ==> len[i] < SYMBOLS)
    && Within(f, len, SYMBOLS) && Units(f, len, SYMBOLS, SYMBOLS) == Pow2(SYMBOLS)
  }

  lemma {:induction false} UnitsOfTree(f: seq<nat>, len: seq<nat>, owner: seq<int>, c: int, n: nat)
    requires n <= |f| == |len| == |owner| == SYMBOLS && forall i :: 0 <= i < SYMBOLS ==> len[i] <= SYMBOLS
    requires forall i :: 0 <= i < SYMBOLS ==> (owner[i] == c <==> f[i] > 0)
    ensures Within(f, len, SYMBOLS) && Units(f, len, SYMBOLS, n) == TreeSum(owner, c, UnitsAt(len), n)
  {
    hide Pow2;
    if n > 0 {
      UnitsOfTree(f, len, owner, c, n - 1);
    }
  }

  /** One tree is left: its leaves are all used symbols. */
  lemma MergingDone(f: seq<nat>, w: seq<nat>, len: seq<nat>, others: seq<int>, owner: seq<int>, chains: seq<seq<nat>>, c: nat)
    requires Merging(f, w, len, others, owner, chains) && c < SYMBOLS && w[c] > 0
    requires forall i :: 0 <= i < SYMBOLS && i != c ==> w[i] == 0
    ensures OptimalLengths(f, len)
  {
    hide Pow2, TreeSum, UnitsAt, Spent, Cost, LowerBound, AreChains;
    AllSpent(f, w, len);
    AtMostSum(w, c, SYMBOLS);
    UnitsOfTree(f, len, owner, c, SYMBOLS);
  }

  /** Huffman's procedure as it stands in jpeg_gen_optimal_table; freq is clobbered. */
  method AssignLengths(freq: array<nat>) returns (codesize: array<nat>)
    requires freq.Length == SYMBOLS && Sum(freq[..][256 := 1], SYMBOLS) <= MAX_COUNT
    modifies freq
    ensures fresh(codesize) && codesize.Length == SYMBOLS
    ensures OptimalLengths(old(freq[..])[256 := 1], codesize[..])
  {
    hide Merging, Sum, Used, OptimalLengths, TwoLeast, Longer, CountedUp, Merged, Link, Joined;
    codesize := new nat[SYMBOLS](_ => 0);
    var others := new int[SYMBOLS](_ => -1);
    freq[256] := 1;
    ghost var f := freq[..];
    ghost var owner := Singles(f);
    ghost var chains: seq<seq<nat>> := seq(SYMBOLS, i => [i]);
    assert f == old(freq[..])[256 := 1];
    StartMerging(f, codesize[..], others[..]);
    while true
      invariant Merging(f, freq[..], codesize[..], others[..], owner, chains)
      invariant Sum(freq[..], SYMBOLS) <= MAX_COUNT && Used(freq[..], SYMBOLS) >= 1
      decreases Used(freq[..], SYMBOLS)
    {
      ghost var w, len, links := freq[..], codesize[..], others[..];
      AllSmall(w);
      var c1 := LeastCount(freq, -1);
      var c2 := LeastCount(freq, c1);
      SomeUsed(w);
      if c2 < 0 {
        MergingDone(f, w, len, links, owner, chains, c1);
        break;
      }
      assert TwoLeast(w, c1, c2) by { PickedLeast(w, c1, c2); }
      MergedSum(w, c1, c2);
      TwoUsed(w, c1, c2, SYMBOLS);
      owner, chains := MergeBranches(freq, codesize, others, c1, c2, f, owner, chains);
    }
  }

  /** Merge two counts, lengthen everything on their branches, and chain one branch onto the other. */
  method MergeBranches(freq: array<nat>, codesize: array<nat>, others: array<int>, c1: nat, c2: nat,
                       ghost f: seq<nat>, ghost owner: seq<int>, ghost chains: seq<seq<nat>>)
    returns (ghost owner': seq<int>, ghost chains': seq<seq<nat>>)
    requires freq.Length == codesize.Length == others.Length == SYMBOLS && freq != codesize
    requires freq as object != others as object && codesize as object != others as object
    requires Merging(f, freq[..], codesize[..], others[..], owner, chains) && TwoLeast(freq[..], c1, c2)
    modifies freq, codesize, others
    ensures freq[..] == Merged(old(freq[..]), c1, c2)
    ensures Merging(f, freq[..], codesize[..], others[..], owner', chains')
  {
    ghost var w, len, links := freq[..], codesize[..], others[..];
    hide Merging, TwoLeast, Longer, CountedUp, Merged, Link, Joined, AreChains, NoRepeat, IsChain;
    TwoLeastAre(w, c1, c2);
    ChainsOf(f, w, len, links, owner, chains, c1);
    ChainsOf(f, w, len, links, owner, chains, c2);
    ghost var last := chains[c1][|chains[c1]| - 1];
    MergeStep(f, w, len, links, owner, chains, c1, c2, last);
    BothLonger(w, links, owner, chains, len, c1, c2);
    LinkKeeps(f, w, len, links, owner, chains, c1, c2);
    MergeCounts(freq, c1, c2);
    ChainBranches(codesize, others, c1, c2, chains[c1], chains[c2]);
    owner', chains' := Joined(owner, c1, c2), Link(chains, c1, c2);
  }

  method MergeCounts(freq: array<nat>, c1: nat, c2: nat)
    requires c1 < freq.Length && c2 < freq.Length && c1 != c2
    modifies freq
    ensures freq[..] == Merged(old(freq[..]), c1, c2)
  {
    hide Merged;
    freq[c1] := freq[c1] + freq[c2];
    freq[c2] := 0;
    MergedIs(old(freq[..]), c1, c2, freq[..]);
  }

  /** Both branches get longer, and the second is chained onto the first. */
  method ChainBranches(codesize: array<nat>, others: array<int>, c1: nat, c2: nat, ghost ch1: seq<nat>, ghost ch2: seq<nat>)
    requires codesize.Length == others.Length == SYMBOLS && codesize as object != others as object
    requires IsChain(others[..], ch1) && ch1[0] == c1 && ch1[|ch1| - 1] < SYMBOLS
    requires IsChain(others[..][ch1[|ch1| - 1] := c2], ch2) && ch2[0] == c2
    requires NoRepeat(ch1)
    requires NoRepeat(ch2)
    modifies codesize, others
    ensures others[..] == old(others[..])[ch1[|ch1| - 1] := c2]
    ensures codesize[..] == CountedUp(CountedUp(old(codesize[..]), ch1), ch2)
  {
    hide CountedUp;
    var c := LengthenBranch(codesize, others, c1, ch1);
    others[c] := c2;
    assert others[..] == old(others[..])[ch1[|ch1| - 1] := c2];
    c := LengthenBranch(codesize, others, c2, ch2);
  }

  lemma TwoLeastAre(w: seq<nat>, a: nat, b: nat)
    requires TwoLeast(w, a, b)
    ensures a < |w| && b < |w| && a != b && w[a] > 0 && w[b] > 0
  {
  }

  lemma StartMerging(f: seq<nat>, len: seq<nat>, others: seq<int>)
    requires |f| == |len| == |others| == SYMBOLS && f[256] > 0
    requires forall i :: 0 <= i < SYMBOLS ==> len[i] == 0 && others[i] == -1
    ensures Merging(f, f, len, others, Singles(f), seq(SYMBOLS, i => [i])) && Used(f, SYMBOLS) >= 1
  {
    hide IsForest, AreChains, Spent, Used;
    StartForest(f, len);
    SingleChains(f, others);
    NothingSpent(f, len);
    AtMostSum(f, 256, SYMBOLS);
  }

  lemma AllSmall(w: seq<nat>)
    requires |w| == SYMBOLS && Sum(w, SYMBOLS) <= MAX_COUNT
    ensures forall i :: 0 <= i < SYMBOLS ==> w[i] <= MAX_COUNT
  {
    forall i | 0 <= i < SYMBOLS ensures w[i] <= MAX_COUNT { AtMostSum(w, i, SYMBOLS); }
  }

  lemma SomeUsed(w: seq<nat>)
    requires |w| == SYMBOLS && Used(w, SYMBOLS) >= 1
    ensures exists i :: 0 <= i < SYMBOLS && w[i] > 0
  {
    if forall i :: 0 <= i < SYMBOLS ==> w[i] == 0 {
      NoneUsed(w, SYMBOLS);
    }
  }

  lemma {:induction false} NoneUsed(w: seq<nat>, n: nat)
    requires n <= |w| && forall i :: 0 <= i < n ==> w[i] == 0
    ensures Used(w, n) == 0
  {
    if n > 0 {
      NoneUsed(w, n - 1);
    }
  }

  lemma PickedLeast(w: seq<nat>, a: int, b: int)
    requires |w| == SYMBOLS && 0 <= a < SYMBOLS && 0 <= b < SYMBOLS && a != b && w[a] > 0 && w[b] > 0
    requires forall i :: 0 <= i < SYMBOLS && w[i] > 0 ==> w[a] <= w[i]
    requires forall i :: 0 <= i < SYMBOLS && i != a && w[i] > 0 ==> w[b] <= w[i]
    ensures TwoLeast(w, a, b)
  {
  }

  lemma MergedIs(w: seq<nat>, a: nat, b: nat, w': seq<nat>)
    requires a < |w| == |w'| && b < |w| && a != b && w' == w[a := w[a] + w[b]][b := 0]
    ensures w' == Merged(w, a, b)
  {
  }

  lemma ChainsOf(f: seq<nat>, w: seq<nat>, len: seq<nat>, others: seq<int>, owner: seq<int>, chains: seq<seq<nat>>, c: nat)
    requires Merging(f, w, len, others, owner, chains) && c < |w| && w[c] > 0
    ensures AreChains(w, others, owner, chains) && |w| == |len| == |owner| == |chains| == SYMBOLS
    ensures IsChain(others, chains[c]) && chains[c] != [] && chains[c][0] == c
    ensures NoRepeat(chains[c]) && chains[c][|chains[c]| - 1] < SYMBOLS
  {
    hide Spent;
  }

  /** Linking onto the end of a's chain leaves b's chain as it is. */
  lemma LinkKeeps(f: seq<nat>, w: seq<nat>, len: seq<nat>, others: seq<int>, owner: seq<int>, chains: seq<seq<nat>>,
                  a: nat, b: nat)
    requires Merging(f, w, len, others, owner, chains) && a < |w| && b < |w| && a != b && w[a] > 0 && w[b] > 0
    ensures |w| == |others| == |chains| && chains[a] != [] && chains[a][|chains[a]| - 1] < |others|
    ensures IsChain(others[chains[a][|chains[a]| - 1] := b], chains[b])
  {
    hide Spent, IsForest;
    var last := chains[a][|chains[a]| - 1];
    assert last in chains[a];
    forall k | 0 <= k < |chains[b]| ensures chains[b][k] != last { assert chains[b][k] in chains[b]; }
  }

  lemma {:induction false} SomeBound(len: seq<nat>) returns (m: nat)
    ensures forall i :: 0 <= i < |len| ==> len[i] <= m
  {
    if len == [] {
      m := 0;
    } else {
      m := SomeBound(len[..|len| - 1]);
      if m < len[|len| - 1] {
        m := len[|len| - 1];
      }
    }
  }

  /** K.2: no prefix code for the counted symbols and the pseudo-symbol is cheaper than the lengths found. */
  lemma HuffmanIsOptimal(f: seq<nat>, len: seq<nat>, code: seq<seq<bool>>)
    requires OptimalLengths(f, len) && PrefixFree(f, code)
    ensures Cost(f, len, SYMBOLS) <= Cost(f, Lengths(code), SYMBOLS)
  {
    hide Cost, Units;
    var m := SomeBound(Lengths(code));
    PrefixCodesAreKraft(f, code, m);
  }
}
