/**
 * `vec_diff` and `assert_same_elements` (src/util/algorithms.rs).
 *
 * `vec_diff` pairs every element of `xs`, in order, with the first equal
 * element of `ys` that is still unpaired; elements of `xs` without a
 * partner go to `leftOnly`, and the elements of `ys` never paired go to
 * `rightOnly`.  `Diff` is that algorithm as a fold over `xs`; the method
 * `VecDiff` keeps the source's boolean array and loops and is proved equal
 * to it.  `DiffSound` then says what the result means: pairs are equal
 * elements, no element of `ys` is paired twice, the two index lists
 * partition their sides in increasing order, the pairing is greedy, and the
 * lists are equal as multisets exactly when both unpaired lists are empty.
 */
module Algorithms {
  import opened Wrappers

  /** `VecDiffResult`. */
  datatype VecDiffResult = VecDiffResult(shared: seq<(nat, nat)>, leftOnly: seq<nat>, rightOnly: seq<nat>)

  /** The state after a prefix of `xs`: which `ys` are paired, the pairs and the unpaired `xs`. */
  datatype DiffState = DiffState(used: seq<bool>, shared: seq<(nat, nat)>, leftOnly: seq<nat>)

  function InitialState(n: nat): (st: DiffState)
    ensures |st.used| == n && (forall b :: 0 <= b < n ==> !st.used[b]) && st.shared == [] && st.leftOnly == []
  {
    DiffState(seq(n, _ => false), [], [])
  }

  /**
   * `(j..ys.len()).find(|j| !ys_used[j] && x == ys[j])`: the first unpaired
   * position at or after `j` holding `x`.
   */
  function FindUnused<T(==)>(x: T, ys: seq<T>, used: seq<bool>, j: nat): (r: Option<nat>)
    requires |used| == |ys| && j <= |ys|
    ensures r.Some? ==> j <= r.value < |ys| && !used[r.value] && ys[r.value] == x
    ensures r.Some? ==> forall k :: j <= k < r.value ==> used[k] || ys[k] != x
    ensures r.None? ==> forall k :: j <= k < |ys| ==> used[k] || ys[k] != x
    decreases |ys| - j
  {
    if j == |ys| then None
    else if !used[j] && ys[j] == x then Some(j)
    else FindUnused(x, ys, used, j + 1)
  }

  /** One iteration of the first loop, for `xs[i]`. */
  function DiffStep<T(==)>(xs: seq<T>, ys: seq<T>, i: nat, st: DiffState): DiffState
    requires i < |xs| && |st.used| == |ys|
  {
    match FindUnused(xs[i], ys, st.used, 0)
    case None => st.(leftOnly := st.leftOnly + [i])
    case Some(j) => st.(used := st.used[j := true], shared := st.shared + [(i, j)])
  }

  /** The first loop, from `xs[i]` on. */
  function DiffFrom<T(==)>(xs: seq<T>, ys: seq<T>, i: nat, st: DiffState): (r: DiffState)
    requires i <= |xs| && |st.used| == |ys|
    ensures |r.used| == |ys|
    decreases |xs| - i
  {
    if i == |xs| then st else DiffFrom(xs, ys, i + 1, DiffStep(xs, ys, i, st))
  }

  /** The unpaired positions of `ys` from `j` on, in increasing order. */
  function UnusedFrom(used: seq<bool>, j: nat): (r: seq<nat>)
    requires j <= |used|
    ensures forall k :: 0 <= k < |r| ==> j <= r[k] < |used| && !used[r[k]]
    ensures forall k, l :: 0 <= k < l < |r| ==> r[k] < r[l]
    decreases |used| - j
  {
    if j == |used| then []
    else if !used[j] then [j] + UnusedFrom(used, j + 1)
    else UnusedFrom(used, j + 1)
  }

  /** Every unpaired position from `j` on is listed. */
  lemma {:induction false} UnusedFromComplete(used: seq<bool>, j: nat, b: nat)
    requires j <= b < |used| && !used[b]
    ensures b in UnusedFrom(used, j)
    decreases |used| - j
  {
    if j < b {
      UnusedFromComplete(used, j + 1, b);
    }
  }

  /** What `vec_diff` computes. */
  function Diff<T(==)>(xs: seq<T>, ys: seq<T>): VecDiffResult
  {
    var st := DiffFrom(xs, ys, 0, InitialState(|ys|));
    VecDiffResult(st.shared, st.leftOnly, UnusedFrom(st.used, 0))
  }

  /** `vec_diff`, with the `ys_used` array and the source's loops. */
  method VecDiff<T(==)>(xs: seq<T>, ys: seq<T>) returns (result: VecDiffResult)
    ensures result == Diff(xs, ys)
  {
    var ysUsed := new bool[|ys|](_ => false);
    assert ysUsed[..] == InitialState(|ys|).used;
    var shared: seq<(nat, nat)> := [];
    var leftOnly: seq<nat> := [];

    for i := 0 to |xs|
      invariant DiffFrom(xs, ys, i, DiffState(ysUsed[..], shared, leftOnly)) == DiffFrom(xs, ys, 0, InitialState(|ys|))
    {
      ghost var before := DiffState(ysUsed[..], shared, leftOnly);
      var found := FirstUnused(xs[i], ys, ysUsed);
      match found {
        case None =>
          leftOnly := leftOnly + [i];
        case Some(k) =>
          ysUsed[k] := true;
          shared := shared + [(i, k)];
      }
      assert DiffState(ysUsed[..], shared, leftOnly) == DiffStep(xs, ys, i, before);
    }

    var rightOnly := Unpaired(ysUsed);
    result := VecDiffResult(shared, leftOnly, rightOnly);
  }

  /** The `find` of the first loop, over the `ys_used` array. */
  method FirstUnused<T(==)>(x: T, ys: seq<T>, used: array<bool>) returns (found: Option<nat>)
    requires used.Length == |ys|
    ensures found == FindUnused(x, ys, used[..], 0)
  {
    found := None;
    var j := 0;
    while j < |ys| && found.None?
      invariant 0 <= j <= |ys|
      invariant found.None? ==> FindUnused(x, ys, used[..], j) == FindUnused(x, ys, used[..], 0)
      invariant found.Some? ==> found == FindUnused(x, ys, used[..], 0)
      decreases |ys| - j, if found.None? then 1 else 0
    {
      if !used[j] && x == ys[j] {
        found := Some(j);
      } else {
        j := j + 1;
      }
    }
  }

  /** The second loop: the positions left `false` in `ys_used`, in order. */
  method Unpaired(used: array<bool>) returns (rightOnly: seq<nat>)
    ensures rightOnly == UnusedFrom(used[..], 0)
  {
    rightOnly := [];
    for j := 0 to used.Length
      invariant rightOnly + UnusedFrom(used[..], j) == UnusedFrom(used[..], 0)
    {
      ghost var rest := UnusedFrom(used[..], j + 1);
      if !used[j] {
        assert UnusedFrom(used[..], j) == [j] + rest;
        assert rightOnly + ([j] + rest) == (rightOnly + [j]) + rest;
        rightOnly := rightOnly + [j];
      }
    }
  }

  // ---------------------------------------------------------------------
  // What the result means

  function Firsts(shared: seq<(nat, nat)>): (r: seq<nat>)
    ensures |r| == |shared| && forall k :: 0 <= k < |shared| ==> r[k] == shared[k].0
  {
    seq(|shared|, k requires 0 <= k < |shared| => shared[k].0)
  }

  function Seconds(shared: seq<(nat, nat)>): (r: seq<nat>)
    ensures |r| == |shared| && forall k :: 0 <= k < |shared| ==> r[k] == shared[k].1
  {
    seq(|shared|, k requires 0 <= k < |shared| => shared[k].1)
  }

  /** The elements of `s` at the positions `idx`, in that order. */
  function Values<T>(s: seq<T>, idx: seq<nat>): (r: seq<T>)
    requires forall k :: 0 <= k < |idx| ==> idx[k] < |s|
    ensures |r| == |idx| && forall k :: 0 <= k < |idx| ==> r[k] == s[idx[k]]
  {
    seq(|idx|, k requires 0 <= k < |idx| => s[idx[k]])
  }

  predicate Increasing(s: seq<nat>)
  {
    forall k, l :: 0 <= k < l < |s| ==> s[k] < s[l]
  }

  predicate Below(s: seq<nat>, n: nat)
  {
    forall k :: 0 <= k < |s| ==> s[k] < n
  }

  /** Every index recorded after `xs[..i]` is in range. */
  predicate Shape<T>(xs: seq<T>, ys: seq<T>, i: nat, st: DiffState)
  {
    && i <= |xs| && |st.used| == |ys|
    && Below(Firsts(st.shared), i) && Below(Seconds(st.shared), |ys|) && Below(st.leftOnly, i)
  }

  /** The pairs join equal elements, and the paired `ys` are exactly the used ones, each once. */
  ghost predicate PairsValid<T>(xs: seq<T>, ys: seq<T>, i: nat, st: DiffState)
    requires Shape(xs, ys, i, st)
  {
    && (forall k :: 0 <= k < |st.shared| ==> xs[st.shared[k].0] == ys[st.shared[k].1] && st.used[st.shared[k].1])
    && (forall b :: 0 <= b < |ys| && st.used[b] ==> b in Seconds(st.shared))
    && (forall k, l :: 0 <= k < l < |st.shared| ==> st.shared[k].1 != st.shared[l].1)
  }

  /** The paired and the unpaired positions of `xs[..i]` partition `0..i`, each in increasing order. */
  ghost predicate PartitionValid(i: nat, st: DiffState)
  {
    && Increasing(Firsts(st.shared))
    && Increasing(st.leftOnly)
    && (forall a :: 0 <= a < i ==> (a in Firsts(st.shared) <==> a !in st.leftOnly))
  }

  /**
   * Greediness: every `ys` position before a pair's own that holds the same
   * element was paired by an earlier pair, and every `ys` position holding
   * an unpaired `xs` element was paired with an earlier `xs` position.
   */
  ghost predicate Greedy<T>(xs: seq<T>, ys: seq<T>, i: nat, st: DiffState)
    requires Shape(xs, ys, i, st)
  {
    GreedyShared(xs, ys, i, st) && GreedyLeft(xs, ys, i, st)
  }

  ghost predicate GreedyShared<T>(xs: seq<T>, ys: seq<T>, i: nat, st: DiffState)
    requires Shape(xs, ys, i, st)
  {
    forall k, b :: 0 <= k < |st.shared| && 0 <= b < st.shared[k].1 && ys[b] == xs[st.shared[k].0]
      ==> exists l :: 0 <= l < k && st.shared[l].1 == b
  }

  ghost predicate GreedyLeft<T>(xs: seq<T>, ys: seq<T>, i: nat, st: DiffState)
    requires Shape(xs, ys, i, st)
  {
    forall m, b :: 0 <= m < |st.leftOnly| && 0 <= b < |ys| && ys[b] == xs[st.leftOnly[m]]
      ==> exists l :: 0 <= l < |st.shared| && st.shared[l].1 == b && st.shared[l].0 < st.leftOnly[m]
  }

  /** Each side's elements are its paired elements plus its unpaired ones. */
  ghost predicate CountsValid<T>(xs: seq<T>, ys: seq<T>, i: nat, st: DiffState)
    requires Shape(xs, ys, i, st)
  {
    && multiset(xs[..i]) == multiset(Values(xs, Firsts(st.shared))) + multiset(Values(xs, st.leftOnly))
    && multiset(ys) == multiset(Values(ys, Seconds(st.shared))) + multiset(Values(ys, UnusedFrom(st.used, 0)))
  }

  ghost predicate Inv<T>(xs: seq<T>, ys: seq<T>, i: nat, st: DiffState)
  {
    Shape(xs, ys, i, st) && PairsValid(xs, ys, i, st) && PartitionValid(i, st)
    && Greedy(xs, ys, i, st) && CountsValid(xs, ys, i, st)
  }

  /** With nothing paired, the unpaired elements of `ys` from `j` on are `ys[j..]`. */
  lemma {:induction false} AllUnused<T>(ys: seq<T>, used: seq<bool>, j: nat)
    requires |used| == |ys| && j <= |ys|
    requires forall b :: 0 <= b < |used| ==> !used[b]
    ensures Values(ys, UnusedFrom(used, j)) == ys[j..]
    decreases |ys| - j
  {
    if j < |ys| {
      var rest := UnusedFrom(used, j + 1);
      calc {
        Values(ys, UnusedFrom(used, j));
        { assert UnusedFrom(used, j) == [j] + rest; }
        Values(ys, [j] + rest);
        { ValuesCons(ys, j, rest); }
        [ys[j]] + Values(ys, rest);
        { AllUnused(ys, used, j + 1); }
        [ys[j]] + ys[j + 1..];
        ys[j..];
      }
    }
  }

  lemma ValuesCons<T>(s: seq<T>, j: nat, idx: seq<nat>)
    requires j < |s| && forall k :: 0 <= k < |idx| ==> idx[k] < |s|
    ensures Values(s, [j] + idx) == [s[j]] + Values(s, idx)
  {
  }

  /** How the unpaired list from `j` is built from the one from `j + 1`. */
  lemma UnusedFromStep<T>(ys: seq<T>, used: seq<bool>, j: nat)
    requires |used| == |ys| && j < |ys|
    ensures multiset(Values(ys, UnusedFrom(used, j)))
      == multiset(Values(ys, UnusedFrom(used, j + 1))) + (if used[j] then multiset{} else multiset{ys[j]})
  {
    var rest := UnusedFrom(used, j + 1);
    if !used[j] {
      assert UnusedFrom(used, j) == [j] + rest;
      ValuesCons(ys, j, rest);
    }
  }

  /** Pairing the unpaired position `b` moves its element out of the unpaired ones. */
  lemma {:induction false} MarkUsed<T>(ys: seq<T>, used: seq<bool>, b: nat, j: nat)
    requires |used| == |ys| && j <= |ys| && b < |ys| && !used[b]
    ensures multiset(Values(ys, UnusedFrom(used, j)))
      == multiset(Values(ys, UnusedFrom(used[b := true], j))) + (if j <= b then multiset{ys[b]} else multiset{})
    decreases |ys| - j
  {
    if j < |ys| {
      var marked := used[b := true];
      var unused := multiset(Values(ys, UnusedFrom(used, j)));
      var unusedMarked := multiset(Values(ys, UnusedFrom(marked, j)));
      var rest := multiset(Values(ys, UnusedFrom(used, j + 1)));
      var restMarked := multiset(Values(ys, UnusedFrom(marked, j + 1)));
      var here: multiset<T> := if used[j] then multiset{} else multiset{ys[j]};
      MarkUsed(ys, used, b, j + 1);
      assert rest == restMarked + (if j + 1 <= b then multiset{ys[b]} else multiset{});
      UnusedFromStep(ys, used, j);
      assert unused == rest + here;
      UnusedFromStep(ys, marked, j);
      if j == b {
        assert unusedMarked == restMarked;
        assert unused == unusedMarked + multiset{ys[b]};
      } else if j < b {
        assert unusedMarked == restMarked + here;
        assert unused == unusedMarked + multiset{ys[b]};
      } else {
        assert unusedMarked == restMarked + here;
      }
    }
  }

  lemma InitialInv<T>(xs: seq<T>, ys: seq<T>)
    ensures Inv(xs, ys, 0, InitialState(|ys|))
  {
    var st := InitialState(|ys|);
    AllUnused(ys, st.used, 0);
    assert ys[0..] == ys;
  }

  lemma StepShape<T>(xs: seq<T>, ys: seq<T>, i: nat, st: DiffState)
    requires Shape(xs, ys, i, st) && i < |xs|
    ensures Shape(xs, ys, i + 1, DiffStep(xs, ys, i, st))
  {
    match FindUnused(xs[i], ys, st.used, 0)
    case None =>
    case Some(j) =>
      assert Firsts(st.shared + [(i, j)]) == Firsts(st.shared) + [i];
      assert Seconds(st.shared + [(i, j)]) == Seconds(st.shared) + [j];
  }

  lemma StepPairs<T>(xs: seq<T>, ys: seq<T>, i: nat, st: DiffState)
    requires Shape(xs, ys, i, st) && PairsValid(xs, ys, i, st) && i < |xs|
    ensures Shape(xs, ys, i + 1, DiffStep(xs, ys, i, st)) && PairsValid(xs, ys, i + 1, DiffStep(xs, ys, i, st))
  {
    StepShape(xs, ys, i, st);
    match FindUnused(xs[i], ys, st.used, 0)
    case None =>
    case Some(j) =>
      var st' := DiffStep(xs, ys, i, st);
      assert Seconds(st'.shared) == Seconds(st.shared) + [j];
      forall b | 0 <= b < |ys| && st'.used[b]
        ensures b in Seconds(st'.shared)
      {
        if b != j {
          assert b in Seconds(st.shared);
        }
      }
  }

  lemma StepPartition<T>(xs: seq<T>, ys: seq<T>, i: nat, st: DiffState)
    requires Shape(xs, ys, i, st) && PartitionValid(i, st) && i < |xs|
    ensures PartitionValid(i + 1, DiffStep(xs, ys, i, st))
  {
    var st' := DiffStep(xs, ys, i, st);
    assert i !in Firsts(st.shared) && i !in st.leftOnly;
    match FindUnused(xs[i], ys, st.used, 0)
    case None =>
    case Some(j) =>
      assert Firsts(st'.shared) == Firsts(st.shared) + [i];
  }

  lemma StepGreedyUnpaired<T>(xs: seq<T>, ys: seq<T>, i: nat, st: DiffState)
    requires Shape(xs, ys, i, st) && PairsValid(xs, ys, i, st) && Greedy(xs, ys, i, st) && i < |xs|
    requires FindUnused(xs[i], ys, st.used, 0).None?
    ensures Shape(xs, ys, i + 1, st.(leftOnly := st.leftOnly + [i]))
    ensures Greedy(xs, ys, i + 1, st.(leftOnly := st.leftOnly + [i]))
  {
    var st' := st.(leftOnly := st.leftOnly + [i]);
    forall m, b | 0 <= m < |st'.leftOnly| && 0 <= b < |ys| && ys[b] == xs[st'.leftOnly[m]]
      ensures exists l :: 0 <= l < |st'.shared| && st'.shared[l].1 == b && st'.shared[l].0 < st'.leftOnly[m]
    {
      if m == |st.leftOnly| {
        assert st.used[b];
        assert b in Seconds(st.shared);
        var l :| 0 <= l < |st.shared| && Seconds(st.shared)[l] == b;
        assert Firsts(st.shared)[l] < i;
      }
    }
  }

  lemma StepGreedyPaired<T>(xs: seq<T>, ys: seq<T>, i: nat, st: DiffState, j: nat)
    requires Shape(xs, ys, i, st) && PairsValid(xs, ys, i, st) && Greedy(xs, ys, i, st) && i < |xs|
    requires FindUnused(xs[i], ys, st.used, 0) == Some(j)
    ensures Shape(xs, ys, i + 1, st.(used := st.used[j := true], shared := st.shared + [(i, j)]))
    ensures Greedy(xs, ys, i + 1, st.(used := st.used[j := true], shared := st.shared + [(i, j)]))
  {
    StepShape(xs, ys, i, st);
    GreedyPairedShared(xs, ys, i, st, j);
    GreedyPairedLeft(xs, ys, i, st, j);
  }

  /** The new pair takes the first unused equal element: every earlier equal one was paired before. */
  lemma GreedyPairedShared<T>(xs: seq<T>, ys: seq<T>, i: nat, st: DiffState, j: nat)
    requires Shape(xs, ys, i, st) && PairsValid(xs, ys, i, st) && Greedy(xs, ys, i, st) && i < |xs|
    requires FindUnused(xs[i], ys, st.used, 0) == Some(j)
    requires Shape(xs, ys, i + 1, st.(used := st.used[j := true], shared := st.shared + [(i, j)]))
    ensures GreedyShared(xs, ys, i + 1, st.(used := st.used[j := true], shared := st.shared + [(i, j)]))
  {
    var shared := st.shared + [(i, j)];
    forall k, b | 0 <= k < |shared| && 0 <= b < shared[k].1 && ys[b] == xs[shared[k].0]
      ensures exists l :: 0 <= l < k && shared[l].1 == b
    {
      if k == |st.shared| {
        assert shared[k] == (i, j);
        assert st.used[b];
        assert b in Seconds(st.shared);
        var l :| 0 <= l < |st.shared| && Seconds(st.shared)[l] == b;
        assert shared[l] == st.shared[l];
      } else {
        assert shared[k] == st.shared[k];
        var l :| 0 <= l < k && st.shared[l].1 == b;
        assert shared[l] == st.shared[l];
      }
    }
  }

  /** A left-only element still had every equal element paired before it. */
  lemma GreedyPairedLeft<T>(xs: seq<T>, ys: seq<T>, i: nat, st: DiffState, j: nat)
    requires Shape(xs, ys, i, st) && Greedy(xs, ys, i, st) && j < |ys|
    requires Shape(xs, ys, i + 1, st.(used := st.used[j := true], shared := st.shared + [(i, j)]))
    ensures GreedyLeft(xs, ys, i + 1, st.(used := st.used[j := true], shared := st.shared + [(i, j)]))
  {
    var shared := st.shared + [(i, j)];
    forall m, b | 0 <= m < |st.leftOnly| && 0 <= b < |ys| && ys[b] == xs[st.leftOnly[m]]
      ensures exists l :: 0 <= l < |shared| && shared[l].1 == b && shared[l].0 < st.leftOnly[m]
    {
      var l :| 0 <= l < |st.shared| && st.shared[l].1 == b && st.shared[l].0 < st.leftOnly[m];
      assert shared[l] == st.shared[l];
    }
  }


  lemma StepGreedy<T>(xs: seq<T>, ys: seq<T>, i: nat, st: DiffState)
    requires Shape(xs, ys, i, st) && PairsValid(xs, ys, i, st) && Greedy(xs, ys, i, st) && i < |xs|
    ensures Shape(xs, ys, i + 1, DiffStep(xs, ys, i, st)) && Greedy(xs, ys, i + 1, DiffStep(xs, ys, i, st))
  {
    match FindUnused(xs[i], ys, st.used, 0)
    case None =>
      StepGreedyUnpaired(xs, ys, i, st);
    case Some(j) =>
      StepGreedyPaired(xs, ys, i, st, j);
  }

  lemma StepCounts<T>(xs: seq<T>, ys: seq<T>, i: nat, st: DiffState)
    requires Shape(xs, ys, i, st) && CountsValid(xs, ys, i, st) && i < |xs|
    ensures Shape(xs, ys, i + 1, DiffStep(xs, ys, i, st)) && CountsValid(xs, ys, i + 1, DiffStep(xs, ys, i, st))
  {
    StepShape(xs, ys, i, st);
    var st' := DiffStep(xs, ys, i, st);
    assert xs[..i + 1] == xs[..i] + [xs[i]];
    match FindUnused(xs[i], ys, st.used, 0)
    case None =>
      assert Values(xs, st'.leftOnly) == Values(xs, st.leftOnly) + [xs[i]];
    case Some(j) =>
      assert Values(xs, Firsts(st'.shared)) == Values(xs, Firsts(st.shared)) + [xs[i]];
      assert Values(ys, Seconds(st'.shared)) == Values(ys, Seconds(st.shared)) + [ys[j]];
      MarkUsed(ys, st.used, j, 0);
  }

  lemma StepInv<T>(xs: seq<T>, ys: seq<T>, i: nat, st: DiffState)
    requires Inv(xs, ys, i, st) && i < |xs|
    ensures Inv(xs, ys, i + 1, DiffStep(xs, ys, i, st))
  {
    StepPairs(xs, ys, i, st);
    StepPartition(xs, ys, i, st);
    StepGreedy(xs, ys, i, st);
    StepCounts(xs, ys, i, st);
  }

  lemma {:induction false} DiffFromInv<T>(xs: seq<T>, ys: seq<T>, i: nat, st: DiffState)
    requires Inv(xs, ys, i, st)
    ensures Inv(xs, ys, |xs|, DiffFrom(xs, ys, i, st))
    decreases |xs| - i
  {
    if i < |xs| {
      StepInv(xs, ys, i, st);
      DiffFromInv(xs, ys, i + 1, DiffStep(xs, ys, i, st));
    }
  }

  /** The state `Diff` ends in satisfies every invariant over all of `xs`. */
  lemma {:induction false} DiffInv<T>(xs: seq<T>, ys: seq<T>)
    ensures Inv(xs, ys, |xs|, DiffFrom(xs, ys, 0, InitialState(|ys|)))
  {
    InitialInv(xs, ys);
    DiffFromInv(xs, ys, 0, InitialState(|ys|));
  }

  // ---------------------------------------------------------------------
  // Properties of `vec_diff`

  /** Every pair joins equal elements, and no position of `ys` is paired twice. */
  lemma DiffPairs<T>(xs: seq<T>, ys: seq<T>)
    ensures var r := Diff(xs, ys);
      && (forall k :: 0 <= k < |r.shared| ==> r.shared[k].0 < |xs| && r.shared[k].1 < |ys|)
      && (forall k :: 0 <= k < |r.shared| ==> xs[r.shared[k].0] == ys[r.shared[k].1])
      && (forall k, l :: 0 <= k < l < |r.shared| ==> r.shared[k].1 != r.shared[l].1)
  {
    DiffInv(xs, ys);
    var r := Diff(xs, ys);
    assert forall k :: 0 <= k < |r.shared| ==> Firsts(r.shared)[k] < |xs| && Seconds(r.shared)[k] < |ys|;
  }

  /**
   * The paired positions of `xs` and `leftOnly` are both increasing, and
   * every position of `xs` is in exactly one of them.
   */
  lemma DiffPartition<T>(xs: seq<T>, ys: seq<T>)
    ensures var r := Diff(xs, ys);
      && Increasing(Firsts(r.shared)) && Increasing(r.leftOnly)
      && Below(Firsts(r.shared), |xs|) && Below(r.leftOnly, |xs|)
      && (forall a :: 0 <= a < |xs| ==> (a in Firsts(r.shared) <==> a !in r.leftOnly))
  {
    DiffInv(xs, ys);
  }

  /** `rightOnly` lists, in increasing order, exactly the positions of `ys` no pair uses. */
  lemma DiffRightOnly<T>(xs: seq<T>, ys: seq<T>)
    ensures var r := Diff(xs, ys);
      && Increasing(r.rightOnly) && Below(r.rightOnly, |ys|)
      && (forall b :: 0 <= b < |ys| ==> (b in r.rightOnly <==> b !in Seconds(r.shared)))
  {
    DiffInv(xs, ys);
    var st := DiffFrom(xs, ys, 0, InitialState(|ys|));
    var r := Diff(xs, ys);
    forall b | 0 <= b < |ys|
      ensures b in r.rightOnly <==> b !in Seconds(r.shared)
    {
      if b in r.rightOnly {
        var k :| 0 <= k < |r.rightOnly| && r.rightOnly[k] == b;
        assert !st.used[b];
      }
      if b !in Seconds(r.shared) {
        assert !st.used[b];
        UnusedFromComplete(st.used, 0, b);
      }
    }
  }

  /**
   * The pairing is greedy: a `ys` position before a pair's own holding the
   * same element was taken by an earlier pair, and every `ys` position
   * holding an unpaired `xs` element was taken by a pair with an earlier
   * `xs` position.
   */
  lemma DiffGreedy<T>(xs: seq<T>, ys: seq<T>)
    ensures var r := Diff(xs, ys);
      && (forall k :: 0 <= k < |r.shared| ==> r.shared[k].0 < |xs| && r.shared[k].1 < |ys|)
      && Below(r.leftOnly, |xs|)
      && (forall k, b :: 0 <= k < |r.shared| && 0 <= b < r.shared[k].1 && ys[b] == xs[r.shared[k].0]
            ==> exists l :: 0 <= l < k && r.shared[l].1 == b)
      && (forall m, b :: 0 <= m < |r.leftOnly| && 0 <= b < |ys| && ys[b] == xs[r.leftOnly[m]]
            ==> exists l :: 0 <= l < |r.shared| && r.shared[l].1 == b && r.shared[l].0 < r.leftOnly[m])
  {
    DiffInv(xs, ys);
    DiffPairs(xs, ys);
  }

  /** No element is unpaired on both sides. */
  lemma UnpairedDisjoint<T>(xs: seq<T>, ys: seq<T>, m: nat, n: nat)
    requires var r := Diff(xs, ys); m < |r.leftOnly| && n < |r.rightOnly|
    ensures var r := Diff(xs, ys); r.leftOnly[m] < |xs| && r.rightOnly[n] < |ys| && xs[r.leftOnly[m]] != ys[r.rightOnly[n]]
  {
    DiffInv(xs, ys);
    var st := DiffFrom(xs, ys, 0, InitialState(|ys|));
    var r := Diff(xs, ys);
    var b := r.rightOnly[n];
    assert !st.used[b];
  }

  /** Each side is its paired elements plus its unpaired ones, and the paired elements agree. */
  lemma DiffCounts<T>(xs: seq<T>, ys: seq<T>)
    ensures var r := Diff(xs, ys);
      && Below(Firsts(r.shared), |xs|) && Below(r.leftOnly, |xs|) && Below(r.rightOnly, |ys|)
      && multiset(xs) == multiset(Values(xs, Firsts(r.shared))) + multiset(Values(xs, r.leftOnly))
      && multiset(ys) == multiset(Values(xs, Firsts(r.shared))) + multiset(Values(ys, r.rightOnly))
  {
    DiffInv(xs, ys);
    var st := DiffFrom(xs, ys, 0, InitialState(|ys|));
    assert xs[..|xs|] == xs;
    assert Values(xs, Firsts(st.shared)) == Values(ys, Seconds(st.shared));
  }

  /** Both unpaired lists are empty exactly when the two lists hold the same elements, counted. */
  lemma DiffSameElements<T>(xs: seq<T>, ys: seq<T>)
    ensures var r := Diff(xs, ys);
      (r.leftOnly == [] && r.rightOnly == []) <==> multiset(xs) == multiset(ys)
  {
    DiffCounts(xs, ys);
    var r := Diff(xs, ys);
    var paired := multiset(Values(xs, Firsts(r.shared)));
    var left := multiset(Values(xs, r.leftOnly));
    var right := multiset(Values(ys, r.rightOnly));
    if multiset(xs) == multiset(ys) {
      assert left == right by {
        assert left == multiset(xs) - paired;
        assert right == multiset(ys) - paired;
      }
      if r.leftOnly != [] {
        var x := Values(xs, r.leftOnly)[0];
        assert x in right;
        var n :| 0 <= n < |r.rightOnly| && Values(ys, r.rightOnly)[n] == x;
        UnpairedDisjoint(xs, ys, 0, n);
      }
    }
  }

  /** `assert_same_elements!`: fails exactly when the lists differ as multisets. */
  method AssertSameElements<T(==)>(left: seq<T>, right: seq<T>) returns (failed: bool)
    ensures failed <==> multiset(left) != multiset(right)
  {
    var result := VecDiff(left, right);
    failed := false;
    if |result.leftOnly| > 0 {
      failed := true;
    }
    if |result.rightOnly| > 0 {
      failed := true;
    }
    DiffSameElements(left, right);
  }

  /** The rstest case `[0, 0, 0]` against `[1, 0]`. */
  lemma DiffExample()
    ensures Diff([0, 0, 0], [1, 0]) == VecDiffResult([(0, 1)], [1, 2], [0])
  {
    var xs, ys := [0, 0, 0], [1, 0];
    var s0 := InitialState(2);
    assert s0.used == [false, false];
    assert FindUnused(0, ys, [false, false], 0) == Some(1);
    var s1 := DiffStep(xs, ys, 0, s0);
    assert s1 == DiffState([false, true], [(0, 1)], []);
    assert FindUnused(0, ys, [false, true], 0) == None;
    var s2 := DiffStep(xs, ys, 1, s1);
    assert s2 == DiffState([false, true], [(0, 1)], [1]);
    var s3 := DiffStep(xs, ys, 2, s2);
    assert s3 == DiffState([false, true], [(0, 1)], [1, 2]);
    assert DiffFrom(xs, ys, 0, s0) == s3;
    assert UnusedFrom([false, true], 0) == [0];
  }

  method VecDiffExample() returns (result: VecDiffResult)
    ensures result == VecDiffResult([(0, 1)], [1, 2], [0])
  {
    result := VecDiff([0, 0, 0], [1, 0]);
    DiffExample();
  }
}
