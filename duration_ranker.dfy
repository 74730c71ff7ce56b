/** `sortScenesByDuration`: reorders candidate scenes in place by how well
    their durations match a target duration. */
module DurationRanker {
  import opened Wrappers
  import opened Records

  /** A difference of at most this many seconds is a close match. */
  const CloseMatch: nat := 5

  /** `!targetDuration` is false: a target is given and it is not 0. */
  predicate Active(target: Option<int>) { target.Some? && target.value != 0 }

  function Abs(x: int): nat { if x < 0 then -x else x }

  /** `[a.duration, ...a.fingerprints.map((f) => f.duration)].map((d) => Math.abs(d - target))`. */
  function Diffs(s: Scene, target: int): (r: seq<nat>)
    ensures |r| == 1 + |s.fingerprints|
    ensures r[0] == Abs(s.duration - target)
    ensures forall k :: 0 <= k < |s.fingerprints| ==> r[k + 1] == Abs(s.fingerprints[k].duration - target)
  {
    [Abs(s.duration - target)]
      + seq(|s.fingerprints|, k requires 0 <= k < |s.fingerprints| => Abs(s.fingerprints[k].duration - target))
  }

  /** `filter((match) => match <= 5)`. */
  function CloseMatches(ds: seq<nat>): (r: seq<nat>)
    ensures |r| <= |ds|
    ensures forall x :: x in r <==> x in ds && x <= CloseMatch
    ensures r == [] <==> forall x :: x in ds ==> x > CloseMatch
    ensures forall x :: multiset(r)[x] == if x <= CloseMatch then multiset(ds)[x] else 0
  {
    if ds == [] then []
    else
      assert ds == [ds[0]] + ds[1..];
      if ds[0] <= CloseMatch then
        assert ds[0] in ds;
        [ds[0]] + CloseMatches(ds[1..])
      else CloseMatches(ds[1..])
  }

  /** `Math.min(...ds)` on a non-empty list. */
  function MinOf(ds: seq<nat>): (m: nat)
    requires |ds| > 0
    ensures m in ds
    ensures forall x :: x in ds ==> m <= x
  {
    if |ds| == 1 then ds[0]
    else
      var rest := MinOf(ds[1..]);
      assert forall x :: x in ds ==> x == ds[0] || x in ds[1..];
      if ds[0] <= rest then ds[0] else rest
  }

  /** The comparator handed to `Array.prototype.sort`: negative when `a`
      goes first, positive when `b` does, 0 when they tie. */
  function Compare(a: Scene, b: Scene, target: Option<int>): (c: int)
    ensures -1 <= c <= 1
    ensures !Active(target) ==> c == 0
  {
    if !Active(target) then 0
    else
      var aDur := Diffs(a, target.value);
      var bDur := Diffs(b, target.value);
      if |aDur| > 0 && |bDur| == 0 then -1
      else if |aDur| == 0 && |bDur| > 0 then 1
      else
        var aMatches := CloseMatches(aDur);
        var bMatches := CloseMatches(bDur);
        if |aMatches| > 0 || |bMatches| > 0 then
          if |aMatches| > |bMatches| then -1
          else if |aMatches| < |bMatches| then 1
          else 0
        else
          var aDiff := MinOf(aDur);
          var bDiff := MinOf(bDur);
          if aDiff < bDiff then -1
          else if aDiff > bDiff then 1
          else 0
  }

  /** Number of durations of a scene within `CloseMatch` of the target. */
  function CloseCount(s: Scene, target: int): nat
  {
    |CloseMatches(Diffs(s, target))|
  }

  /** Smallest difference between the target and any duration of a scene. */
  function MinDiff(s: Scene, target: int): nat
  {
    MinOf(Diffs(s, target))
  }

  /** The key the comparator orders by: scenes with close matches rank by
      how many they have (more is better, so the key is negated), ahead of
      all scenes without one, which rank by their smallest difference. */
  function Rank(s: Scene, target: Option<int>): (k: int)
    ensures Active(target) && CloseCount(s, target.value) > 0 ==> k < 0
    ensures Active(target) && CloseCount(s, target.value) == 0 ==> k > CloseMatch
  {
    if !Active(target) then 0
    else
      var t := target.value;
      if CloseCount(s, t) > 0 then -(CloseCount(s, t) as int)
      else
        var ds := Diffs(s, t);
        assert MinOf(ds) > CloseMatch;
        MinDiff(s, t)
  }

  function Sign(x: int): int { if x < 0 then -1 else if x > 0 then 1 else 0 }

  /** The two `length === 0` branches never fire: a scene's own duration
      always contributes a difference. */
  lemma LengthBranchesUnreachable(s: Scene, target: int)
    ensures |Diffs(s, target)| > 0
  {
  }

  /** The comparator is the sign of the rank difference, so it is a total
      preorder on scenes. */
  lemma CompareIsRankOrder(a: Scene, b: Scene, target: Option<int>)
    ensures Compare(a, b, target) == Sign(Rank(a, target) - Rank(b, target))
  {
  }

  /** The comparator's verdicts with a usable target: more close matches
      go first; equal non-zero counts tie; with no close match on either
      side, the smaller smallest difference goes first. */
  lemma CompareVerdicts(a: Scene, b: Scene, target: Option<int>)
    requires Active(target)
    ensures CloseCount(a, target.value) > CloseCount(b, target.value) ==> Compare(a, b, target) == -1
    ensures CloseCount(a, target.value) > 0 && CloseCount(a, target.value) == CloseCount(b, target.value) ==>
      Compare(a, b, target) == 0
    ensures CloseCount(a, target.value) == 0 && CloseCount(b, target.value) == 0 ==>
      Compare(a, b, target) == Sign(MinDiff(a, target.value) - MinDiff(b, target.value))
  {
  }

  /** A scene whose own duration is within five seconds of the target goes
      in front of one whose durations are all further away. */
  lemma CloseSceneFirst(a: Scene, b: Scene, target: int)
    requires target != 0
    requires Abs(a.duration - target) <= CloseMatch
    requires forall d :: d in Diffs(b, target) ==> d > CloseMatch
    ensures Compare(a, b, Some(target)) == -1
  {
    assert Diffs(a, target)[0] in CloseMatches(Diffs(a, target));
  }

  /** Swapping the arguments flips the comparator's verdict. */
  lemma CompareAntisymmetric(a: Scene, b: Scene, target: Option<int>)
    ensures Compare(a, b, target) == -Compare(b, a, target)
  {
    CompareIsRankOrder(a, b, target);
    CompareIsRankOrder(b, a, target);
  }

  /** "Not after" is transitive. */
  lemma CompareTransitive(a: Scene, b: Scene, c: Scene, target: Option<int>)
    requires Compare(a, b, target) <= 0 && Compare(b, c, target) <= 0
    ensures Compare(a, c, target) <= 0
  {
    CompareIsRankOrder(a, b, target);
    CompareIsRankOrder(b, c, target);
    CompareIsRankOrder(a, c, target);
  }

  /** Without a usable target every pair ties. */
  lemma CompareInactive(a: Scene, b: Scene, target: Option<int>)
    requires !Active(target)
    ensures Compare(a, b, target) == 0
  {
  }

  // ---- the sort: a stable insertion sort by an integer rank ----

  /** Inserts `x` behind every element whose rank is not larger than its own. */
  function Insert<T>(s: seq<T>, x: T, rank: T -> int): seq<T>
  {
    if s == [] || rank(x) >= rank(s[|s| - 1]) then s + [x]
    else Insert(s[..|s| - 1], x, rank) + [s[|s| - 1]]
  }

  function InsertionSort<T>(s: seq<T>, rank: T -> int): seq<T>
  {
    if s == [] then [] else Insert(InsertionSort(s[..|s| - 1], rank), s[|s| - 1], rank)
  }

  predicate SortedBy<T>(s: seq<T>, rank: T -> int)
  {
    forall i, j :: 0 <= i < j < |s| ==> rank(s[i]) <= rank(s[j])
  }

  /** The elements of `s` whose rank is `k`, in their order in `s`. */
  function WithRank<T>(s: seq<T>, rank: T -> int, k: int): seq<T>
  {
    if s == [] then []
    else if rank(s[0]) == k then [s[0]] + WithRank(s[1..], rank, k)
    else WithRank(s[1..], rank, k)
  }

  /** Stable: elements of equal rank keep their relative order. */
  ghost predicate SameRankOrder<T>(s: seq<T>, t: seq<T>, rank: T -> int)
  {
    forall k :: WithRank(s, rank, k) == WithRank(t, rank, k)
  }

  lemma {:induction false} WithRankConcat<T>(s: seq<T>, t: seq<T>, rank: T -> int, k: int)
    ensures WithRank(s + t, rank, k) == WithRank(s, rank, k) + WithRank(t, rank, k)
  {
    if s == [] {
      assert s + t == t;
    } else {
      assert (s + t)[0] == s[0];
      assert (s + t)[1..] == s[1..] + t;
      WithRankConcat(s[1..], t, rank, k);
    }
  }

  lemma {:induction false} InsertPermutes<T>(s: seq<T>, x: T, rank: T -> int)
    ensures multiset(Insert(s, x, rank)) == multiset(s) + multiset{x}
    decreases |s|
  {
    if s != [] && rank(x) < rank(s[|s| - 1]) {
      InsertPermutes(s[..|s| - 1], x, rank);
      assert s == s[..|s| - 1] + [s[|s| - 1]];
    }
  }

  lemma SortedAppend<T>(t: seq<T>, y: T, rank: T -> int)
    requires SortedBy(t, rank)
    requires forall i :: 0 <= i < |t| ==> rank(t[i]) <= rank(y)
    ensures SortedBy(t + [y], rank)
  {
  }

  /** Inserting keeps every rank under a common bound. */
  lemma {:induction false} InsertBounded<T>(s: seq<T>, x: T, rank: T -> int, b: int)
    requires forall i :: 0 <= i < |s| ==> rank(s[i]) <= b
    requires rank(x) <= b
    ensures forall i :: 0 <= i < |Insert(s, x, rank)| ==> rank(Insert(s, x, rank)[i]) <= b
    decreases |s|
  {
    if s != [] && rank(x) < rank(s[|s| - 1]) {
      var init := s[..|s| - 1];
      InsertBounded(init, x, rank, b);
      assert Insert(s, x, rank) == Insert(init, x, rank) + [s[|s| - 1]];
    }
  }

  lemma {:induction false} InsertSorted<T>(s: seq<T>, x: T, rank: T -> int)
    requires SortedBy(s, rank)
    ensures SortedBy(Insert(s, x, rank), rank)
    decreases |s|
  {
    if s == [] || rank(x) >= rank(s[|s| - 1]) {
      SortedAppend(s, x, rank);
    } else {
      var init, y := s[..|s| - 1], s[|s| - 1];
      assert SortedBy(init, rank);
      InsertSorted(init, x, rank);
      InsertBounded(init, x, rank, rank(y));
      SortedAppend(Insert(init, x, rank), y, rank);
    }
  }

  lemma {:induction false} InsertStable<T>(s: seq<T>, x: T, rank: T -> int, k: int)
    ensures WithRank(Insert(s, x, rank), rank, k) == WithRank(s + [x], rank, k)
    decreases |s|
  {
    if s != [] && rank(x) < rank(s[|s| - 1]) {
      var init, y := s[..|s| - 1], s[|s| - 1];
      InsertStable(init, x, rank, k);
      WithRankConcat(Insert(init, x, rank), [y], rank, k);
      WithRankConcat(init, [x], rank, k);
      WithRankConcat(init + [y], [x], rank, k);
      WithRankConcat(init, [y], rank, k);
      assert s == init + [y];
      // x and y have different ranks, so at most one of them has rank k
      assert WithRank([x], rank, k) + WithRank([y], rank, k)
          == WithRank([y], rank, k) + WithRank([x], rank, k);
    }
  }

  /** The insertion sort returns a permutation of its input. */
  lemma {:induction false} SortPermutes<T>(s: seq<T>, rank: T -> int)
    ensures multiset(InsertionSort(s, rank)) == multiset(s)
  {
    if s != [] {
      var init := s[..|s| - 1];
      SortPermutes(init, rank);
      InsertPermutes(InsertionSort(init, rank), s[|s| - 1], rank);
      assert s == init + [s[|s| - 1]];
    }
  }

  /** The insertion sort's output is ordered by rank. */
  lemma {:induction false} SortSorted<T>(s: seq<T>, rank: T -> int)
    ensures SortedBy(InsertionSort(s, rank), rank)
  {
    if s != [] {
      SortSorted(s[..|s| - 1], rank);
      InsertSorted(InsertionSort(s[..|s| - 1], rank), s[|s| - 1], rank);
    }
  }

  /** The insertion sort is stable. */
  lemma {:induction false} SortStable<T>(s: seq<T>, rank: T -> int)
    ensures SameRankOrder(InsertionSort(s, rank), s, rank)
  {
    if s != [] {
      var init, x := s[..|s| - 1], s[|s| - 1];
      SortStable(init, rank);
      forall k ensures WithRank(InsertionSort(s, rank), rank, k) == WithRank(s, rank, k) {
        InsertStable(InsertionSort(init, rank), x, rank, k);
        WithRankConcat(InsertionSort(init, rank), [x], rank, k);
        WithRankConcat(init, [x], rank, k);
        assert s == init + [x];
      }
    }
  }

  /** When every element has the same rank the order is left unchanged. */
  lemma {:induction false} SortConstantRank<T>(s: seq<T>, rank: T -> int, c: int)
    requires forall i :: 0 <= i < |s| ==> rank(s[i]) == c
    ensures InsertionSort(s, rank) == s
  {
    if s != [] {
      SortConstantRank(s[..|s| - 1], rank, c);
      assert s == s[..|s| - 1] + [s[|s| - 1]];
    }
  }

  // ---- ranking scenes ----

  /** The comparator's key as a function value. */
  function RankOf(target: Option<int>): Scene -> int
  {
    s => Rank(s, target)
  }

  /** What a rank-sorted list of scenes means for the caller: a scene with
      more close matches comes first, and among scenes with no close match
      the smaller smallest difference comes first. */
  lemma SortedMeaning(s: seq<Scene>, target: Option<int>, i: nat, j: nat)
    requires SortedBy(s, RankOf(target)) && Active(target)
    requires i < j < |s|
    ensures CloseCount(s[i], target.value) >= CloseCount(s[j], target.value)
    ensures CloseCount(s[i], target.value) == 0 && CloseCount(s[j], target.value) == 0 ==>
      MinDiff(s[i], target.value) <= MinDiff(s[j], target.value)
  {
    assert RankOf(target)(s[i]) <= RankOf(target)(s[j]);
  }

  /** The sorted order of scenes: a permutation, ordered by rank, stable,
      and the identity without a usable target. */
  lemma SortScenesFacts(s: seq<Scene>, target: Option<int>)
    ensures multiset(InsertionSort(s, RankOf(target))) == multiset(s)
    ensures SortedBy(InsertionSort(s, RankOf(target)), RankOf(target))
    ensures SameRankOrder(InsertionSort(s, RankOf(target)), s, RankOf(target))
    ensures !Active(target) ==> InsertionSort(s, RankOf(target)) == s
  {
    SortPermutes(s, RankOf(target));
    SortSorted(s, RankOf(target));
    SortStable(s, RankOf(target));
    if !Active(target) {
      SortConstantRank(s, RankOf(target), 0);
    }
  }

  // ---- the in-place sort ----

  /** A comparator that puts `x` first exactly when `x` ranks lower. */
  ghost predicate OrdersBy<T(!new)>(cmp: (T, T) -> int, rank: T -> int)
  {
    forall x, y :: cmp(x, y) < 0 <==> rank(x) < rank(y)
  }

  lemma SplitOffHead<T>(s: seq<T>, i: nat)
    requires i < |s|
    ensures s[i..] == [s[i]] + s[i + 1..]
  {
  }

  lemma Reassociate<T>(front: seq<T>, y: T, back: seq<T>)
    ensures (front + [y]) + back == front + ([y] + back)
  {
  }

  /** One step of the shifting loop: when `x` ranks below element `j - 1`,
      that element ends up behind the insertion. */
  lemma {:induction false} InsertStep<T>(done: seq<T>, j: nat, x: T, rank: T -> int)
    requires 0 < j <= |done| && rank(x) < rank(done[j - 1])
    ensures Insert(done[..j], x, rank) + done[j..] == Insert(done[..j - 1], x, rank) + done[j - 1..]
  {
    var prefix := done[..j];
    assert prefix[|prefix| - 1] == done[j - 1];
    assert prefix[..|prefix| - 1] == done[..j - 1];
    assert Insert(prefix, x, rank) == Insert(done[..j - 1], x, rank) + [done[j - 1]];
    SplitOffHead(done, j - 1);
    Reassociate(Insert(done[..j - 1], x, rank), done[j - 1], done[j..]);
  }

  /** The last step: `x` does not rank below the element before the gap. */
  lemma InsertStop<T>(done: seq<T>, j: nat, x: T, rank: T -> int)
    requires j <= |done| && (j == 0 || rank(x) >= rank(done[j - 1]))
    ensures Insert(done[..j], x, rank) == done[..j] + [x]
  {
  }

  /** The array while the loop shifts `s[j..i]` one place right: slot `j`
      is the gap, still holding its previous element. */
  function Shifted<T>(s: seq<T>, j: nat, i: nat): (r: seq<T>)
    requires j <= i < |s|
    ensures |r| == |s| && (j > 0 ==> r[j - 1] == s[j - 1])
  {
    s[..j + 1] + s[j..i] + s[i + 1..]
  }

  lemma ShiftStep<T>(s: seq<T>, j: nat, i: nat)
    requires 0 < j <= i < |s|
    ensures Shifted(s, j, i)[j := s[j - 1]] == Shifted(s, j - 1, i)
  {
  }

  lemma FillGap<T>(s: seq<T>, j: nat, i: nat, x: T)
    requires j <= i < |s|
    ensures Shifted(s, j, i)[j := x] == (s[..i][..j] + [x] + s[..i][j..]) + s[i + 1..]
  {
  }

  lemma Halves<T>(front: seq<T>, back: seq<T>)
    ensures (front + back)[..|front|] == front && (front + back)[|front|..] == back
  {
  }

  /** Moves `a[i]` left past every element the comparator puts behind it,
      shifting those one place right. */
  method InsertLast<T(!new)>(a: array<T>, i: nat, cmp: (T, T) -> int, ghost rank: T -> int)
    requires i < a.Length && OrdersBy(cmp, rank)
    modifies a
    ensures a[..i + 1] == Insert(old(a[..i]), old(a[i]), rank)
    ensures a[i + 1..] == old(a[i + 1..])
  {
    ghost var s := a[..];
    ghost var done := s[..i];
    var x := a[i];
    var j := i;
    assert a[..] == Shifted(s, j, i);
    assert done[..j] == done && done[j..] == [];
    while j > 0 && cmp(x, a[j - 1]) < 0
      invariant 0 <= j <= i
      invariant a[..] == Shifted(s, j, i)
      invariant Insert(done, x, rank) == Insert(done[..j], x, rank) + done[j..]
    {
      InsertStep(done, j, x, rank);
      ShiftStep(s, j, i);
      a[j] := a[j - 1];
      j := j - 1;
    }
    InsertStop(done, j, x, rank);
    FillGap(s, j, i, x);
    a[j] := x;
    Halves(done[..j] + [x] + done[j..], s[i + 1..]);
  }

  /** `Array.prototype.sort(cmp)`, which is stable: an insertion sort in
      place, for a comparator consistent with some rank. */
  method SortInPlace<T(!new)>(a: array<T>, cmp: (T, T) -> int, ghost rank: T -> int)
    requires OrdersBy(cmp, rank)
    modifies a
    ensures a[..] == InsertionSort(old(a[..]), rank)
  {
    ghost var input := a[..];
    var i := 0;
    while i < a.Length
      invariant 0 <= i <= a.Length
      invariant a[..i] == InsertionSort(input[..i], rank)
      invariant a[i..] == input[i..]
    {
      InsertLast(a, i, cmp, rank);
      assert input[..i + 1][..i] == input[..i];
      i := i + 1;
    }
    assert input[..a.Length] == input;
  }

  /** The comparator as a function value. */
  function ComparatorFor(target: Option<int>): (Scene, Scene) -> int
  {
    (a, b) => Compare(a, b, target)
  }

  lemma ComparatorOrdersByRank(target: Option<int>)
    ensures OrdersBy(ComparatorFor(target), RankOf(target))
  {
    forall x, y ensures ComparatorFor(target)(x, y) < 0 <==> RankOf(target)(x) < RankOf(target)(y) {
      CompareIsRankOrder(x, y, target);
    }
  }

  /** `sortScenesByDuration`: sorts `scenes` in place with the comparator
      and returns the same array. The result is the stable insertion sort
      by rank of the input: a permutation, ordered by rank, with scenes of
      equal rank in their original order; without a usable target nothing
      moves. */
  method SortScenesByDuration(scenes: array<Scene>, target: Option<int>) returns (sorted: array<Scene>)
    modifies scenes
    ensures sorted == scenes
    ensures scenes[..] == InsertionSort(old(scenes[..]), RankOf(target))
    ensures multiset(scenes[..]) == multiset(old(scenes[..]))
    ensures SortedBy(scenes[..], RankOf(target))
    ensures SameRankOrder(scenes[..], old(scenes[..]), RankOf(target))
    ensures !Active(target) ==> scenes[..] == old(scenes[..])
  {
    ComparatorOrdersByRank(target);
    SortInPlace(scenes, ComparatorFor(target), RankOf(target));
    SortScenesFacts(old(scenes[..]), target);
    sorted := scenes;
  }
}
