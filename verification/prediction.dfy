/**
 * The range-balanced picker of the number suggester. Each round ranks the 45
 * numbers by a randomly perturbed weight and then walks that ranking, taking
 * a number unless its range already holds its cap (three for each of 1-10,
 * 11-20, 21-30 and 31-40, two for 41-45), until six are taken; the six are
 * returned in ascending order. The weights and the randomness only decide the
 * ranking, so a round is modelled by the ranking it produced: any
 * permutation of 1..45.
 */
module Prediction {
  import opened Draws
  import opened Sorting
  import opened Statistics

  /** How many numbers one suggestion may take from a range. */
  function Cap(b: Bucket): (c: nat)
    ensures c == if High(b) - Low(b) + 1 == 10 then 3 else 2
    ensures 2 * c <= High(b) - Low(b) + 1
  {
    if b != B41To45 then 3 else 2
  }

  ghost predicate WithinCaps(s: seq<int>) {
    forall b :: BucketCount(s, b) <= Cap(b)
  }

  /** A ranking of the whole pool: every number of 1..45 exactly once. */
  ghost predicate IsPoolOrder(order: seq<int>) {
    && Distinct(order)
    && (forall x :: x in order ==> InPool(x))
    && (forall n :: 1 <= n <= PoolSize ==> n in order)
  }

  /** What every suggestion is: six distinct numbers of the pool, ascending, within the range caps. */
  ghost predicate IsSuggestion(p: seq<int>) {
    && |p| == NumbersPerDraw
    && (forall i, j :: 0 <= i < j < |p| ==> p[i] < p[j])
    && (forall x :: x in p ==> InPool(x))
    && WithinCaps(p)
  }

  /** Three distinct members of a range, each counted if present. */
  lemma {:induction false} ThreeInBucket(s: seq<int>, b: Bucket, x: int, y: int, z: int)
    requires GetRange(x) == b && GetRange(y) == b && GetRange(z) == b
    requires x != y && y != z && x != z
    ensures BucketCount(s, b) >= (if x in s then 1 else 0) + (if y in s then 1 else 0) + (if z in s then 1 else 0)
  {
    if s != [] {
      var init := s[..|s| - 1];
      assert s == init + [s[|s| - 1]];
      assert forall v :: v in s <==> v in init || v == s[|s| - 1];
      ThreeInBucket(init, b, x, y, z);
    }
  }

  /** Sorting keeps every range count. */
  lemma {:induction false} BucketCountInsert(s: seq<int>, x: int, b: Bucket)
    ensures BucketCount(Insert(s, x, Identity), b) == BucketCount(s, b) + (if GetRange(x) == b then 1 else 0)
  {
    if s == [] {
      assert Insert(s, x, Identity) == [x];
      assert [x][..0] == [];
    } else if Identity(x) < Identity(s[|s| - 1]) {
      var init := s[..|s| - 1];
      BucketCountInsert(init, x, b);
      BucketCountAppend(Insert(init, x, Identity), s[|s| - 1], b);
    } else {
      BucketCountAppend(s, x, b);
    }
  }

  lemma {:induction false} BucketCountSorted(s: seq<int>, b: Bucket)
    ensures BucketCount(SortInts(s), b) == BucketCount(s, b)
  {
    BucketCountSortBy(s, b);
  }

  lemma {:induction false} BucketCountSortBy(s: seq<int>, b: Bucket)
    ensures BucketCount(SortBy(s, Identity), b) == BucketCount(s, b)
  {
    if s != [] {
      var init := s[..|s| - 1];
      BucketCountSortBy(init, b);
      BucketCountInsert(SortBy(init, Identity), s[|s| - 1], b);
    }
  }

  /** `counts` is the source's per-range counter table for `selected`, within the caps. */
  ghost predicate CountsMatch(selected: seq<int>, counts: map<Bucket, nat>) {
    && CountsOf(counts, selected)
    && (forall b :: b in counts ==> counts[b] <= Cap(b))
  }

  /** Every number among the first `i` of the ranking was taken or found its range full. */
  ghost predicate Passed(order: seq<int>, i: int, selected: seq<int>, counts: map<Bucket, nat>)
    requires counts.Keys == AllBuckets
    requires 0 <= i <= |order|
  {
    forall j :: 0 <= j < i ==> order[j] in selected || counts[GetRange(order[j])] == Cap(GetRange(order[j]))
  }

  /**
   * Every number among the first `i` of the ranking that was not taken met a
   * range already filled by numbers ranked before it.
   */
  ghost predicate FullBefore(order: seq<int>, i: int, selected: seq<int>)
    requires 0 <= i <= |order|
  {
    forall j :: 0 <= j < i && order[j] !in selected ==>
      forall x :: x in selected && GetRange(x) == GetRange(order[j]) ==> x in order[..j]
  }

  /** No number taken yet in any range. */
  const NoCounts: map<Bucket, nat> := map[B1To10 := 0, B11To20 := 0, B21To30 := 0, B31To40 := 0, B41To45 := 0]

  /**
   * The selection walk as a function: what is chosen from the `i`-th number of
   * the ranking on, given the numbers `selected` so far and how many of them
   * fall in each range. It stops at six.
   */
  function GreedyFrom(order: seq<int>, i: nat, selected: seq<int>, counts: map<Bucket, nat>): seq<int>
    requires counts.Keys == AllBuckets
    decreases |order| - i
  {
    if i >= |order| || |selected| >= NumbersPerDraw then selected
    else
      var r := GetRange(order[i]);
      if counts[r] < Cap(r) then GreedyFrom(order, i + 1, selected + [order[i]], counts[r := counts[r] + 1])
      else GreedyFrom(order, i + 1, selected, counts)
  }

  /** The selection of one round, in the order the numbers were taken. */
  function GreedyPick(order: seq<int>): seq<int> {
    GreedyFrom(order, 0, [], NoCounts)
  }

  /** The loop's state after walking the first `i` numbers of the ranking. */
  ghost predicate Scanned(order: seq<int>, i: int, selected: seq<int>, counts: map<Bucket, nat>) {
    && 0 <= i <= |order|
    && CountsMatch(selected, counts)
    && Distinct(selected)
    && (forall x :: x in selected ==> x in order[..i])
    && Passed(order, i, selected, counts)
    && FullBefore(order, i, selected)
  }

  /** Taking a number whose range is under its cap keeps the counters right. */
  lemma TakeStep(selected: seq<int>, counts: map<Bucket, nat>, num: int)
    requires CountsMatch(selected, counts)
    requires num !in selected
    requires counts[GetRange(num)] < Cap(GetRange(num))
    ensures CountsMatch(selected + [num], counts[GetRange(num) := counts[GetRange(num)] + 1])
  {
    CountStep(counts, selected, num);
  }

  /**
   * One iteration of the selection loop keeps its state: the next number of the
   * ranking is taken when its range has room and passed over otherwise.
   */
  lemma ScanStep(order: seq<int>, i: int, selected: seq<int>, counts: map<Bucket, nat>)
    requires Distinct(order)
    requires Scanned(order, i, selected, counts) && i < |order|
    ensures var r := GetRange(order[i]);
      if counts[r] < Cap(r) then Scanned(order, i + 1, selected + [order[i]], counts[r := counts[r] + 1])
      else Scanned(order, i + 1, selected, counts)
  {
    if counts[GetRange(order[i])] < Cap(GetRange(order[i])) {
      TakeKeepsScanned(order, i, selected, counts);
    } else {
      SkipKeepsScanned(order, i, selected, counts);
    }
  }

  /** Appending a number not yet present keeps a sequence free of repeats. */
  lemma DistinctSnoc(s: seq<int>, x: int)
    requires Distinct(s) && x !in s
    ensures Distinct(s + [x])
  {
    forall p, q | 0 <= p < q < |s| + 1 ensures (s + [x])[p] != (s + [x])[q] {
      if q == |s| {
        assert (s + [x])[p] == s[p];
      }
    }
  }

  /** The first `i` numbers of a ranking without repeats do not include its `i`-th. */
  lemma NotYetOffered(order: seq<int>, i: int, selected: seq<int>)
    requires Distinct(order) && 0 <= i < |order|
    requires forall x :: x in selected ==> x in order[..i]
    ensures order[i] !in selected
    ensures forall x :: x in selected + [order[i]] ==> x in order[..i + 1]
  {
    forall x | x in selected ensures x != order[i] {
      assert x in order[..i];
      var j :| 0 <= j < i && order[..i][j] == x;
      assert order[j] == x;
    }
    assert order[..i + 1] == order[..i] + [order[i]];
    forall x | x in selected + [order[i]] ensures x in order[..i + 1] {
      if x != order[i] {
        assert x in selected;
      }
    }
  }

  /** Taking the next number keeps every skipped number's range filled by earlier picks. */
  lemma FullBeforeTake(order: seq<int>, i: int, selected: seq<int>, counts: map<Bucket, nat>)
    requires Scanned(order, i, selected, counts) && i < |order|
    requires counts[GetRange(order[i])] < Cap(GetRange(order[i]))
    ensures FullBefore(order, i + 1, selected + [order[i]])
  {
    var selected' := selected + [order[i]];
    forall j | 0 <= j < i + 1 && order[j] !in selected'
      ensures forall x :: x in selected' && GetRange(x) == GetRange(order[j]) ==> x in order[..j]
    {
      assert order[j] !in selected;
      assert counts[GetRange(order[j])] == Cap(GetRange(order[j]));
      forall x | x in selected' && GetRange(x) == GetRange(order[j]) ensures x in order[..j] {
        assert x in selected;
      }
    }
  }

  /** Passing over the next number keeps every skipped number's range filled by earlier picks. */
  lemma FullBeforeSkip(order: seq<int>, i: int, selected: seq<int>, counts: map<Bucket, nat>)
    requires Scanned(order, i, selected, counts) && i < |order|
    requires order[i] !in selected
    ensures FullBefore(order, i + 1, selected)
  {
    forall j | 0 <= j < i + 1 && order[j] !in selected
      ensures forall x :: x in selected && GetRange(x) == GetRange(order[j]) ==> x in order[..j]
    {
      if j == i {
        forall x | x in selected ensures x in order[..i] {
        }
      }
    }
  }

  /** Taking the next number of the ranking, when its range has room, keeps the loop's state. */
  lemma TakeKeepsScanned(order: seq<int>, i: int, selected: seq<int>, counts: map<Bucket, nat>)
    requires Distinct(order)
    requires Scanned(order, i, selected, counts) && i < |order|
    requires counts[GetRange(order[i])] < Cap(GetRange(order[i]))
    ensures Scanned(order, i + 1, selected + [order[i]], counts[GetRange(order[i]) := counts[GetRange(order[i])] + 1])
  {
    NotYetOffered(order, i, selected);
    TakeStep(selected, counts, order[i]);
    DistinctSnoc(selected, order[i]);
    FullBeforeTake(order, i, selected, counts);
  }

  /** Skipping a number whose range is full keeps the loop's state. */
  lemma SkipKeepsScanned(order: seq<int>, i: int, selected: seq<int>, counts: map<Bucket, nat>)
    requires Distinct(order)
    requires Scanned(order, i, selected, counts) && i < |order|
    requires counts[GetRange(order[i])] >= Cap(GetRange(order[i]))
    ensures Scanned(order, i + 1, selected, counts)
  {
    NotYetOffered(order, i, selected);
    assert order[..i + 1] == order[..i] + [order[i]];
    FullBeforeSkip(order, i, selected, counts);
  }

  /**
   * A number passed over before a taken one found its range full, and filled
   * by numbers ranked before it.
   */
  lemma SkippedMeansFull(order: seq<int>, i: int, selected: seq<int>, counts: map<Bucket, nat>, j: int, k: int)
    requires Distinct(order)
    requires Scanned(order, i, selected, counts)
    requires 0 <= j < k < |order| && order[k] in selected && order[j] !in selected
    ensures BucketCount(selected, GetRange(order[j])) == Cap(GetRange(order[j]))
    ensures forall x :: x in selected && GetRange(x) == GetRange(order[j]) ==> x in order[..j]
  {
    assert order[k] in order[..i];
    var k' :| 0 <= k' < i && order[..i][k'] == order[k];
    assert k' == k;
  }

  /**
   * The walk from the `i`-th number on keeps the loop's state, and ends with
   * the ranking exhausted or six numbers taken.
   */
  lemma {:induction false} GreedyRun(order: seq<int>, i: int, selected: seq<int>, counts: map<Bucket, nat>)
    returns (end: int, picked: seq<int>, final: map<Bucket, nat>)
    requires Distinct(order)
    requires Scanned(order, i, selected, counts) && |selected| <= NumbersPerDraw
    ensures counts.Keys == AllBuckets && picked == GreedyFrom(order, i, selected, counts)
    ensures Scanned(order, end, picked, final) && |picked| <= NumbersPerDraw
    ensures end == |order| || |picked| == NumbersPerDraw
    decreases |order| - i
  {
    if i == |order| || |selected| == NumbersPerDraw {
      end, picked, final := i, selected, counts;
    } else {
      var next, nextCounts := GreedyAdvance(order, i, selected, counts);
      end, picked, final := GreedyRun(order, i + 1, next, nextCounts);
    }
  }

  /** One step of the walk keeps the loop's state and agrees with the function. */
  lemma GreedyAdvance(order: seq<int>, i: int, selected: seq<int>, counts: map<Bucket, nat>)
    returns (next: seq<int>, nextCounts: map<Bucket, nat>)
    requires Distinct(order)
    requires Scanned(order, i, selected, counts) && i < |order| && |selected| < NumbersPerDraw
    ensures Scanned(order, i + 1, next, nextCounts) && |next| <= NumbersPerDraw
    ensures GreedyFrom(order, i, selected, counts) == GreedyFrom(order, i + 1, next, nextCounts)
  {
    var r := GetRange(order[i]);
    ScanStep(order, i, selected, counts);
    if counts[r] < Cap(r) {
      next, nextCounts := selected + [order[i]], counts[r := counts[r] + 1];
    } else {
      next, nextCounts := selected, counts;
    }
  }

  /**
   * What one round selects from any ranking of the pool: six distinct numbers
   * of the ranking, within the caps, and a number is passed over before a
   * taken one only when numbers ranked before it already fill its range.
   */
  lemma GreedyPickSpec(order: seq<int>)
    requires IsPoolOrder(order)
    ensures var selected := GreedyPick(order);
      && |selected| == NumbersPerDraw
      && Distinct(selected)
      && (forall x :: x in selected ==> x in order)
      && WithinCaps(selected)
      && forall j, k :: 0 <= j < k < |order| && order[k] in selected && order[j] !in selected ==>
        && BucketCount(selected, GetRange(order[j])) == Cap(GetRange(order[j]))
        && forall x :: x in selected && GetRange(x) == GetRange(order[j]) ==> x in order[..j]
  {
    assert Scanned(order, 0, [], NoCounts);
    var end, picked, final := GreedyRun(order, 0, [], NoCounts);
    ScanComplete(order, end, picked, final);
  }

  /**
   * The selection loop of one round: walks `order`, taking each number whose
   * range is still under its cap, and stops at six. Six are always reached,
   * because the first two ranges alone offer three numbers each.
   */
  method SelectBalanced(order: seq<int>) returns (selected: seq<int>)
    requires IsPoolOrder(order)
    ensures selected == GreedyPick(order)
    ensures |selected| == NumbersPerDraw
    ensures Distinct(selected)
    ensures forall x :: x in selected ==> x in order
    ensures WithinCaps(selected)
    ensures forall j, k :: 0 <= j < k < |order| && order[k] in selected && order[j] !in selected ==>
      && BucketCount(selected, GetRange(order[j])) == Cap(GetRange(order[j]))
      && forall x :: x in selected && GetRange(x) == GetRange(order[j]) ==> x in order[..j]
  {
    selected := [];
    var rangeCounts: map<Bucket, nat> := map[B1To10 := 0, B11To20 := 0, B21To30 := 0, B31To40 := 0, B41To45 := 0];
    var i := 0;
    // the source breaks out at the top of an iteration once six are taken
    while i < |order| && |selected| < NumbersPerDraw
      invariant 0 <= i <= |order| && |selected| <= NumbersPerDraw
      invariant rangeCounts.Keys == AllBuckets
      invariant GreedyFrom(order, i, selected, rangeCounts) == GreedyPick(order)
    {
      var num := order[i];
      var r := GetRange(num);
      var maxPerRange := if r != B41To45 then 3 else 2;
      if rangeCounts[r] < maxPerRange {
        selected, rangeCounts := selected + [num], rangeCounts[r := rangeCounts[r] + 1];
      }
      i := i + 1;
    }
    GreedyPickSpec(order);
  }

  /** What the selection loop guarantees once it stops. */
  lemma ScanComplete(order: seq<int>, i: int, selected: seq<int>, counts: map<Bucket, nat>)
    requires IsPoolOrder(order)
    requires Scanned(order, i, selected, counts) && |selected| <= NumbersPerDraw
    requires i == |order| || |selected| == NumbersPerDraw
    ensures |selected| == NumbersPerDraw
    ensures Distinct(selected)
    ensures forall x :: x in selected ==> x in order
    ensures WithinCaps(selected)
    ensures forall j, k :: 0 <= j < k < |order| && order[k] in selected && order[j] !in selected ==>
      && BucketCount(selected, GetRange(order[j])) == Cap(GetRange(order[j]))
      && forall x :: x in selected && GetRange(x) == GetRange(order[j]) ==> x in order[..j]
  {
    if |selected| < NumbersPerDraw {
      AllRangesFull(order, selected, counts, B1To10, 1, 2, 3);
      AllRangesFull(order, selected, counts, B11To20, 11, 12, 13);
      assert false;
    }
    forall x | x in selected ensures x in order {
      assert x in order[..i];
    }
    forall j, k | 0 <= j < k < |order| && order[k] in selected && order[j] !in selected
      ensures && BucketCount(selected, GetRange(order[j])) == Cap(GetRange(order[j]))
              && forall x :: x in selected && GetRange(x) == GetRange(order[j]) ==> x in order[..j]
    {
      SkippedMeansFull(order, i, selected, counts, j, k);
    }
  }

  /**
   * When the whole ranking has been walked, a range whose three members
   * `x, y, z` were all offered is full.
   */
  lemma AllRangesFull(order: seq<int>, selected: seq<int>, rangeCounts: map<Bucket, nat>, b: Bucket, x: int, y: int, z: int)
    requires CountsMatch(selected, rangeCounts)
    requires Passed(order, |order|, selected, rangeCounts)
    requires x in order && y in order && z in order
    requires GetRange(x) == b && GetRange(y) == b && GetRange(z) == b
    requires x != y && y != z && x != z && Cap(b) == 3
    ensures rangeCounts[b] == 3
  {
    if rangeCounts[b] < 3 {
      assert x in selected && y in selected && z in selected;
      ThreeInBucket(selected, b, x, y, z);
    }
  }

  /**
   * `predict_numbers`' rounds: one suggestion per ranking, each the selection
   * in ascending order.
   */
  method PredictNumbers(orders: seq<seq<int>>) returns (predictions: seq<seq<int>>)
    requires forall k :: 0 <= k < |orders| ==> IsPoolOrder(orders[k])
    ensures |predictions| == |orders|
    ensures forall k :: 0 <= k < |predictions| ==> predictions[k] == SortInts(GreedyPick(orders[k]))
    ensures forall k :: 0 <= k < |predictions| ==> IsSuggestion(predictions[k])
  {
    predictions := [];
    for k := 0 to |orders|
      invariant |predictions| == k
      invariant forall m :: 0 <= m < k ==> predictions[m] == SortInts(GreedyPick(orders[m]))
    {
      var suggestion := SuggestOne(orders[k]);
      ghost var before := predictions;
      predictions := predictions + [suggestion];
      assert forall m :: 0 <= m < k ==> predictions[m] == before[m];
    }
    RoundsAreSuggestions(orders, predictions);
  }

  /** Every round's sorted selection is a suggestion. */
  lemma RoundsAreSuggestions(orders: seq<seq<int>>, predictions: seq<seq<int>>)
    requires forall k :: 0 <= k < |orders| ==> IsPoolOrder(orders[k])
    requires |predictions| == |orders|
    requires forall k :: 0 <= k < |predictions| ==> predictions[k] == SortInts(GreedyPick(orders[k]))
    ensures forall k :: 0 <= k < |predictions| ==> IsSuggestion(predictions[k])
  {
    forall k | 0 <= k < |predictions| ensures IsSuggestion(predictions[k]) {
      PickIsSuggestion(orders[k]);
    }
  }

  /** One round: select from the ranking, keep the first six and sort them. */
  method SuggestOne(order: seq<int>) returns (suggestion: seq<int>)
    requires IsPoolOrder(order)
    ensures suggestion == SortInts(GreedyPick(order))
    ensures IsSuggestion(suggestion)
  {
    var selected := SelectBalanced(order);
    assert selected[..NumbersPerDraw] == selected;
    suggestion := SortInts(selected[..NumbersPerDraw]);
    PickIsSuggestion(order);
  }

  /** The sorted selection of any ranking of the pool is a suggestion. */
  lemma PickIsSuggestion(order: seq<int>)
    requires IsPoolOrder(order)
    ensures IsSuggestion(SortInts(GreedyPick(order)))
  {
    GreedyPickSpec(order);
    AscendingSelection(GreedyPick(order), SortInts(GreedyPick(order)));
  }

  /** Sorting a capped selection of six distinct pool numbers gives a suggestion. */
  lemma AscendingSelection(selected: seq<int>, sorted: seq<int>)
    requires |selected| == NumbersPerDraw && Distinct(selected)
    requires forall x :: x in selected ==> InPool(x)
    requires WithinCaps(selected)
    requires sorted == SortInts(selected)
    ensures IsSuggestion(sorted)
  {
    SameElements(sorted, selected);
    forall i, j | 0 <= i < j < |sorted| ensures sorted[i] < sorted[j] {
      if sorted[i] == sorted[j] {
        RepeatedElement(sorted, i, j);
        DistinctMultiplicity(selected, sorted[i]);
      }
    }
    forall b ensures BucketCount(sorted, b) <= Cap(b) {
      BucketCountSorted(selected, b);
    }
  }
}
