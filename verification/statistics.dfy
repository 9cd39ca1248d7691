/**
 * The statistics engine of the analytics service: frequency tables over all
 * draws and over the most recent ones, hot and cold numbers, range buckets,
 * odd/even combinations, consecutive pairs and per-draw sums. Counts and
 * integer sums are modelled; the floating-point averages, percentages and
 * roundings built on them are not.
 */
module Statistics {
  import opened Draws
  import opened Sorting
  import opened PySeq

  // ---------------------------------------------------------------------------
  // All main numbers, in draw order
  // ---------------------------------------------------------------------------

  /** The main numbers of every draw, concatenated in order (bonus excluded). */
  function AllNumbers(draws: seq<Draw>): seq<int> {
    if draws == [] then [] else AllNumbers(draws[..|draws| - 1]) + draws[|draws| - 1].numbers
  }

  /** Extends a list with each draw's numbers in turn. */
  method GetAllNumbers(draws: seq<Draw>) returns (numbers: seq<int>)
    ensures numbers == AllNumbers(draws)
  {
    numbers := [];
    for i := 0 to |draws|
      invariant numbers == AllNumbers(draws[..i])
    {
      assert draws[..i + 1][..i] == draws[..i];
      numbers := numbers + draws[i].numbers;
    }
    assert draws[..|draws|] == draws;
  }

  lemma {:induction false} AllNumbersAppend(a: seq<Draw>, b: seq<Draw>)
    ensures AllNumbers(a + b) == AllNumbers(a) + AllNumbers(b)
  {
    if b != [] {
      var init := b[..|b| - 1];
      assert (a + b)[..|a + b| - 1] == a + init;
      AllNumbersAppend(a, init);
    } else {
      assert a + b == a;
    }
  }

  /** Six numbers per draw give six times as many numbers as draws. */
  lemma {:induction false} AllNumbersLength(draws: seq<Draw>)
    requires forall i :: 0 <= i < |draws| ==> |draws[i].numbers| == NumbersPerDraw
    ensures |AllNumbers(draws)| == NumbersPerDraw * |draws|
  {
    if draws != [] {
      AllNumbersLength(draws[..|draws| - 1]);
    }
  }

  /** A number is in the list exactly when some draw has it among its main numbers. */
  lemma {:induction false} AllNumbersMembers(draws: seq<Draw>)
    ensures forall x :: x in AllNumbers(draws) <==> exists i :: 0 <= i < |draws| && x in draws[i].numbers
  {
    if draws != [] {
      var init := draws[..|draws| - 1];
      AllNumbersMembers(init);
      forall x ensures x in AllNumbers(draws) <==> exists i :: 0 <= i < |draws| && x in draws[i].numbers {
        if x in AllNumbers(draws) && x !in draws[|draws| - 1].numbers {
          assert x in AllNumbers(init);
          var i :| 0 <= i < |init| && x in init[i].numbers;
          assert x in draws[i].numbers;
        }
        if exists i :: 0 <= i < |draws| && x in draws[i].numbers {
          var i :| 0 <= i < |draws| && x in draws[i].numbers;
          if i < |init| {
            assert x in init[i].numbers;
          }
        }
      }
    }
  }

  /** Only the main numbers are read: draw number, date and bonus play no part. */
  lemma {:induction false} AllNumbersOnlyMainNumbers(a: seq<Draw>, b: seq<Draw>)
    requires |a| == |b|
    requires forall i :: 0 <= i < |a| ==> a[i].numbers == b[i].numbers
    ensures AllNumbers(a) == AllNumbers(b)
  {
    if a != [] {
      AllNumbersOnlyMainNumbers(a[..|a| - 1], b[..|b| - 1]);
    }
  }

  // ---------------------------------------------------------------------------
  // Frequency tables
  // ---------------------------------------------------------------------------

  /** Occurrences of every number of the pool among all main numbers. */
  function FrequencyAnalysis(draws: seq<Draw>): (freq: map<int, nat>)
    ensures forall n :: n in freq <==> InPool(n)
  {
    var all := AllNumbers(draws);
    map n | 1 <= n <= PoolSize :: multiset(all)[n]
  }

  /** Sum of `freq[n]` for `lo <= n < hi`. */
  function SumTable(freq: map<int, nat>, lo: int, hi: int): nat
    requires forall n :: lo <= n < hi ==> n in freq
    decreases hi - lo
  {
    if lo >= hi then 0 else freq[lo] + SumTable(freq, lo + 1, hi)
  }

  /** Sum of the multiplicities in `m` of `lo <= n < hi`. */
  function SumMultiplicities(m: multiset<int>, lo: int, hi: int): nat
    decreases hi - lo
  {
    if lo >= hi then 0 else m[lo] + SumMultiplicities(m, lo + 1, hi)
  }

  lemma {:induction false} SumMultiplicitiesAdd(m: multiset<int>, x: int, lo: int, hi: int)
    ensures SumMultiplicities(m + multiset{x}, lo, hi)
         == SumMultiplicities(m, lo, hi) + (if lo <= x < hi then 1 else 0)
    decreases hi - lo
  {
    if lo < hi {
      SumMultiplicitiesAdd(m, x, lo + 1, hi);
    }
  }

  lemma {:induction false} SumMultiplicitiesEmpty(lo: int, hi: int)
    ensures SumMultiplicities(multiset{}, lo, hi) == 0
    decreases hi - lo
  {
    if lo < hi {
      SumMultiplicitiesEmpty(lo + 1, hi);
    }
  }

  lemma {:induction false} SumMultiplicitiesOfRange(s: seq<int>, lo: int, hi: int)
    requires forall x :: x in s ==> lo <= x < hi
    ensures SumMultiplicities(multiset(s), lo, hi) == |s|
  {
    if s != [] {
      var init := s[..|s| - 1];
      assert s == init + [s[|s| - 1]];
      assert forall x :: x in init ==> x in s;
      SumMultiplicitiesOfRange(init, lo, hi);
      assert multiset(s) == multiset(init) + multiset{s[|s| - 1]};
      assert s[|s| - 1] in s;
      SumMultiplicitiesAdd(multiset(init), s[|s| - 1], lo, hi);
    } else {
      SumMultiplicitiesEmpty(lo, hi);
    }
  }

  lemma {:induction false} SumTableIsMultiplicities(freq: map<int, nat>, m: multiset<int>, lo: int, hi: int)
    requires forall n :: lo <= n < hi ==> n in freq && freq[n] == m[n]
    ensures SumTable(freq, lo, hi) == SumMultiplicities(m, lo, hi)
    decreases hi - lo
  {
    if lo < hi {
      SumTableIsMultiplicities(freq, m, lo + 1, hi);
    }
  }

  /** With six numbers of the pool per draw, the table adds up to six per draw. */
  lemma FrequencySum(draws: seq<Draw>)
    requires forall i :: 0 <= i < |draws| ==> WellFormed(draws[i])
    ensures SumTable(FrequencyAnalysis(draws), 1, PoolSize + 1) == NumbersPerDraw * |draws|
  {
    var all := AllNumbers(draws);
    AllNumbersLength(draws);
    AllNumbersMembers(draws);
    var freq := FrequencyAnalysis(draws);
    forall n | 1 <= n < PoolSize + 1 ensures n in freq && freq[n] == multiset(all)[n] {
    }
    SumTableIsMultiplicities(freq, multiset(all), 1, PoolSize + 1);
    forall x | x in all ensures 1 <= x < PoolSize + 1 {
      var i :| 0 <= i < |draws| && x in draws[i].numbers;
      assert WellFormed(draws[i]);
    }
    SumMultiplicitiesOfRange(all, 1, PoolSize + 1);
  }

  /** Number of draws that have `n` among their main numbers. */
  function DrawsContaining(draws: seq<Draw>, n: int): nat {
    if draws == [] then 0
    else DrawsContaining(draws[..|draws| - 1], n) + (if n in draws[|draws| - 1].numbers then 1 else 0)
  }

  /**
   * With distinct numbers in every draw, the count of a number is the number
   * of draws it appeared in.
   */
  lemma {:induction false} FrequencyCountsDraws(draws: seq<Draw>, n: int)
    requires forall i :: 0 <= i < |draws| ==> Distinct(draws[i].numbers)
    requires InPool(n)
    ensures FrequencyAnalysis(draws)[n] == DrawsContaining(draws, n)
  {
    if draws != [] {
      var init := draws[..|draws| - 1];
      FrequencyCountsDraws(init, n);
      DistinctMultiplicity(draws[|draws| - 1].numbers, n);
    }
  }

  /** A number of the pool that no draw has maps to 0. */
  lemma NeverDrawnIsZero(draws: seq<Draw>, n: int)
    requires InPool(n)
    requires forall i :: 0 <= i < |draws| ==> n !in draws[i].numbers
    ensures FrequencyAnalysis(draws)[n] == 0
  {
    AllNumbersMembers(draws);
    assert n !in AllNumbers(draws);
  }

  /** The bonus (and every field besides the main numbers) is never counted. */
  lemma BonusNotCounted(a: seq<Draw>, b: seq<Draw>)
    requires |a| == |b|
    requires forall i :: 0 <= i < |a| ==> a[i].numbers == b[i].numbers
    ensures FrequencyAnalysis(a) == FrequencyAnalysis(b)
  {
    AllNumbersOnlyMainNumbers(a, b);
  }

  /**
   * The draws counted by the recent table: `draws[-n:]` when there are at
   * least `n` draws, else all of them. Python reads `draws[-0:]` as the whole
   * list, so a window of 0 counts every draw.
   */
  function RecentWindow(draws: seq<Draw>, n: nat): (w: seq<Draw>)
    ensures n == 0 ==> w == draws
    ensures n > 0 ==> w == draws[|draws| - if n < |draws| then n else |draws|..]
  {
    if |draws| >= n then SliceFrom(draws, -(n as int)) else draws
  }

  /** Frequency table over the recent window. */
  function RecentFrequency(draws: seq<Draw>, n: nat): (freq: map<int, nat>)
    ensures forall k :: k in freq <==> InPool(k)
  {
    FrequencyAnalysis(RecentWindow(draws, n))
  }

  /** A window at least as long as the history counts every draw. */
  lemma RecentCoversAll(draws: seq<Draw>, n: nat)
    requires n >= |draws|
    ensures RecentFrequency(draws, n) == FrequencyAnalysis(draws)
  {
    assert RecentWindow(draws, n) == draws;
  }

  /** The recent table never exceeds the table over all draws. */
  lemma RecentAtMostTotal(draws: seq<Draw>, n: nat, k: int)
    requires InPool(k)
    ensures RecentFrequency(draws, n)[k] <= FrequencyAnalysis(draws)[k]
  {
    var w := RecentWindow(draws, n);
    var p := |draws| - |w|;
    assert draws == draws[..p] + w;
    AllNumbersAppend(draws[..p], w);
  }

  // ---------------------------------------------------------------------------
  // Hot and cold numbers
  // ---------------------------------------------------------------------------

  /** A `{number, count}` entry (also used for odd/even combinations). */
  datatype Tally = Tally(item: int, count: nat)

  function NegCount(t: Tally): int { -(t.count as int) }

  function Item(t: Tally): int { t.item }

  /** `freq.items()`: the entries of a table in ascending number order. */
  function FrequencyItems(freq: map<int, nat>): (items: seq<Tally>)
    requires forall n :: 1 <= n <= PoolSize ==> n in freq
    ensures |items| == PoolSize
    ensures forall i :: 0 <= i < PoolSize ==> items[i] == Tally(i + 1, freq[i + 1])
  {
    seq(PoolSize, i requires 0 <= i < PoolSize => Tally(i + 1, freq[i + 1]))
  }

  /**
   * `sorted(freq.items(), key=count, reverse=True)`: by count descending, and,
   * the sort being stable, by ascending number among equal counts.
   */
  function RankByCount(freq: map<int, nat>): (ranked: seq<Tally>)
    requires forall n :: 1 <= n <= PoolSize ==> n in freq
    ensures |ranked| == PoolSize
    ensures forall t :: t in ranked ==> InPool(t.item) && t.item in freq && t.count == freq[t.item]
    ensures forall n :: InPool(n) ==> Tally(n, freq[n]) in ranked
    ensures forall i, j :: 0 <= i < j < |ranked| ==>
      ranked[i].count > ranked[j].count || (ranked[i].count == ranked[j].count && ranked[i].item < ranked[j].item)
  {
    RankedEntries(freq);
    RankedOrder(freq);
    SortBy(FrequencyItems(freq), NegCount)
  }

  lemma RankedEntries(freq: map<int, nat>)
    requires forall n :: 1 <= n <= PoolSize ==> n in freq
    ensures forall t :: t in SortBy(FrequencyItems(freq), NegCount) ==> InPool(t.item) && t.item in freq && t.count == freq[t.item]
    ensures forall n :: InPool(n) ==> Tally(n, freq[n]) in SortBy(FrequencyItems(freq), NegCount)
  {
    var items := FrequencyItems(freq);
    SameElements(SortBy(items, NegCount), items);
    assert forall n :: InPool(n) ==> items[n - 1] == Tally(n, freq[n]);
  }

  lemma RankedOrder(freq: map<int, nat>)
    requires forall n :: 1 <= n <= PoolSize ==> n in freq
    ensures forall i, j :: 0 <= i < j < PoolSize ==>
      var ranked := SortBy(FrequencyItems(freq), NegCount);
      ranked[i].count > ranked[j].count || (ranked[i].count == ranked[j].count && ranked[i].item < ranked[j].item)
  {
    var items := FrequencyItems(freq);
    SortByStable(items, NegCount, Item);
  }

  datatype HotCold = HotCold(hot: seq<Tally>, cold: seq<Tally>)

  /**
   * The first nine and the last nine of the ranking over the recent window:
   * within each list, by count descending and by ascending number among ties.
   */
  function HotColdNumbers(draws: seq<Draw>, n: nat): (hc: HotCold)
    ensures hc.hot == RankByCount(RecentFrequency(draws, n))[..9]
    ensures hc.cold == RankByCount(RecentFrequency(draws, n))[PoolSize - 9..]
    ensures |hc.hot| == 9 && |hc.cold| == 9
    ensures forall t :: t in hc.hot || t in hc.cold ==>
      InPool(t.item) && t.count == RecentFrequency(draws, n)[t.item]
    ensures forall i, j :: 0 <= i < j < 9 ==>
      hc.hot[i].count > hc.hot[j].count || (hc.hot[i].count == hc.hot[j].count && hc.hot[i].item < hc.hot[j].item)
    ensures forall i, j :: 0 <= i < j < 9 ==>
      hc.cold[i].count > hc.cold[j].count || (hc.cold[i].count == hc.cold[j].count && hc.cold[i].item < hc.cold[j].item)
    ensures forall i, j :: 0 <= i < 9 && 0 <= j < 9 ==> hc.hot[i].count >= hc.cold[j].count
  {
    var ranked := RankByCount(RecentFrequency(draws, n));
    HotCold(ranked[..9], SliceFrom(ranked, -9))
  }

  /**
   * Every number left out of the hot list was drawn no more often than any hot
   * number, and when it ties with one it has the larger number.
   */
  lemma HotAreMostFrequent(draws: seq<Draw>, n: nat, k: int)
    requires InPool(k)
    requires forall t :: t in HotColdNumbers(draws, n).hot ==> t.item != k
    ensures forall t :: t in HotColdNumbers(draws, n).hot ==> RecentFrequency(draws, n)[k] <= t.count
    ensures forall t :: t in HotColdNumbers(draws, n).hot && RecentFrequency(draws, n)[k] == t.count ==> t.item < k
  {
    var freq := RecentFrequency(draws, n);
    var ranked := RankByCount(freq);
    var p :| 0 <= p < |ranked| && ranked[p] == Tally(k, freq[k]);
    assert p >= 9;
    HeadOutranks(ranked, p, 9);
  }

  /** In a ranking, every entry among the first `end` outranks a later entry `p`. */
  lemma HeadOutranks(ranked: seq<Tally>, p: int, end: int)
    requires forall i, j :: 0 <= i < j < |ranked| ==>
      ranked[i].count > ranked[j].count || (ranked[i].count == ranked[j].count && ranked[i].item < ranked[j].item)
    requires 0 <= end <= p < |ranked|
    ensures forall t :: t in ranked[..end] ==>
      ranked[p].count <= t.count && (ranked[p].count == t.count ==> t.item < ranked[p].item)
  {
    forall t | t in ranked[..end]
      ensures ranked[p].count <= t.count && (ranked[p].count == t.count ==> t.item < ranked[p].item)
    {
      var i :| 0 <= i < end && ranked[..end][i] == t;
      assert ranked[i] == t;
    }
  }

  /**
   * Every number left out of the cold list was drawn at least as often as any
   * cold number, and when it ties with one it has the smaller number.
   */
  lemma ColdAreLeastFrequent(draws: seq<Draw>, n: nat, k: int)
    requires InPool(k)
    requires forall t :: t in HotColdNumbers(draws, n).cold ==> t.item != k
    ensures forall t :: t in HotColdNumbers(draws, n).cold ==> RecentFrequency(draws, n)[k] >= t.count
    ensures forall t :: t in HotColdNumbers(draws, n).cold && RecentFrequency(draws, n)[k] == t.count ==> k < t.item
  {
    var freq := RecentFrequency(draws, n);
    var ranked := RankByCount(freq);
    var p :| 0 <= p < |ranked| && ranked[p] == Tally(k, freq[k]);
    assert p < PoolSize - 9;
    TailOutranked(ranked, p, PoolSize - 9);
  }

  /** In a ranking, an entry `p` outranks every entry from `start` on. */
  lemma TailOutranked(ranked: seq<Tally>, p: int, start: int)
    requires forall i, j :: 0 <= i < j < |ranked| ==>
      ranked[i].count > ranked[j].count || (ranked[i].count == ranked[j].count && ranked[i].item < ranked[j].item)
    requires 0 <= p < start <= |ranked|
    ensures forall t :: t in ranked[start..] ==>
      ranked[p].count >= t.count && (ranked[p].count == t.count ==> ranked[p].item < t.item)
  {
    forall t | t in ranked[start..]
      ensures ranked[p].count >= t.count && (ranked[p].count == t.count ==> ranked[p].item < t.item)
    {
      var i :| 0 <= i < |ranked| - start && ranked[start..][i] == t;
      assert ranked[start + i] == t;
    }
  }

  // ---------------------------------------------------------------------------
  // Range buckets
  // ---------------------------------------------------------------------------

  /** The five fixed ranges 1-10, 11-20, 21-30, 31-40 and 41-45. */
  datatype Bucket = B1To10 | B11To20 | B21To30 | B31To40 | B41To45

  function Low(b: Bucket): int {
    match b
    case B1To10 => 1
    case B11To20 => 11
    case B21To30 => 21
    case B31To40 => 31
    case B41To45 => 41
  }

  function High(b: Bucket): int {
    match b
    case B1To10 => 10
    case B11To20 => 20
    case B21To30 => 30
    case B31To40 => 40
    case B41To45 => 45
  }

  /**
   * The range of a number, by the thresholds 10, 20, 30 and 40. Anything at
   * or below 10 falls in the first range and anything above 40 in the last.
   */
  function GetRange(n: int): (b: Bucket)
    ensures InPool(n) ==> Low(b) <= n <= High(b)
    ensures n < 1 ==> b == B1To10
    ensures n > PoolSize ==> b == B41To45
  {
    if n <= 10 then B1To10
    else if n <= 20 then B11To20
    else if n <= 30 then B21To30
    else if n <= 40 then B31To40
    else B41To45
  }

  /** The five ranges partition the pool: a number lies in exactly one of them. */
  lemma RangesPartitionPool(n: int, b: Bucket)
    requires InPool(n)
    ensures GetRange(n) == b <==> Low(b) <= n <= High(b)
  {
  }

  /** How many of `s` fall in range `b`. */
  function BucketCount(s: seq<int>, b: Bucket): nat {
    if s == [] then 0
    else BucketCount(s[..|s| - 1], b) + (if GetRange(s[|s| - 1]) == b then 1 else 0)
  }

  const AllBuckets: set<Bucket> := {B1To10, B11To20, B21To30, B31To40, B41To45}

  function SumOverBuckets(counts: map<Bucket, nat>): nat
    requires counts.Keys == AllBuckets
  {
    counts[B1To10] + counts[B11To20] + counts[B21To30] + counts[B31To40] + counts[B41To45]
  }

  /** `ranges` holds the count of every range in `s`. */
  ghost predicate CountsOf(ranges: map<Bucket, nat>, s: seq<int>) {
    && ranges.Keys == AllBuckets
    && (forall b :: b in ranges ==> ranges[b] == BucketCount(s, b))
    && SumOverBuckets(ranges) == |s|
  }

  lemma BucketCountAppend(s: seq<int>, x: int, b: Bucket)
    ensures BucketCount(s + [x], b) == BucketCount(s, b) + (if GetRange(x) == b then 1 else 0)
  {
    assert (s + [x])[..|s|] == s;
  }

  /** Counting one more number increments its range and nothing else. */
  lemma CountStep(ranges: map<Bucket, nat>, s: seq<int>, n: int)
    requires CountsOf(ranges, s)
    ensures CountsOf(ranges[GetRange(n) := ranges[GetRange(n)] + 1], s + [n])
  {
    var r := GetRange(n);
    var ranges' := ranges[r := ranges[r] + 1];
    forall b | b in ranges' ensures ranges'[b] == BucketCount(s + [n], b) {
      BucketCountAppend(s, n, b);
    }
    assert SumOverBuckets(ranges') == |s| + 1 by {
      match r
      case B1To10 =>
      case B11To20 =>
      case B21To30 =>
      case B31To40 =>
      case B41To45 =>
    }
  }

  lemma CountPrefixStep(ranges: map<Bucket, nat>, s: seq<int>, i: int, b: Bucket)
    requires 0 <= i < |s| && GetRange(s[i]) == b
    requires CountsOf(ranges, s[..i])
    ensures CountsOf(ranges[b := ranges[b] + 1], s[..i + 1])
  {
    assert s[..i + 1] == s[..i] + [s[i]];
    CountStep(ranges, s[..i], s[i]);
  }

  datatype RangeCounts = RangeCounts(counts: map<Bucket, nat>, total: nat)

  /**
   * Counts the numbers of every range. The percentage step divides by the
   * total, which fails when there are no numbers.
   */
  method RangeAnalysis(draws: seq<Draw>) returns (r: Result<RangeCounts>)
    ensures r.Err? <==> AllNumbers(draws) == []
    ensures r.Err? ==> r.error == DivisionByZero
    ensures r.Ok? ==> r.value.counts.Keys == AllBuckets
    ensures r.Ok? ==> forall b :: b in r.value.counts ==> r.value.counts[b] == BucketCount(AllNumbers(draws), b)
    ensures r.Ok? ==> r.value.total == |AllNumbers(draws)| && SumOverBuckets(r.value.counts) == r.value.total
  {
    var allNums := GetAllNumbers(draws);
    var ranges: map<Bucket, nat> := map[B1To10 := 0, B11To20 := 0, B21To30 := 0, B31To40 := 0, B41To45 := 0];
    assert allNums[..0] == [];
    for i := 0 to |allNums|
      invariant CountsOf(ranges, allNums[..i])
    {
      var n := allNums[i];
      // the key whose counter the source's if/elif chain increments
      var key :=
        if n <= 10 then B1To10
        else if n <= 20 then B11To20
        else if n <= 30 then B21To30
        else if n <= 40 then B31To40
        else B41To45;
      CountPrefixStep(ranges, allNums, i, key);
      ranges := ranges[key := ranges[key] + 1];
    }
    assert allNums[..|allNums|] == allNums;
    assert CountsOf(ranges, allNums);
    var total := |allNums|;
    if total == 0 {
      return Err(DivisionByZero);
    }
    return Ok(RangeCounts(ranges, total));
  }

  // ---------------------------------------------------------------------------
  // Odd/even balance
  // ---------------------------------------------------------------------------

  /** How many of `nums` are odd (`n % 2 == 1`, which Python also gives for negative odd n). */
  function OddCount(nums: seq<int>): (k: nat)
    ensures k <= |nums|
  {
    if nums == [] then 0
    else OddCount(nums[..|nums| - 1]) + (if nums[|nums| - 1] % 2 == 1 then 1 else 0)
  }

  /** Odd numbers are counted once each: the odd count is the size of the odd part. */
  lemma {:induction false} OddCountIsOddPart(nums: seq<int>)
    ensures OddCount(nums) == |multiset(nums)| - |multiset(EvenPart(nums))|
  {
    if nums != [] {
      var init := nums[..|nums| - 1];
      assert nums == init + [nums[|nums| - 1]];
      OddCountIsOddPart(init);
    }
  }

  /** The even members of `nums`, in order. */
  function EvenPart(nums: seq<int>): seq<int> {
    if nums == [] then []
    else EvenPart(nums[..|nums| - 1]) + (if nums[|nums| - 1] % 2 == 1 then [] else [nums[|nums| - 1]])
  }

  /** One row per draw: `{draw_no, odd, even}` with `even = 6 - odd`. */
  datatype ParityRow = ParityRow(drawNo: int, odd: int, even: int)

  /**
   * The rows, the sums of their odd and even counts (the averages divide these
   * by the number of draws), and the combination table.
   */
  datatype OddEvenStats = OddEvenStats(rows: seq<ParityRow>, oddSum: int, evenSum: int, combos: seq<Tally>)

  function OddSum(rows: seq<ParityRow>): int {
    if rows == [] then 0 else OddSum(rows[..|rows| - 1]) + rows[|rows| - 1].odd
  }

  function EvenSum(rows: seq<ParityRow>): int {
    if rows == [] then 0 else EvenSum(rows[..|rows| - 1]) + rows[|rows| - 1].even
  }

  /** Every row holds six numbers split into odd and even, so the sums add up to six per row. */
  lemma {:induction false} ParitySums(rows: seq<ParityRow>)
    requires forall i :: 0 <= i < |rows| ==> rows[i].odd + rows[i].even == NumbersPerDraw
    ensures OddSum(rows) + EvenSum(rows) == NumbersPerDraw * |rows|
  {
    if rows != [] {
      ParitySums(rows[..|rows| - 1]);
    }
  }

  function OddsOf(rows: seq<ParityRow>): (odds: seq<int>)
    ensures |odds| == |rows|
    ensures forall i :: 0 <= i < |rows| ==> odds[i] == rows[i].odd
  {
    seq(|rows|, i requires 0 <= i < |rows| => rows[i].odd)
  }

  // Python's `Counter`: one entry per distinct key, in first-seen order.

  /** Set of the keys of a tally list. */
  function Items(ts: seq<Tally>): set<int> {
    set t | t in ts :: t.item
  }

  /** The count recorded for `k`, or 0. */
  function CountOf(ts: seq<Tally>, k: int): nat {
    if ts == [] then 0 else if ts[0].item == k then ts[0].count else CountOf(ts[1..], k)
  }

  function TotalCount(ts: seq<Tally>): nat {
    if ts == [] then 0 else ts[0].count + TotalCount(ts[1..])
  }

  /** Counts one more `k`: increments its entry, or appends a new one. */
  function Bump(ts: seq<Tally>, k: int): seq<Tally> {
    if ts == [] then [Tally(k, 1)]
    else if ts[0].item == k then [Tally(k, ts[0].count + 1)] + ts[1..]
    else [ts[0]] + Bump(ts[1..], k)
  }

  function Counter(keys: seq<int>): (tally: seq<Tally>)
    ensures KeysUnique(tally, Item)
    ensures Items(tally) == set k | k in keys
    ensures TotalCount(tally) == |keys|
  {
    if keys == [] then
      assert Items([]) == {};
      []
    else
      var init, k := keys[..|keys| - 1], keys[|keys| - 1];
      var prev := Counter(init);
      BumpDistinct(prev, k);
      BumpItems(prev, k);
      BumpTotal(prev, k);
      assert keys == init + [k];
      assert (set x | x in keys) == (set x | x in init) + {k};
      Bump(prev, k)
  }

  lemma ItemsCons(t: Tally, ts: seq<Tally>)
    ensures Items([t] + ts) == {t.item} + Items(ts)
  {
    assert forall u :: u in [t] + ts <==> u == t || u in ts;
  }

  lemma {:induction false} BumpItems(ts: seq<Tally>, k: int)
    ensures Items(Bump(ts, k)) == Items(ts) + {k}
  {
    if ts != [] {
      assert ts == [ts[0]] + ts[1..];
      ItemsCons(ts[0], ts[1..]);
      if ts[0].item == k {
        ItemsCons(Tally(k, ts[0].count + 1), ts[1..]);
      } else {
        BumpItems(ts[1..], k);
        ItemsCons(ts[0], Bump(ts[1..], k));
      }
    }
  }

  lemma {:induction false} BumpCount(ts: seq<Tally>, k: int, j: int)
    ensures CountOf(Bump(ts, k), j) == CountOf(ts, j) + (if j == k then 1 else 0)
  {
    if ts != [] && ts[0].item != k {
      BumpCount(ts[1..], k, j);
    }
  }

  lemma {:induction false} BumpTotal(ts: seq<Tally>, k: int)
    ensures TotalCount(Bump(ts, k)) == TotalCount(ts) + 1
  {
    if ts != [] && ts[0].item != k {
      BumpTotal(ts[1..], k);
    }
  }

  lemma {:induction false} BumpDistinct(ts: seq<Tally>, k: int)
    requires KeysUnique(ts, Item)
    ensures KeysUnique(Bump(ts, k), Item)
  {
    if ts != [] {
      var r := Bump(ts, k);
      if ts[0].item == k {
        assert forall i :: 0 <= i < |r| ==> r[i].item == ts[i].item;
      } else {
        var rest := Bump(ts[1..], k);
        BumpDistinct(ts[1..], k);
        BumpItems(ts[1..], k);
        assert ts[0].item !in Items(ts[1..]) by {
          forall t | t in ts[1..] ensures t.item != ts[0].item {
            var j :| 0 <= j < |ts[1..]| && ts[1..][j] == t;
            assert ts[j + 1] == t;
          }
        }
        forall i, j | 0 <= i < j < |r| ensures r[i].item != r[j].item {
          if i == 0 {
            assert r[j] == rest[j - 1];
            assert r[j].item in Items(rest);
          } else {
            assert r[i] == rest[i - 1] && r[j] == rest[j - 1];
          }
        }
      }
    }
  }

  lemma {:induction false} CounterCounts(keys: seq<int>, j: int)
    ensures CountOf(Counter(keys), j) == multiset(keys)[j]
  {
    if keys != [] {
      var init, k := keys[..|keys| - 1], keys[|keys| - 1];
      CounterCounts(init, j);
      BumpCount(Counter(init), k, j);
      assert keys == init + [k];
      assert multiset(keys) == multiset(init) + multiset{k};
    }
  }

  /** The tally of `keys` records each key's multiplicity and sums to the number of keys. */
  lemma CounterSpec(keys: seq<int>)
    ensures KeysUnique(Counter(keys), Item)
    ensures Items(Counter(keys)) == set k | k in keys
    ensures forall j :: CountOf(Counter(keys), j) == multiset(keys)[j]
    ensures TotalCount(Counter(keys)) == |keys|
  {
    forall j ensures CountOf(Counter(keys), j) == multiset(keys)[j] {
      CounterCounts(keys, j);
    }
  }

  /** In a list with distinct keys, an entry's count is the one recorded for its key. */
  lemma {:induction false} CountOfMember(ts: seq<Tally>, t: Tally)
    requires KeysUnique(ts, Item)
    requires t in ts
    ensures t.count == CountOf(ts, t.item)
  {
    if ts[0] != t {
      assert ts[0].item != t.item by {
        var j :| 0 <= j < |ts| && ts[j] == t;
      }
      CountOfMember(ts[1..], t);
    }
  }

  lemma {:induction false} TotalCountAppend(a: seq<Tally>, b: seq<Tally>)
    ensures TotalCount(a + b) == TotalCount(a) + TotalCount(b)
  {
    if a != [] {
      assert (a + b)[1..] == a[1..] + b;
      TotalCountAppend(a[1..], b);
    } else {
      assert a + b == b;
    }
  }

  lemma TotalCountSingle(t: Tally)
    ensures TotalCount([t]) == t.count
  {
    assert [t][1..] == [];
  }

  lemma {:induction false} TotalCountInsert(s: seq<Tally>, x: Tally)
    ensures TotalCount(Insert(s, x, NegCount)) == TotalCount(s) + x.count
  {
    if s == [] {
      TotalCountSingle(x);
    } else {
      var init, last := s[..|s| - 1], s[|s| - 1];
      assert s == init + [last];
      TotalCountAppend(init, [last]);
      TotalCountSingle(last);
      if NegCount(x) < NegCount(last) {
        TotalCountInsert(init, x);
        TotalCountAppend(Insert(init, x, NegCount), [last]);
      } else {
        TotalCountAppend(s, [x]);
        TotalCountSingle(x);
      }
    }
  }

  lemma TotalCountSnoc(s: seq<Tally>)
    requires s != []
    ensures TotalCount(s) == TotalCount(s[..|s| - 1]) + s[|s| - 1].count
  {
    assert s == s[..|s| - 1] + [s[|s| - 1]];
    TotalCountAppend(s[..|s| - 1], [s[|s| - 1]]);
    TotalCountSingle(s[|s| - 1]);
  }

  /** Re-ordering the tally keeps its total. */
  lemma {:induction false} TotalCountSorted(s: seq<Tally>)
    ensures TotalCount(SortBy(s, NegCount)) == TotalCount(s)
  {
    if s != [] {
      var init, last := s[..|s| - 1], s[|s| - 1];
      TotalCountSorted(init);
      TotalCountInsert(SortBy(init, NegCount), last);
      TotalCountSnoc(s);
    }
  }

  /**
   * `sorted(Counter(keys).items(), key=count, reverse=True)`: the combination
   * table, most frequent first.
   */
  function ComboTable(keys: seq<int>): (combos: seq<Tally>)
    ensures multiset(combos) == multiset(Counter(keys))
    ensures forall i, j :: 0 <= i < j < |combos| ==> combos[i].count >= combos[j].count
  {
    var combos := SortBy(Counter(keys), NegCount);
    assert forall i, j :: 0 <= i < j < |combos| ==> NegCount(combos[i]) <= NegCount(combos[j]);
    combos
  }

  /**
   * One entry per distinct key, holding how many times it occurs; the counts
   * add up to the number of keys and never increase along the table.
   */
  lemma ComboTableSpec(keys: seq<int>)
    ensures KeysUnique(ComboTable(keys), Item)
    ensures Items(ComboTable(keys)) == set k | k in keys
    ensures forall t :: t in ComboTable(keys) ==> t.count == multiset(keys)[t.item]
    ensures TotalCount(ComboTable(keys)) == |keys|
    ensures forall i, j :: 0 <= i < j < |ComboTable(keys)| ==> ComboTable(keys)[i].count >= ComboTable(keys)[j].count
  {
    var tally := Counter(keys);
    var combos := ComboTable(keys);
    CounterSpec(keys);
    SameElements(combos, tally);
    TotalCountSorted(tally);
    KeysUniquePermutation(tally, combos, Item);
    forall t | t in combos ensures t.count == multiset(keys)[t.item] {
      CountOfMember(tally, t);
    }
    assert Items(combos) == Items(tally);
    assert SortedBy(combos, NegCount);
  }

  /** Where `k` first occurs in `keys`; `|keys|` when it does not. */
  function FirstIndex(keys: seq<int>, k: int): (i: nat)
    ensures i <= |keys|
    ensures i < |keys| ==> keys[i] == k
    ensures forall j :: 0 <= j < i ==> keys[j] != k
  {
    if keys == [] then 0 else if keys[0] == k then 0 else 1 + FirstIndex(keys[1..], k)
  }

  /** The entries of `ts` appear in the order their keys were first seen in `keys`. */
  ghost predicate FirstSeenOrder(ts: seq<Tally>, keys: seq<int>) {
    forall i, j :: 0 <= i < j < |ts| ==> FirstIndex(keys, ts[i].item) < FirstIndex(keys, ts[j].item)
  }

  /** Bumping a key already present changes counts only, never the keys or their places. */
  lemma {:induction false} BumpPresent(ts: seq<Tally>, k: int)
    requires k in Items(ts)
    ensures |Bump(ts, k)| == |ts|
    ensures forall i :: 0 <= i < |ts| ==> Bump(ts, k)[i].item == ts[i].item
  {
    if ts[0].item != k {
      ItemsCons(ts[0], ts[1..]);
      assert ts == [ts[0]] + ts[1..];
      BumpPresent(ts[1..], k);
    }
  }

  /** Bumping a new key appends it. */
  lemma {:induction false} BumpAbsent(ts: seq<Tally>, k: int)
    requires k !in Items(ts)
    ensures Bump(ts, k) == ts + [Tally(k, 1)]
  {
    if ts != [] {
      ItemsCons(ts[0], ts[1..]);
      assert ts == [ts[0]] + ts[1..];
      BumpAbsent(ts[1..], k);
    }
  }

  /** A key seen in a prefix was first seen at the same place in the whole. */
  lemma FirstIndexPrefix(init: seq<int>, last: int, k: int)
    requires k in init
    ensures FirstIndex(init + [last], k) == FirstIndex(init, k) < |init|
  {
    var i0 := FirstIndex(init, k);
    var keys := init + [last];
    assert keys[i0] == k;
  }

  /** `Counter` lists its keys in first-seen order. */
  lemma {:induction false} CounterFirstSeen(keys: seq<int>)
    ensures FirstSeenOrder(Counter(keys), keys)
  {
    if keys != [] {
      var init := keys[..|keys| - 1];
      var last := keys[|keys| - 1];
      assert keys == init + [last];
      var tally := Counter(init);
      CounterFirstSeen(init);
      CounterSpec(init);
      forall t | t in tally ensures FirstIndex(keys, t.item) == FirstIndex(init, t.item) < |init| {
        assert t.item in Items(tally);
        FirstIndexPrefix(init, last, t.item);
      }
      var r := Counter(keys);
      if last in Items(tally) {
        BumpPresent(tally, last);
        forall i, j | 0 <= i < j < |r| ensures FirstIndex(keys, r[i].item) < FirstIndex(keys, r[j].item) {
          assert tally[i] in tally && tally[j] in tally;
        }
      } else {
        BumpAbsent(tally, last);
        assert last !in init;
        forall i, j | 0 <= i < j < |r| ensures FirstIndex(keys, r[i].item) < FirstIndex(keys, r[j].item) {
          assert r[i] == tally[i];
          assert tally[i] in tally;
          if j < |tally| {
            assert r[j] == tally[j] && tally[j] in tally;
          }
        }
      }
    }
  }

  /** Combinations drawn equally often stay in the order they first appeared. */
  lemma ComboTableTies(keys: seq<int>)
    ensures forall i, j :: 0 <= i < j < |ComboTable(keys)| && ComboTable(keys)[i].count == ComboTable(keys)[j].count ==>
      FirstIndex(keys, ComboTable(keys)[i].item) < FirstIndex(keys, ComboTable(keys)[j].item)
  {
    var rank := (t: Tally) => FirstIndex(keys, t.item);
    CounterFirstSeen(keys);
    assert StrictlyRanked(Counter(keys), rank);
    SortByStable(Counter(keys), NegCount, rank);
  }

  /**
   * Per draw, the odd count and `6 - odd`; then the combinations by how many
   * draws have them, most frequent first.
   */
  method OddEvenAnalysis(draws: seq<Draw>) returns (stats: OddEvenStats)
    ensures |stats.rows| == |draws|
    ensures forall i :: 0 <= i < |draws| ==>
      && stats.rows[i].drawNo == draws[i].drawNo
      && stats.rows[i].odd == OddCount(draws[i].numbers)
      && stats.rows[i].odd + stats.rows[i].even == NumbersPerDraw
    ensures forall i :: 0 <= i < |draws| && |draws[i].numbers| == NumbersPerDraw ==>
      0 <= stats.rows[i].odd <= NumbersPerDraw && 0 <= stats.rows[i].even <= NumbersPerDraw
    ensures stats.oddSum == OddSum(stats.rows) && stats.evenSum == EvenSum(stats.rows)
    ensures stats.oddSum + stats.evenSum == NumbersPerDraw * |draws|
    ensures Items(stats.combos) == set k | k in OddsOf(stats.rows)
    ensures KeysUnique(stats.combos, Item)
    ensures forall i :: 0 <= i < |draws| ==> stats.rows[i].odd in Items(stats.combos)
    ensures forall t :: t in stats.combos ==> t.count == multiset(OddsOf(stats.rows))[t.item]
    ensures TotalCount(stats.combos) == |draws|
    ensures forall i, j :: 0 <= i < j < |stats.combos| ==> stats.combos[i].count >= stats.combos[j].count
    ensures forall i, j :: 0 <= i < j < |stats.combos| && stats.combos[i].count == stats.combos[j].count ==>
      FirstIndex(OddsOf(stats.rows), stats.combos[i].item) < FirstIndex(OddsOf(stats.rows), stats.combos[j].item)
  {
    var rows: seq<ParityRow> := [];
    for i := 0 to |draws|
      invariant |rows| == i
      invariant forall k :: 0 <= k < i ==>
        rows[k] == ParityRow(draws[k].drawNo, OddCount(draws[k].numbers), NumbersPerDraw - OddCount(draws[k].numbers))
    {
      var odds := OddCount(draws[i].numbers);
      var evens := NumbersPerDraw - odds;
      rows := rows + [ParityRow(draws[i].drawNo, odds, evens)];
    }
    ParitySums(rows);
    var odds := OddsOf(rows);
    ComboTableSpec(odds);
    ComboTableTies(odds);
    forall i | 0 <= i < |draws| ensures rows[i].odd in Items(ComboTable(odds)) {
      assert odds[i] in odds;
    }
    stats := OddEvenStats(rows, OddSum(rows), EvenSum(rows), ComboTable(odds));
  }

  // ---------------------------------------------------------------------------
  // Consecutive numbers
  // ---------------------------------------------------------------------------

  /** Two neighbours in the list differ by exactly one. */
  predicate HasStep(nums: seq<int>) {
    exists i :: 0 <= i < |nums| - 1 && nums[i + 1] - nums[i] == 1
  }

  /** Number of draws whose sorted numbers contain a consecutive pair. */
  function ConsecutiveCount(draws: seq<Draw>): nat {
    if draws == [] then 0
    else ConsecutiveCount(draws[..|draws| - 1]) + (if HasStep(SortInts(draws[|draws| - 1].numbers)) then 1 else 0)
  }

  datatype ConsecutiveStats = ConsecutiveStats(consecutiveDraws: nat, totalDraws: nat)

  /**
   * Sorts each draw's numbers and scans neighbours, counting the draw once at
   * its first consecutive pair.
   */
  method ConsecutiveAnalysis(draws: seq<Draw>) returns (stats: ConsecutiveStats)
    ensures stats.consecutiveDraws == ConsecutiveCount(draws)
    ensures stats.totalDraws == |draws|
    ensures stats.consecutiveDraws <= stats.totalDraws
    ensures |draws| == 0 ==> stats.consecutiveDraws == 0
  {
    var hasConsecutive: nat := 0;
    for k := 0 to |draws|
      invariant hasConsecutive == ConsecutiveCount(draws[..k])
      invariant hasConsecutive <= k
    {
      assert draws[..k + 1][..k] == draws[..k];
      var nums := SortInts(draws[k].numbers);
      var found := ScanForStep(nums);
      if found {
        hasConsecutive := hasConsecutive + 1;
      }
    }
    assert draws[..|draws|] == draws;
    stats := ConsecutiveStats(hasConsecutive, |draws|);
  }

  /** The inner scan: stops at the first pair of neighbours that differ by one. */
  method ScanForStep(nums: seq<int>) returns (found: bool)
    ensures found <==> HasStep(nums)
  {
    var i := 0;
    while i < |nums| - 1
      invariant 0 <= i <= if |nums| == 0 then 0 else |nums| - 1
      invariant forall j :: 0 <= j < i ==> nums[j + 1] - nums[j] != 1
    {
      if nums[i + 1] - nums[i] == 1 {
        return true;
      }
      i := i + 1;
    }
    return false;
  }

  /** A step between sorted neighbours exists exactly when some `x` and `x + 1` are both drawn. */
  lemma HasStepIffNeighbours(xs: seq<int>)
    ensures HasStep(SortInts(xs)) <==> exists x :: x in xs && x + 1 in xs
  {
    if exists x :: x in xs && x + 1 in xs {
      var x :| x in xs && x + 1 in xs;
      NeighboursGiveStep(xs, x);
    }
    if HasStep(SortInts(xs)) {
      StepGivesNeighbours(xs, SortInts(xs));
    }
  }

  lemma NeighboursGiveStep(xs: seq<int>, x: int)
    requires x in xs && x + 1 in xs
    ensures HasStep(SortInts(xs))
  {
    var s := SortInts(xs);
    assert x in multiset(s) && x + 1 in multiset(s);
    var i :| 0 <= i < |s| && s[i] == x;
    var j :| 0 <= j < |s| && s[j] == x + 1;
    StepBetween(s, i, j);
  }

  lemma StepGivesNeighbours(xs: seq<int>, s: seq<int>)
    requires multiset(s) == multiset(xs) && HasStep(s)
    ensures exists x :: x in xs && x + 1 in xs
  {
    var i :| 0 <= i < |s| - 1 && s[i + 1] - s[i] == 1;
    assert s[i] in multiset(xs) && s[i + 1] in multiset(xs);
    assert s[i] in xs && s[i] + 1 in xs;
  }

  lemma {:induction false} StepBetween(s: seq<int>, i: nat, j: nat)
    requires forall a, b :: 0 <= a < b < |s| ==> s[a] <= s[b]
    requires i < |s| && j < |s| && s[j] == s[i] + 1
    ensures HasStep(s)
    decreases j - i
  {
    if s[i + 1] == s[i] + 1 {
      assert s[i + 1] - s[i] == 1;
    } else {
      StepBetween(s, i + 1, j);
    }
  }

  // ---------------------------------------------------------------------------
  // Sums
  // ---------------------------------------------------------------------------

  function SeqSum(s: seq<int>): int {
    if s == [] then 0 else SeqSum(s[..|s| - 1]) + s[|s| - 1]
  }

  /** `[sum(d['numbers']) for d in draws]` */
  function DrawSums(draws: seq<Draw>): (sums: seq<int>)
    ensures |sums| == |draws|
    ensures forall i :: 0 <= i < |draws| ==> sums[i] == SeqSum(draws[i].numbers)
  {
    seq(|draws|, i requires 0 <= i < |draws| => SeqSum(draws[i].numbers))
  }

  function MinOf(s: seq<int>): (m: int)
    requires s != []
    ensures m in s && forall x :: x in s ==> m <= x
  {
    if |s| == 1 then s[0]
    else
      var rest := MinOf(s[1..]);
      assert forall x :: x in s ==> x == s[0] || x in s[1..];
      if s[0] <= rest then s[0] else rest
  }

  function MaxOf(s: seq<int>): (m: int)
    requires s != []
    ensures m in s && forall x :: x in s ==> x <= m
  {
    if |s| == 1 then s[0]
    else
      var rest := MaxOf(s[1..]);
      assert forall x :: x in s ==> x == s[0] || x in s[1..];
      if s[0] >= rest then s[0] else rest
  }

  /** The integer parts of the sum statistics: the total (the mean is total / |draws|), min and max. */
  datatype SumStats = SumStats(total: int, min: int, max: int)

  /** numpy's min and max of an empty array raise, so empty input is an error. */
  function SumAnalysis(draws: seq<Draw>): (r: Result<SumStats>)
    ensures r.Err? <==> draws == []
    ensures r.Err? ==> r.error == EmptySequence
    ensures r.Ok? ==> forall i :: 0 <= i < |draws| ==>
      r.value.min <= SeqSum(draws[i].numbers) <= r.value.max
    ensures r.Ok? ==> exists i :: 0 <= i < |draws| && r.value.min == SeqSum(draws[i].numbers)
    ensures r.Ok? ==> exists i :: 0 <= i < |draws| && r.value.max == SeqSum(draws[i].numbers)
    ensures r.Ok? ==> r.value.total == SeqSum(DrawSums(draws))
  {
    var sums := DrawSums(draws);
    if sums == [] then Err(EmptySequence)
    else
      var lo := MinOf(sums);
      var hi := MaxOf(sums);
      var i :| 0 <= i < |sums| && sums[i] == lo;
      var j :| 0 <= j < |sums| && sums[j] == hi;
      assert forall k :: 0 <= k < |sums| ==> sums[k] in sums;
      Ok(SumStats(SeqSum(sums), lo, hi))
  }

  lemma {:induction false} SumBetweenBounds(s: seq<int>, lo: int, hi: int)
    requires forall x :: x in s ==> lo <= x <= hi
    ensures lo * |s| <= SeqSum(s) <= hi * |s|
  {
    if s != [] {
      var init, last := s[..|s| - 1], s[|s| - 1];
      assert forall x :: x in init ==> x in s;
      SumBetweenBounds(init, lo, hi);
      assert last in s;
      assert SeqSum(s) == SeqSum(init) + last;
      assert lo * |s| == lo * |init| + lo;
      assert hi * |s| == hi * |init| + hi;
    }
  }

  /** The mean lies between the minimum and the maximum: min·n ≤ total ≤ max·n. */
  lemma MeanWithinRange(draws: seq<Draw>)
    requires draws != []
    ensures SumAnalysis(draws).Ok?
    ensures var st := SumAnalysis(draws).value;
      st.min * |draws| <= st.total <= st.max * |draws|
  {
    var sums := DrawSums(draws);
    SumBetweenBounds(sums, MinOf(sums), MaxOf(sums));
  }
}
