/**
 * The draw fetcher: the current draw number derived from the calendar, the
 * conversion of a mirror record into the internal draw record, the
 * de-duplication of a full download, and the merge of the newest draw into
 * the cache. Downloads, the cache file and the clock are not modelled; their
 * values are parameters.
 */
module LottoData {
  import opened Draws
  import opened Sorting

  /**
   * `get_latest_draw_number`: draws are weekly from the first draw date, so
   * `days` whole days after it the current draw is `days // 7 + 1`. Python's
   * `//` floors; for the positive divisor 7 Dafny's `/` agrees with it.
   */
  function LatestDrawNumber(days: int): (n: int)
    ensures 7 * (n - 1) <= days < 7 * n
    ensures days >= 0 ==> n >= 1
  {
    days / 7 + 1
  }

  /** The draw held `7 * (k - 1)` days after the first is draw `k`, and it stays current for a week. */
  lemma LatestDrawOnItsDay(k: int, d: int)
    requires 0 <= d < 7
    ensures LatestDrawNumber(7 * (k - 1) + d) == k
  {
  }

  /** A later day never gives an earlier draw. */
  lemma LatestDrawMonotone(days1: int, days2: int)
    requires days1 <= days2
    ensures LatestDrawNumber(days1) <= LatestDrawNumber(days2)
  {
  }

  /** One prize tier of a mirror record; a missing field is `None`. */
  datatype Division = Division(prize: Option<int>, winners: Option<int>)

  /**
   * A record as the mirror serves it. `date` and `divisions` are `None` when
   * the key is absent (a `divisions` of JSON null reads the same). The draw
   * number, numbers and bonus are always present.
   */
  datatype RawItem = RawItem(
    drawNo: int,
    date: Option<string>,
    numbers: seq<int>,
    bonusNo: int,
    divisions: Option<seq<Division>>)

  /** `s.split('T')[0]`: everything before the first `T`. */
  function BeforeT(s: string): (r: string)
    ensures 'T' !in r
    ensures 'T' in s ==> |r| < |s| && s[..|r|] == r && s[|r|] == 'T'
    ensures 'T' !in s ==> r == s
  {
    if s == [] then []
    else if s[0] == 'T' then []
    else [s[0]] + BeforeT(s[1..])
  }

  /** `_convert_smok95_format` */
  function ConvertRecord(item: RawItem): (d: Draw)
    ensures d.drawNo == item.drawNo && d.bonus == item.bonusNo
    ensures forall i, j :: 0 <= i < j < |d.numbers| ==> d.numbers[i] <= d.numbers[j]
    ensures multiset(d.numbers) == multiset(item.numbers)
    ensures 'T' !in d.date
    ensures d.date <= item.date.GetOr("")
    ensures 'T' !in item.date.GetOr("") ==> d.date == item.date.GetOr("")
    ensures d.date == BeforeT(item.date.GetOr(""))
    ensures (item.divisions.None? || item.divisions.value == []) ==> d.prize1st == 0 && d.winners1st == 0
  {
    var divisions := item.divisions.GetOr([]);
    var prize1st := if divisions != [] then divisions[0].prize.GetOr(0) else 0;
    var winners1st := if divisions != [] then divisions[0].winners.GetOr(0) else 0;
    var date := item.date.GetOr("");
    var date := if 'T' in date then BeforeT(date) else date;
    Draw(item.drawNo, date, SortInts(item.numbers), item.bonusNo, prize1st, winners1st)
  }

  /** The first-tier figures are the first division's, each 0 where the field is missing. */
  lemma ConvertFirstDivision(item: RawItem)
    requires item.divisions.Some? && item.divisions.value != []
    ensures ConvertRecord(item).prize1st == item.divisions.value[0].prize.GetOr(0)
    ensures ConvertRecord(item).winners1st == item.divisions.value[0].winners.GetOr(0)
  {
  }

  /** A well-formed mirror record converts into a well-formed draw, its numbers ascending. */
  lemma ConvertKeepsWellFormed(item: RawItem)
    requires |item.numbers| == NumbersPerDraw && Distinct(item.numbers)
    requires forall x :: x in item.numbers ==> InPool(x)
    requires InPool(item.bonusNo) && item.bonusNo !in item.numbers
    ensures WellFormed(ConvertRecord(item))
    ensures forall i, j :: 0 <= i < j < NumbersPerDraw ==> ConvertRecord(item).numbers[i] < ConvertRecord(item).numbers[j]
  {
    var nums := ConvertRecord(item).numbers;
    SameElements(nums, item.numbers);
    forall i, j | 0 <= i < j < |nums| ensures nums[i] != nums[j] {
      if nums[i] == nums[j] {
        RepeatedElement(nums, i, j);
        DistinctMultiplicity(item.numbers, nums[i]);
      }
    }
  }

  /** The draw numbers occurring in `s`. */
  function DrawNos(s: seq<Draw>): set<int> {
    set d | d in s :: d.drawNo
  }

  lemma DrawNosAppend(s: seq<Draw>, d: Draw)
    ensures DrawNos(s + [d]) == DrawNos(s) + {d.drawNo}
  {
    assert forall e :: e in s + [d] <==> e in s || e == d;
  }

  lemma DrawNosPermutation(a: seq<Draw>, b: seq<Draw>)
    requires multiset(a) == multiset(b)
    ensures DrawNos(a) == DrawNos(b)
  {
    SameElements(a, b);
  }

  /** The records of `s` whose draw number did not occur earlier in `s`, in order. */
  function FirstOccurrences(s: seq<Draw>): (r: seq<Draw>)
    ensures DrawNos(r) == DrawNos(s)
    ensures KeysUnique(r, DrawNo)
  {
    if s == [] then []
    else
      var init := s[..|s| - 1];
      var last := s[|s| - 1];
      assert s == init + [last];
      DrawNosAppend(init, last);
      var kept := FirstOccurrences(init);
      if last.drawNo in DrawNos(init) then kept
      else
        DrawNosAppend(kept, last);
        assert forall i :: 0 <= i < |kept| ==> kept[i].drawNo in DrawNos(kept);
        kept + [last]
  }

  /** `d` is in `s`, and no record before it carries its draw number. */
  ghost predicate IsFirstOccurrence(s: seq<Draw>, d: Draw) {
    exists j :: 0 <= j < |s| && s[j] == d && forall k :: 0 <= k < j ==> s[k].drawNo != d.drawNo
  }

  lemma FirstOccurrenceExtend(s: seq<Draw>, x: Draw, d: Draw)
    requires IsFirstOccurrence(s, d)
    ensures IsFirstOccurrence(s + [x], d)
  {
    var j :| 0 <= j < |s| && s[j] == d && forall k :: 0 <= k < j ==> s[k].drawNo != d.drawNo;
    assert (s + [x])[j] == d;
    assert forall k :: 0 <= k < j ==> (s + [x])[k] == s[k];
  }

  lemma FirstOccurrenceNew(s: seq<Draw>, d: Draw)
    requires d.drawNo !in DrawNos(s)
    ensures IsFirstOccurrence(s + [d], d)
  {
    forall k | 0 <= k < |s| ensures (s + [d])[k].drawNo != d.drawNo {
      assert s[k] in s;
    }
    assert (s + [d])[|s|] == d;
  }

  lemma {:induction false} FirstOccurrencesAreFirst(s: seq<Draw>)
    ensures forall d :: d in FirstOccurrences(s) ==> IsFirstOccurrence(s, d)
  {
    if s != [] {
      var init, last := s[..|s| - 1], s[|s| - 1];
      assert s == init + [last];
      FirstOccurrencesAreFirst(init);
      forall d | d in FirstOccurrences(s) ensures IsFirstOccurrence(s, d) {
        if d in FirstOccurrences(init) {
          FirstOccurrenceExtend(init, last, d);
        } else {
          FirstOccurrenceNew(init, last);
        }
      }
    }
  }

  /** Ascending by draw number, no number twice. */
  ghost predicate StrictlyAscending(s: seq<Draw>) {
    forall i, j :: 0 <= i < j < |s| ==> s[i].drawNo < s[j].drawNo
  }

  lemma SortedUniqueAscending(s: seq<Draw>)
    requires SortedBy(s, DrawNo) && KeysUnique(s, DrawNo)
    ensures StrictlyAscending(s)
  {
    forall i, j | 0 <= i < j < |s| ensures s[i].drawNo < s[j].drawNo {
      assert DrawNo(s[i]) <= DrawNo(s[j]) && DrawNo(s[i]) != DrawNo(s[j]);
    }
  }

  /**
   * The de-duplication of a full download: keeps the first record of every
   * draw number, then sorts by draw number.
   */
  method Deduplicate(converted: seq<Draw>) returns (result: seq<Draw>)
    ensures result == SortBy(FirstOccurrences(converted), DrawNo)
    ensures DrawNos(result) == DrawNos(converted)
    ensures StrictlyAscending(result)
    ensures forall d :: d in result ==> IsFirstOccurrence(converted, d)
  {
    var seen: set<int> := {};
    result := [];
    for i := 0 to |converted|
      invariant seen == DrawNos(converted[..i])
      invariant result == FirstOccurrences(converted[..i])
    {
      var item := converted[i];
      FirstOccurrencesStep(converted, i);
      if item.drawNo !in seen {
        seen := seen + {item.drawNo};
        result := result + [item];
      }
    }
    assert converted[..|converted|] == converted;
    result := SortBy(result, DrawNo);
    SortedFirstOccurrences(converted);
  }

  /** One more record: its number is now seen, and it is kept iff the number is new. */
  lemma FirstOccurrencesStep(s: seq<Draw>, i: int)
    requires 0 <= i < |s|
    ensures DrawNos(s[..i + 1]) == DrawNos(s[..i]) + {s[i].drawNo}
    ensures FirstOccurrences(s[..i + 1]) ==
      if s[i].drawNo in DrawNos(s[..i]) then FirstOccurrences(s[..i]) else FirstOccurrences(s[..i]) + [s[i]]
  {
    var p := s[..i + 1];
    assert p[..i] == s[..i] && p[i] == s[i];
    assert p == s[..i] + [s[i]];
    DrawNosAppend(s[..i], s[i]);
  }

  /** The sorted first occurrences: all draw numbers, strictly ascending, each record the first with its number. */
  lemma SortedFirstOccurrences(s: seq<Draw>)
    ensures DrawNos(SortBy(FirstOccurrences(s), DrawNo)) == DrawNos(s)
    ensures StrictlyAscending(SortBy(FirstOccurrences(s), DrawNo))
    ensures forall d :: d in SortBy(FirstOccurrences(s), DrawNo) ==> IsFirstOccurrence(s, d)
  {
    var kept := FirstOccurrences(s);
    var sorted := SortBy(kept, DrawNo);
    DrawNosPermutation(kept, sorted);
    KeysUniquePermutation(kept, sorted, DrawNo);
    SortedUniqueAscending(sorted);
    FirstOccurrencesAreFirst(s);
    SameElements(sorted, kept);
  }

  /** The conversion of every downloaded record, in download order. */
  function ConvertAll(raw: seq<RawItem>): (converted: seq<Draw>)
    ensures |converted| == |raw|
    ensures forall i :: 0 <= i < |raw| ==> converted[i] == ConvertRecord(raw[i])
  {
    seq(|raw|, i requires 0 <= i < |raw| => ConvertRecord(raw[i]))
  }

  /** `d` is the conversion of a record, and no record before that one carries its draw number. */
  ghost predicate IsFirstConversion(raw: seq<RawItem>, d: Draw) {
    exists j :: 0 <= j < |raw| && d == ConvertRecord(raw[j]) && forall k :: 0 <= k < j ==> raw[k].drawNo != d.drawNo
  }

  /**
   * A full download: every record converted, one per draw number, ascending.
   * Each kept draw is the conversion of the first record carrying its number.
   */
  method FetchAll(raw: seq<RawItem>) returns (result: seq<Draw>)
    ensures DrawNos(result) == set item | item in raw :: item.drawNo
    ensures StrictlyAscending(result)
    ensures forall d :: d in result ==> IsFirstConversion(raw, d)
  {
    var converted := ConvertAll(raw);
    result := Deduplicate(converted);
    forall d | d in result ensures IsFirstConversion(raw, d) {
      FirstOccurrenceConverted(raw, d);
    }
    ConvertAllDrawNos(raw);
  }

  lemma FirstOccurrenceConverted(raw: seq<RawItem>, d: Draw)
    requires IsFirstOccurrence(ConvertAll(raw), d)
    ensures IsFirstConversion(raw, d)
  {
    var converted := ConvertAll(raw);
    var j :| 0 <= j < |converted| && converted[j] == d && forall k :: 0 <= k < j ==> converted[k].drawNo != d.drawNo;
    assert forall k :: 0 <= k < j ==> raw[k].drawNo == converted[k].drawNo;
  }

  /** Conversion keeps every draw number. */
  lemma ConvertAllDrawNos(raw: seq<RawItem>)
    ensures DrawNos(ConvertAll(raw)) == set item | item in raw :: item.drawNo
  {
    var converted := ConvertAll(raw);
    forall x | x in DrawNos(converted) ensures exists i :: 0 <= i < |raw| && raw[i].drawNo == x {
      var d :| d in converted && d.drawNo == x;
      var i :| 0 <= i < |converted| && converted[i] == d;
      assert raw[i].drawNo == x;
    }
    forall i | 0 <= i < |raw| ensures raw[i].drawNo in DrawNos(converted) {
      assert converted[i] in converted;
    }
  }

  /** The merge of the newest draw into a cache: appended and re-sorted only when its number is new. */
  function MergeLatest(cached: seq<Draw>, latest: Draw): (merged: seq<Draw>)
    ensures DrawNos(merged) == DrawNos(cached) + {latest.drawNo}
    ensures latest.drawNo in DrawNos(cached) ==> merged == cached
    ensures latest.drawNo !in DrawNos(cached) ==>
      multiset(merged) == multiset(cached) + multiset{latest} && SortedBy(merged, DrawNo)
  {
    if latest.drawNo !in DrawNos(cached) then
      DrawNosAppend(cached, latest);
      DrawNosPermutation(cached + [latest], SortBy(cached + [latest], DrawNo));
      SortBy(cached + [latest], DrawNo)
    else
      cached
  }

  /** A cache without repeated draw numbers keeps none after the merge, and a new draw leaves it ascending. */
  lemma MergeKeepsUnique(cached: seq<Draw>, latest: Draw)
    requires KeysUnique(cached, DrawNo)
    ensures KeysUnique(MergeLatest(cached, latest), DrawNo)
    ensures latest.drawNo !in DrawNos(cached) ==> StrictlyAscending(MergeLatest(cached, latest))
  {
    if latest.drawNo !in DrawNos(cached) {
      var appended := cached + [latest];
      forall i, j | 0 <= i < j < |appended| ensures appended[i].drawNo != appended[j].drawNo {
        if j == |cached| {
          assert cached[i] in cached;
        }
      }
      assert KeysUnique(appended, DrawNo);
      KeysUniquePermutation(appended, MergeLatest(cached, latest), DrawNo);
      SortedUniqueAscending(MergeLatest(cached, latest));
    }
  }

  /** On an ascending cache, a draw newer than all cached ones is simply appended. */
  lemma MergeNewestAppends(cached: seq<Draw>, latest: Draw)
    requires SortedBy(cached, DrawNo)
    requires forall d :: d in cached ==> d.drawNo < latest.drawNo
    ensures MergeLatest(cached, latest) == cached + [latest]
  {
    assert latest.drawNo !in DrawNos(cached);
    var appended := cached + [latest];
    forall i, j | 0 <= i < j < |appended| ensures DrawNo(appended[i]) <= DrawNo(appended[j]) {
      if j == |cached| {
        assert cached[i] in cached;
      }
    }
    SortBySorted(appended, DrawNo);
  }

  /** Refreshing twice with the same newest draw changes nothing the second time. */
  lemma MergeIdempotent(cached: seq<Draw>, latest: Draw)
    ensures MergeLatest(MergeLatest(cached, latest), latest) == MergeLatest(cached, latest)
  {
  }
}
