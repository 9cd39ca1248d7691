# Lotto analytics — a Dafny model of the statistics and data core

The system is a small web service for Korea's 6/45 lottery. It downloads every weekly
draw (six main numbers from 1..45 plus a bonus number) from a public mirror and caches
them. It then computes statistics over the history: number frequencies, hot and cold
numbers, range buckets, odd/even combinations, consecutive pairs and per-draw sums. It
also suggests new number sets, balanced across the five ranges, and pages through the
draw list for the web client.

This project models that core in Dafny and proves what it promises:

- `draws.dfy` (`Draws`): the shared draw record, the pool constants, and `Result` and
  `Option`. Python exceptions become `Err` values.
- `sorting.dfy` (`Sorting`): Python's stable `sorted`/`list.sort` by an integer key,
  modelled as insertion sort. `reverse=True` is the same stable sort on the negated key.
  The module proves permutation, order and stability.
- `pyseq.dfy` (`PySeq`): Python slice semantics (negative bounds, clamping).
- `statistics.dfy` (`Statistics`): every statistic of `analysis.py`, on integer counts.
- `prediction.dfy` (`Prediction`): the range-balanced selection loop of
  `predict_numbers`.
- `lotto_data.dfy` (`LottoData`): the current draw number, record conversion,
  de-duplication of a download, and merging the newest draw into the cache.
- `app.dfy` (`DrawsApi`): newest-first listing, prefix search and pagination of
  `/api/draws`.

Code that loops in the source is modelled as methods with loop invariants. Each method's
postcondition either states the result outright or ties it to a function that specifies it
(`AllNumbers` for the flattening loop, `GreedyPick` for the selection loop of a prediction
round). Everything else is functions and lemmas.

Modelling decisions:

- **Randomness.** Each prediction round is determined by the ranking of 1..45 that its
  random weights produce. A round is therefore modelled by that ranking: any permutation
  of the pool (`Prediction.IsPoolOrder`).
- **Odd/even combinations.** The source keys them by the string `"odd:even"`, with
  `even = 6 - odd`. That string is a one-to-one function of the odd count, so the model
  keys combinations by the odd count.
- **Division by zero.** `range_analysis` on draws without numbers divides by zero.
  `/api/draws` with `per_page=0` does too. Both return `Err(DivisionByZero)`.
- **Empty sums.** numpy's `min`/`max` of an empty list raise, so `sum_analysis` on no
  draws returns `Err(EmptySequence)`.
- **Window of zero.** `recent_frequency(draws, 0)` reads `draws[-0:]`, which Python
  treats as the whole list. The model keeps that: a window of 0 counts every draw.
- **Clock and network.** `get_latest_draw_number` takes the number of days since the
  first draw as a parameter instead of reading the clock. Downloaded and cached records
  are parameters too.

## Model

| member | source | states |
|---|---|---|
| Statistics.GetAllNumbers | analysis.py:26-31 | the loop's result is every draw's main numbers concatenated in draw order (`AllNumbers`) |
| Statistics.AllNumbersAppend | analysis.py:26-31 | flattening distributes over concatenation of draw lists |
| Statistics.AllNumbersLength | analysis.py:26-31 | six numbers per draw give exactly `6 * len(draws)` numbers |
| Statistics.AllNumbersMembers | analysis.py:26-31 | a number is in the flattened list iff some draw has it among its main numbers |
| Statistics.AllNumbersOnlyMainNumbers | analysis.py:26-31 | the flattened list depends only on the main numbers (bonus, date and prizes are ignored) |
| Statistics.FrequencyAnalysis | analysis.py:34-38 | the table has an entry for exactly the numbers 1..45 |
| Statistics.FrequencySum | analysis.py:34-38 | over well-formed draws the 45 counts add up to `6 * len(draws)` |
| Statistics.FrequencyCountsDraws | analysis.py:34-38 | when no draw repeats a number, a number's count is the number of draws containing it |
| Statistics.NeverDrawnIsZero | analysis.py:34-38 | a number absent from every draw gets count 0 (the `counter.get(n, 0)` default) |
| Statistics.BonusNotCounted | analysis.py:34-38 | draws with the same main numbers give the same table, whatever their bonus numbers |
| Statistics.RecentWindow | analysis.py:41-43 | the window is the last `n` draws, all draws when fewer exist, and all draws for `n = 0` |
| Statistics.RecentFrequency | analysis.py:41-46 | the recent table has an entry for exactly 1..45 |
| Statistics.RecentCoversAll | analysis.py:41-46 | a window at least as long as the history gives the full frequency table |
| Statistics.RecentAtMostTotal | analysis.py:41-46 | no recent count exceeds the all-time count of the same number |
| Statistics.FrequencyItems | analysis.py:52 | `freq.items()` lists the 45 `(number, count)` pairs in ascending number order |
| Statistics.RankByCount | analysis.py:52 | the ranking holds every number exactly once with its count, by count descending and by ascending number among ties (stable sort) |
| Statistics.HotColdNumbers | analysis.py:49-55 | hot is the first nine and cold the last nine of the ranking by recent count; both lists go by count descending, ties by ascending number; every hot count is at least every cold count |
| Statistics.HotAreMostFrequent | analysis.py:49-55 | any number not in the hot list was drawn no more often than each hot number, and when it ties with a hot number it is the larger number |
| Statistics.ColdAreLeastFrequent | analysis.py:49-55 | any number not in the cold list was drawn at least as often as each cold number, and when it ties with a cold number it is the smaller number |
| Statistics.GetRange | analysis.py:176-186 | a pool number falls in the range whose bounds contain it; numbers below 1 go to 1-10, above 45 to 41-45 |
| Statistics.RangesPartitionPool | analysis.py:176-186 | for a pool number, `get_range` gives bucket `b` iff the number lies within `b`'s bounds |
| Statistics.RangeAnalysis | analysis.py:58-76 | error (division by zero) iff there are no numbers; otherwise each bucket holds the count of numbers in its range, and the buckets sum to the total |
| Statistics.CountStep | analysis.py:64-74 | counting one more number raises exactly the counter of its range, so the counters stay equal to the range counts and keep summing to the number of numbers seen |
| Statistics.OddCount | analysis.py:83 | the odd count never exceeds the number of numbers |
| Statistics.OddCountIsOddPart | analysis.py:83 | the odd count is the size of the list minus its even part |
| Statistics.ParitySums | analysis.py:84-89 | when each row has `odd + even = 6`, the odd and even totals add up to `6 * rows` (the numerators of the averages) |
| Statistics.OddsOf | analysis.py:92 | the combination keys are the rows' odd counts, in row order |
| Statistics.Counter | analysis.py:92 | `Counter(keys)` has one entry per distinct key, its keys are exactly the keys seen, and its counts total the number of keys |
| Statistics.CounterSpec | analysis.py:92 | `Counter` keeps one entry per distinct key, holding that key's multiplicity, and the counts total the number of keys |
| Statistics.CounterFirstSeen | analysis.py:92 | `Counter` lists its keys in first-seen order |
| Statistics.ComboTable | analysis.py:92-94 | `most_common()` is a re-ordering of the counter's entries with counts never increasing |
| Statistics.ComboTableSpec | analysis.py:92-94 | the combination table has distinct keys, the exact key set and multiplicities, counts totalling the number of draws, and counts that never increase |
| Statistics.ComboTableTies | analysis.py:92-94 | combinations with equal counts stay in the order they first appeared (stable sort over the counter's order) |
| Statistics.OddEvenAnalysis | analysis.py:79-100 | rows hold each draw's number, odd count and `6 - odd`; the two sums are the rows' odd and even totals, adding up to `6 * draws`; the combination table has exactly the rows' odd counts as keys, with their multiplicities, most frequent first, ties in first-seen order |
| Statistics.ConsecutiveAnalysis | analysis.py:103-117 | the loop counts the draws whose sorted numbers have neighbours differing by one; the total is the number of draws, and the count never exceeds it |
| Statistics.ScanForStep | analysis.py:108-111 | the inner scan reports a hit exactly when two neighbouring numbers of the sorted draw differ by one |
| Statistics.HasStepIffNeighbours | analysis.py:107-111 | a sorted draw has a step of one iff the draw contains some `x` and `x + 1` |
| Statistics.DrawSums | analysis.py:122 | one sum per draw, in order |
| Statistics.MinOf | analysis.py:125 | the minimum is an element and bounds all elements from below |
| Statistics.MaxOf | analysis.py:126 | the maximum is an element and bounds all elements from above |
| Statistics.SumAnalysis | analysis.py:120-128 | error iff there are no draws; the total is the sum of the per-draw sums; min and max are attained by some draw and bound every draw's sum |
| Statistics.MeanWithinRange | analysis.py:120-128 | `min * n <= total <= max * n`, so the mean lies between min and max |
| Sorting.SortBy | analysis.py:52 | Python's sort by key gives a permutation of the input, ordered by the key |
| Sorting.SortByStable | analysis.py:52 | the sort is stable: elements with equal keys keep their input order |
| Sorting.SortInts | analysis.py:107 | `sorted(numbers)` is an ascending permutation |
| Sorting.SortBySorted | lotto_data.py:108 | sorting an already ordered list leaves it unchanged |
| Sorting.KeysUniquePermutation | lotto_data.py:69 | re-ordering keeps draw numbers unique |
| PySeq.SliceBound | app.py:71 | a slice bound counts from the end when negative and is clamped to the list |
| PySeq.Slice | app.py:71 | `s[i:j]` is `s[i..j]` for bounds inside the list, runs to the end when `j` is past it, is empty when `j <= i`, and entry `k` is entry `k` after the clamped start |
| PySeq.SliceFrom | analysis.py:43 | `s[i:]` is the suffix from the clamped bound |
| Prediction.Cap | analysis.py:166 | a range of ten numbers may give three, the five-number range 41-45 two; no cap exceeds half its range |
| Prediction.TakeStep | analysis.py:165-169 | taking a number whose range is under its cap keeps the per-range counters equal to the counts of the selection and within the caps |
| Prediction.ThreeInBucket | analysis.py:166-167 | three distinct selected numbers of one range make its count at least three |
| Prediction.AllRangesFull | analysis.py:159-169 | once the whole ranking has been walked, a range whose three members were offered holds three |
| Prediction.GreedyRun | analysis.py:159-169 | the walk from any point keeps the loop state up to where it stops, with the ranking exhausted or six taken |
| Prediction.GreedyAdvance | analysis.py:162-167 | one step of the walk keeps the loop state and leaves what the rest of the walk selects unchanged |
| Prediction.GreedyPickSpec | analysis.py:159-169 | for every ranking of the pool, the walk selects six distinct numbers of the ranking within the caps; a number ranked before a taken one is passed over only when numbers ranked before it already fill its range |
| Prediction.SkippedMeansFull | analysis.py:165-167 | a number passed over before a taken one met a full range, filled by numbers ranked before it |
| Prediction.SelectBalanced | analysis.py:159-169 | the loop selects exactly `GreedyPick(order)`: six distinct numbers of the ranking, within the caps; a number ranked before a taken one is passed over only when numbers ranked before it already fill its range |
| Prediction.ScanStep | analysis.py:162-167 | one iteration keeps the loop state: taken numbers are distinct and come from the walked part of the ranking, the counters equal the range counts within the caps, and every walked number not taken found its range full |
| Prediction.ScanComplete | analysis.py:159-169 | once the loop stops, six numbers are taken (the first two ranges alone would supply them) and every number passed over before a taken one met a range already filled by numbers ranked before it |
| Prediction.BucketCountSorted | analysis.py:171 | sorting the selection keeps every range count |
| Prediction.AscendingSelection | analysis.py:171 | the sorted selection is strictly ascending, from the pool, and within the caps |
| Prediction.PickIsSuggestion | analysis.py:159-171 | the sorted selection of any ranking is six strictly ascending pool numbers within the caps |
| Prediction.SuggestOne | analysis.py:159-171 | one round gives the sorted `GreedyPick` of its ranking, and that is a suggestion |
| Prediction.RoundsAreSuggestions | analysis.py:152-173 | when every round gives the sorted selection of its ranking, every round gives a suggestion |
| Prediction.PredictNumbers | analysis.py:152-173 | one suggestion per round, the sorted `GreedyPick` of that round's ranking; each is six strictly ascending pool numbers with at most three per range 1-40 and two in 41-45 |
| LottoData.LatestDrawNumber | lotto_data.py:21-25 | the result `n` is the week containing the day: `7 * (n - 1) <= days < 7 * n`, at least 1 from the first draw day on |
| LottoData.LatestDrawOnItsDay | lotto_data.py:21-25 | on draw `k`'s day and the six days after it, the current draw is `k` |
| LottoData.LatestDrawMonotone | lotto_data.py:21-25 | a later day never gives an earlier draw |
| LottoData.BeforeT | lotto_data.py:38-40 | the date part has no `T`; it is the text before the first `T`, or the whole text when there is none |
| LottoData.ConvertRecord | lotto_data.py:28-49 | draw number and bonus are copied; numbers are an ascending permutation; the date is `BeforeT` of the date, `""` when absent; prize and winners are 0 without divisions |
| LottoData.ConvertFirstDivision | lotto_data.py:30-36 | with divisions, prize and winners come from the first division, each 0 when its field is missing |
| LottoData.ConvertKeepsWellFormed | lotto_data.py:28-49 | a record with six distinct pool numbers and a separate bonus converts to a well-formed draw with strictly ascending numbers |
| LottoData.FirstOccurrences | lotto_data.py:63-68 | the de-duplicated list keeps every draw number once |
| LottoData.FirstOccurrencesAreFirst | lotto_data.py:63-68 | each kept record is the first one carrying its draw number |
| LottoData.Deduplicate | lotto_data.py:63-69 | the loop's result is the first occurrences sorted by draw number: the same draw numbers as the input, strictly ascending, each the first record with its number |
| LottoData.ConvertAll | lotto_data.py:61 | one converted record per downloaded record, in order |
| LottoData.ConvertAllDrawNos | lotto_data.py:61 | conversion keeps the set of draw numbers |
| LottoData.FetchAll | lotto_data.py:61-69 | a full download yields each downloaded draw number once, ascending, each draw the conversion of the first record with that number |
| LottoData.MergeLatest | lotto_data.py:105-108 | the draw numbers gain the newest one; a known number leaves the cache untouched; a new one is added once and the cache re-sorted |
| LottoData.MergeKeepsUnique | lotto_data.py:105-108 | a cache without duplicate draw numbers stays so, and becomes strictly ascending when a draw is added |
| LottoData.MergeNewestAppends | lotto_data.py:105-108 | on an ordered cache, a draw newer than all cached ones is simply appended |
| LottoData.MergeIdempotent | lotto_data.py:105-108 | merging the same newest draw twice equals merging it once |
| DrawsApi.NatString | app.py:66 | the digits of a natural number, with no leading zero |
| DrawsApi.DecimalString | app.py:66 | `str(n)` starts with `-` iff `n` is negative |
| DrawsApi.NatStringRoundTrip | app.py:66 | reading the digits back gives the number |
| DrawsApi.DecimalStringInjective | app.py:66 | distinct draw numbers print differently |
| DrawsApi.FilterPrefix | app.py:65-66 | the search keeps exactly the draws whose number starts with the search text |
| DrawsApi.FilterMultiset | app.py:65-66 | each matching draw is kept as often as it occurs, and no other draw is kept |
| DrawsApi.FilterKeepsOrder | app.py:63-66 | filtering keeps the newest-first order |
| DrawsApi.FilterEmptySearch | app.py:65-66 | the empty search keeps every draw |
| DrawsApi.Listing | app.py:63-66 | the listing is newest first and holds exactly the matching draws, with their multiplicities |
| DrawsApi.ListingMembers | app.py:63-66 | a draw is listed iff it is loaded and matches the search |
| DrawsApi.ListingCount | app.py:63-68 | `total` is the number of loaded draws that match the search |
| DrawsApi.FloorDiv | app.py:78 | Python's `//` rounds down for either sign of the divisor |
| DrawsApi.TotalPages | app.py:78 | at least one page; with a positive page size the pages hold every draw, and the last page is not empty unless it is the only one |
| DrawsApi.TotalPagesLeast | app.py:78 | no smaller page count holds every draw |
| DrawsApi.PageSlice | app.py:69-71 | a page holds at most `per_page` draws |
| DrawsApi.PageIsStretch | app.py:69-71 | entry `k` of page `p` is listing entry `(p - 1) * per_page + k` |
| DrawsApi.EveryEntryOnItsPage | app.py:69-71 | listing entry `k` is entry `k % per_page` of page `k // per_page + 1` |
| DrawsApi.EntryPageCounted | app.py:68-78 | that page is between 1 and `total_pages` |
| DrawsApi.PagePastEndEmpty | app.py:69-78 | a page beyond `total_pages` is empty |
| DrawsApi.PageWithinListing | app.py:69-71 | a page holds only listed draws, newest first |
| DrawsApi.ApiDraws | app.py:63-78 | error (division by zero) iff `per_page = 0`; otherwise the page is `PageSlice` of the listing, holding only matching loaded draws, newest first; `total` counts the listing, `total_pages` is `TotalPages(total, per_page)`, and `page`, `per_page` are echoed |

## Left out

- Floating point: the percentages and roundings of `range_analysis`, `odd_even_analysis` and `consecutive_analysis`, the averages and standard deviation of `sum_analysis`, and the float weights of `predict_numbers` are not modelled. The integer counts and sums behind them are.
- Randomness: `random.random()` and `random.uniform` in `predict_numbers` (analysis.py:143-156) only decide the ranking of 1..45, which is a parameter of each round.
- `predict_numbers`: `num_sets` is the number of rankings supplied; a negative `num_sets`, which makes no rounds, is not separately modelled.
- `build_dataframe` (a pandas table) and `get_full_analysis` (a dictionary of the other results) are not part of this model.
- `recent_frequency` and `hot_cold_numbers` take a natural window `n`; a negative `n`, which the service never passes, is left out.
- Network and files: `fetch_all_from_api`, `fetch_all_draws`, `load_cache`, `save_cache`, the download progress `fetch_status`, and every error path of those calls. The downloaded and cached data are parameters.
- The clock: `get_latest_draw_number` takes the elapsed days as a parameter.
- JSON nulls: a `date` or `prize`/`winners` given as JSON null, which would make Python raise or return `None`, is not modelled; an absent `date`, `divisions`, `prize` or `winners` key is.
- Missing required keys: a record without `draw_no`, `numbers` or `bonus_no` makes `_convert_smok95_format` raise `KeyError` (lotto_data.py:43-46), and `fetch_all_from_api` then returns `[]` for the whole download. `RawItem` always has these fields, so that path is not modelled.
- The Flask routes other than the `/api/draws` paging, request parsing, JSON encoding, threading and store_data.py are not part of this model.
- Run-time validation of draws: the shape the data source guarantees (`WellFormed`) is a precondition of the lemmas that need it; like the service, the model never checks it.
