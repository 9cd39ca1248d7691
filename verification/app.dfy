/**
 * The listing endpoint of the web service: every draw, newest first,
 * optionally narrowed to draw numbers whose decimal form starts with a search
 * string, cut into pages. The request parameters arrive as integers and a
 * string; the HTTP layer and the JSON encoding are not modelled.
 */
module DrawsApi {
  import opened Draws
  import opened Sorting
  import opened PySeq

  function DigitChar(d: int): (c: char)
    requires 0 <= d < 10
    ensures '0' <= c <= '9' && c as int - '0' as int == d
  {
    (d + '0' as int) as char
  }

  /** The decimal digits of `n`, without leading zeros. */
  function NatString(n: nat): (s: string)
    ensures |s| >= 1
    ensures forall i :: 0 <= i < |s| ==> '0' <= s[i] <= '9'
    ensures s[0] == '0' ==> n == 0
  {
    if n < 10 then [DigitChar(n)] else NatString(n / 10) + [DigitChar(n % 10)]
  }

  /** Python's `str(n)` on an integer. */
  function DecimalString(n: int): (s: string)
    ensures n < 0 <==> |s| > 0 && s[0] == '-'
  {
    if n < 0 then "-" + NatString(-n) else NatString(n)
  }

  /** The value of a string of decimal digits. */
  function DigitsValue(s: string): nat
    requires forall i :: 0 <= i < |s| ==> '0' <= s[i] <= '9'
  {
    if s == [] then 0 else DigitsValue(s[..|s| - 1]) * 10 + (s[|s| - 1] as int - '0' as int)
  }

  /** Reading the digits back gives the number: distinct numbers print differently. */
  lemma {:induction false} NatStringRoundTrip(n: nat)
    ensures DigitsValue(NatString(n)) == n
  {
    if n >= 10 {
      NatStringRoundTrip(n / 10);
      var s := NatString(n);
      assert s[..|s| - 1] == NatString(n / 10);
    }
  }

  lemma NatStringInjective(a: nat, b: nat)
    requires NatString(a) == NatString(b)
    ensures a == b
  {
    NatStringRoundTrip(a);
    NatStringRoundTrip(b);
  }

  /** Different draw numbers print differently. */
  lemma DecimalStringInjective(m: int, n: int)
    requires DecimalString(m) == DecimalString(n)
    ensures m == n
  {
    if m < 0 && n < 0 {
      assert NatString(-m) == DecimalString(m)[1..];
      assert NatString(-n) == DecimalString(n)[1..];
      NatStringInjective(-m, -n);
    } else if m >= 0 && n >= 0 {
      NatStringInjective(m, n);
    }
  }

  /** `text.startswith(prefix)` */
  predicate StartsWith(text: string, prefix: string) {
    |prefix| <= |text| && text[..|prefix|] == prefix
  }

  /** `str(d['draw_no']).startswith(search)` */
  predicate Matches(d: Draw, search: string) {
    StartsWith(DecimalString(d.drawNo), search)
  }

  /** The search filter: keeps, in order, the draws whose number starts with `search`. */
  function FilterPrefix(s: seq<Draw>, search: string): (r: seq<Draw>)
    ensures forall d :: d in r <==> d in s && Matches(d, search)
    ensures |r| <= |s|
  {
    if s == [] then []
    else
      var rest := FilterPrefix(s[..|s| - 1], search);
      assert s == s[..|s| - 1] + [s[|s| - 1]];
      if Matches(s[|s| - 1], search) then rest + [s[|s| - 1]] else rest
  }

  lemma MultisetSnoc(s: seq<Draw>, x: Draw, d: Draw)
    ensures multiset(s + [x])[d] == multiset(s)[d] + (if x == d then 1 else 0)
  {
    assert multiset(s + [x]) == multiset(s) + multiset{x};
  }

  /** The filter over a sequence ending in `x`: the filter of the rest, then `x` if it matches. */
  lemma FilterSnoc(s: seq<Draw>, x: Draw, search: string)
    ensures FilterPrefix(s + [x], search) ==
      if Matches(x, search) then FilterPrefix(s, search) + [x] else FilterPrefix(s, search)
  {
    assert (s + [x])[..|s|] == s;
  }

  /** The filter keeps every matching draw as often as it occurs, and nothing else. */
  lemma {:induction false} FilterMultiset(s: seq<Draw>, search: string, d: Draw)
    ensures multiset(FilterPrefix(s, search))[d] == if Matches(d, search) then multiset(s)[d] else 0
  {
    if s != [] {
      var init, last := s[..|s| - 1], s[|s| - 1];
      assert s == init + [last];
      FilterMultiset(init, search, d);
      FilterSnoc(init, last, search);
      MultisetSnoc(init, last, d);
      MultisetSnoc(FilterPrefix(init, search), last, d);
    }
  }

  /** Filtering keeps the newest-first order. */
  lemma {:induction false} FilterKeepsOrder(s: seq<Draw>, search: string)
    requires SortedBy(s, NegDrawNo)
    ensures SortedBy(FilterPrefix(s, search), NegDrawNo)
  {
    if s != [] {
      var init := s[..|s| - 1];
      var last := s[|s| - 1];
      assert SortedBy(init, NegDrawNo);
      FilterKeepsOrder(init, search);
      var rest := FilterPrefix(init, search);
      if Matches(last, search) {
        var r := rest + [last];
        forall i, j | 0 <= i < j < |r| ensures NegDrawNo(r[i]) <= NegDrawNo(r[j]) {
          if j == |rest| {
            assert r[i] in init;
          }
        }
      }
    }
  }

  /** The empty search keeps everything. */
  lemma {:induction false} FilterEmptySearch(s: seq<Draw>)
    ensures FilterPrefix(s, "") == s
  {
    if s != [] {
      var init, last := s[..|s| - 1], s[|s| - 1];
      var text := DecimalString(last.drawNo);
      assert text[..0] == "";
      assert Matches(last, "");
      calc {
        FilterPrefix(s, "");
      ==
        FilterPrefix(init, "") + [last];
      ==  { FilterEmptySearch(init); }
        init + [last];
      ==
        s;
      }
    }
  }

  /** Python's `a // b`: the quotient rounded down, for either sign of `b`. */
  function FloorDiv(a: int, b: int): (q: int)
    requires b != 0
    ensures b > 0 ==> b * q <= a < b * q + b
    ensures b < 0 ==> b * q + b < a <= b * q
  {
    if b > 0 then a / b else (-a) / (-b)
  }

  /** `max(1, (total + per_page - 1) // per_page)` */
  function TotalPages(total: nat, perPage: int): (pages: int)
    requires perPage != 0
    ensures pages >= 1
    ensures perPage > 0 ==> total <= pages * perPage
    ensures perPage > 0 && pages > 1 ==> (pages - 1) * perPage < total
  {
    var q := FloorDiv(total + perPage - 1, perPage);
    if q < 1 then 1 else q
  }

  /** With positive page size, the page count is the least that holds every draw. */
  lemma TotalPagesLeast(total: nat, perPage: int, pages: int)
    requires perPage > 0 && pages >= 1 && total <= pages * perPage
    ensures TotalPages(total, perPage) <= pages
  {
    var t := TotalPages(total, perPage);
    if t > pages {
      MulMonotone(pages, t - 1, perPage);
    }
  }

  lemma MulMonotone(a: int, b: int, c: int)
    requires a <= b && c >= 0
    ensures a * c <= b * c
  {
    assert (b - a) * c >= 0;
  }

  /** `sorted_draws[start:end]` with `start = (page - 1) * per_page`. */
  function PageSlice(listing: seq<Draw>, page: int, perPage: int): (r: seq<Draw>)
    ensures perPage >= 0 ==> |r| <= perPage
  {
    var start := (page - 1) * perPage;
    Slice(listing, start, start + perPage)
  }

  /** With page and page size positive, page `page` is the stretch of the listing it names. */
  lemma PageIsStretch(listing: seq<Draw>, page: int, perPage: int, k: int)
    requires page >= 1 && perPage >= 1
    requires 0 <= k < perPage && (page - 1) * perPage + k < |listing|
    ensures k < |PageSlice(listing, page, perPage)|
    ensures PageSlice(listing, page, perPage)[k] == listing[(page - 1) * perPage + k]
  {
    var start := (page - 1) * perPage;
    assert 0 <= start < |listing|;
    assert SliceBound(start, |listing|) == start;
  }

  lemma DivMod(k: int, d: int)
    requires d >= 1
    ensures (k / d + 1 - 1) * d + k % d == k && 0 <= k % d < d
  {
    assert k == (k / d) * d + k % d;
  }

  /** Every entry of the listing is on the page its position gives. */
  lemma EveryEntryOnItsPage(listing: seq<Draw>, perPage: int, k: int)
    requires perPage >= 1 && 0 <= k < |listing|
    ensures k % perPage < |PageSlice(listing, k / perPage + 1, perPage)|
    ensures PageSlice(listing, k / perPage + 1, perPage)[k % perPage] == listing[k]
  {
    var page, offset := k / perPage + 1, k % perPage;
    DivMod(k, perPage);
    assert (page - 1) * perPage + offset == k;
    PageIsStretch(listing, page, perPage, offset);
  }

  /** ... and that page is one of the pages the answer counts. */
  lemma EntryPageCounted(total: nat, perPage: int, k: int)
    requires perPage >= 1 && 0 <= k < total
    ensures 1 <= k / perPage + 1 <= TotalPages(total, perPage)
  {
    var page, t := k / perPage + 1, TotalPages(total, perPage);
    if page > t {
      assert (k / perPage) * perPage <= k;
      MulMonotone(t, page - 1, perPage);
    }
  }

  /** A page holds a stretch of the listing, so its draws are listed ones, newest first. */
  lemma PageWithinListing(listing: seq<Draw>, page: int, perPage: int)
    requires SortedBy(listing, NegDrawNo)
    ensures forall d :: d in PageSlice(listing, page, perPage) ==> d in listing
    ensures SortedBy(PageSlice(listing, page, perPage), NegDrawNo)
  {
    var start := (page - 1) * perPage;
    var lo, hi := SliceBound(start, |listing|), SliceBound(start + perPage, |listing|);
    if lo < hi {
      var r := listing[lo..hi];
      assert PageSlice(listing, page, perPage) == r;
      forall i, j | 0 <= i < j < |r| ensures NegDrawNo(r[i]) <= NegDrawNo(r[j]) {
        assert r[i] == listing[lo + i] && r[j] == listing[lo + j];
      }
    }
  }

  /** A page past the last is empty. */
  lemma PagePastEndEmpty(listing: seq<Draw>, page: int, perPage: int)
    requires perPage >= 1 && page > TotalPages(|listing|, perPage)
    ensures PageSlice(listing, page, perPage) == []
  {
    var t := TotalPages(|listing|, perPage);
    MulMonotone(t, page - 1, perPage);
  }

  /** The draws the endpoint pages through: newest first, narrowed by a non-empty search. */
  function Listing(draws: seq<Draw>, search: string): (listing: seq<Draw>)
    ensures SortedBy(listing, NegDrawNo)
    ensures forall d :: multiset(listing)[d] == if Matches(d, search) then multiset(draws)[d] else 0
  {
    var sortedDraws := SortBy(draws, NegDrawNo);
    if search != "" then
      FilterKeepsOrder(sortedDraws, search);
      assert forall d :: multiset(FilterPrefix(sortedDraws, search))[d] == if Matches(d, search) then multiset(draws)[d] else 0 by {
        forall d ensures multiset(FilterPrefix(sortedDraws, search))[d] == if Matches(d, search) then multiset(draws)[d] else 0 {
          FilterMultiset(sortedDraws, search, d);
        }
      }
      FilterPrefix(sortedDraws, search)
    else
      sortedDraws
  }

  /** The listing holds exactly the draws that match the search. */
  lemma ListingMembers(draws: seq<Draw>, search: string)
    ensures forall d :: d in Listing(draws, search) <==> d in draws && Matches(d, search)
  {
    var listing := Listing(draws, search);
    forall d ensures d in listing <==> d in draws && Matches(d, search) {
      assert d in listing <==> multiset(listing)[d] > 0;
      assert d in draws <==> multiset(draws)[d] > 0;
    }
  }

  /** The number of listed draws is the number of matching draws. */
  lemma ListingCount(draws: seq<Draw>, search: string)
    ensures |Listing(draws, search)| == |FilterPrefix(draws, search)|
  {
    var listing := Listing(draws, search);
    forall d ensures multiset(listing)[d] == multiset(FilterPrefix(draws, search))[d] {
      FilterMultiset(draws, search, d);
    }
    assert multiset(listing) == multiset(FilterPrefix(draws, search));
    assert |multiset(listing)| == |multiset(FilterPrefix(draws, search))|;
  }

  /** The endpoint's answer. */
  datatype Page = Page(draws: seq<Draw>, total: nat, page: int, perPage: int, totalPages: int)

  /** `api_draws`, from the draws loaded to the JSON it returns; a page size of 0 raises. */
  function ApiDraws(draws: seq<Draw>, page: int, perPage: int, search: string): (r: Result<Page>)
    ensures r.Err? <==> perPage == 0
    ensures r.Err? ==> r.error == DivisionByZero
    ensures r.Ok? ==> r.value.page == page && r.value.perPage == perPage && r.value.totalPages >= 1
    ensures r.Ok? ==> r.value.total == |Listing(draws, search)|
    ensures r.Ok? ==> forall d :: d in r.value.draws ==> d in draws && Matches(d, search)
    ensures r.Ok? ==> SortedBy(r.value.draws, NegDrawNo)
    ensures r.Ok? ==> r.value.draws == PageSlice(Listing(draws, search), page, perPage)
    ensures r.Ok? ==> r.value.totalPages == TotalPages(r.value.total, perPage)
  {
    var listing := Listing(draws, search);
    var total := |listing|;
    if perPage == 0 then Err(DivisionByZero)
    else
      PageWithinListing(listing, page, perPage);
      ListingMembers(draws, search);
      Ok(Page(PageSlice(listing, page, perPage), total, page, perPage, TotalPages(total, perPage)))
  }
}
