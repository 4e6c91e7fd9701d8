/**
 * The client-side list pipeline shared by the video list and the event list:
 * filter the records, cut the result into fixed-size pages, work out the
 * previous/next targets, decide which page numbers are drawn as buttons and
 * which as "...", and word the message shown when nothing matches.
 *
 * Both list views instantiate this module with their own record type, search
 * fields, page size and rules for when the pager is shown.
 */
module ListView {
  import opened Opt
  import opened Text

  function Min(a: int, b: int): int { if a <= b then a else b }
  function Max(a: int, b: int): int { if a >= b then a else b }

  // ---------------------------------------------------------------------------
  // Filtering
  // ---------------------------------------------------------------------------

  /** The selector value that lets every record through. */
  const AllSelector: string := "all"

  /** A category / platform selector: "all" is a wildcard, any other value must match exactly. */
  predicate SelectorMatches(selector: string, key: string) {
    selector == AllSelector || key == selector
  }

  /**
   * `Array.prototype.filter`: the records `keep` accepts, in their original
   * order. A record is in the result exactly when it is in the input and
   * accepted.
   */
  function Filter<T(!new)>(xs: seq<T>, keep: T -> bool): (r: seq<T>)
    ensures |r| <= |xs|
    ensures forall x :: x in r <==> x in xs && keep(x)
  {
    if xs == [] then []
    else (if keep(xs[0]) then [xs[0]] else []) + Filter(xs[1..], keep)
  }

  /** Every accepted record keeps its multiplicity; every rejected one disappears. */
  lemma {:induction false} FilterCounts<T(!new)>(xs: seq<T>, keep: T -> bool)
    ensures forall x :: multiset(Filter(xs, keep))[x] == (if keep(x) then multiset(xs)[x] else 0)
    decreases |xs|
  {
    if xs != [] {
      FilterCounts(xs[1..], keep);
      assert xs == [xs[0]] + xs[1..];
      assert multiset(xs) == multiset([xs[0]]) + multiset(xs[1..]);
    }
  }

  /** The result is empty exactly when no record is accepted. */
  lemma FilterEmptyIff<T(!new)>(xs: seq<T>, keep: T -> bool)
    ensures Filter(xs, keep) == [] <==> forall i :: 0 <= i < |xs| ==> !keep(xs[i])
  {
    if Filter(xs, keep) != [] {
      var x := Filter(xs, keep)[0];
      assert x in Filter(xs, keep);
    }
  }

  /** `a` can be obtained from `b` by deleting elements: order is kept. */
  ghost predicate IsSubsequence<T>(a: seq<T>, b: seq<T>)
    decreases |b|
  {
    a == [] || (b != [] && ((a[0] == b[0] && IsSubsequence(a[1..], b[1..])) || IsSubsequence(a, b[1..])))
  }

  /** Filtering never reorders: the result is a subsequence of the input. */
  lemma {:induction false} FilterIsSubsequence<T(!new)>(xs: seq<T>, keep: T -> bool)
    ensures IsSubsequence(Filter(xs, keep), xs)
    decreases |xs|
  {
    if xs != [] {
      FilterIsSubsequence(xs[1..], keep);
      var rest := Filter(xs[1..], keep);
      if keep(xs[0]) {
        assert Filter(xs, keep) == [xs[0]] + rest;
        assert ([xs[0]] + rest)[1..] == rest;
      } else {
        assert Filter(xs, keep) == rest;
        SubsequenceOfTail(rest, xs);
      }
    }
  }

  /** A subsequence of the tail is a subsequence of the whole. */
  lemma SubsequenceOfTail<T>(a: seq<T>, b: seq<T>)
    requires b != [] && IsSubsequence(a, b[1..])
    ensures IsSubsequence(a, b)
  {
  }

  /** When every record is accepted, filtering is the identity. */
  lemma {:induction false} FilterKeepsAll<T(!new)>(xs: seq<T>, keep: T -> bool)
    requires forall i :: 0 <= i < |xs| ==> keep(xs[i])
    ensures Filter(xs, keep) == xs
    decreases |xs|
  {
    if xs != [] {
      FilterKeepsAll(xs[1..], keep);
      assert [xs[0]] + xs[1..] == xs;
    }
  }

  /** Filtering distributes over concatenation, so order is kept block by block. */
  lemma {:induction false} FilterAppend<T(!new)>(a: seq<T>, b: seq<T>, keep: T -> bool)
    ensures Filter(a + b, keep) == Filter(a, keep) + Filter(b, keep)
    decreases |a|
  {
    if a == [] {
      assert a + b == b;
    } else {
      var head := if keep(a[0]) then [a[0]] else [];
      assert (a + b)[0] == a[0];
      assert (a + b)[1..] == a[1..] + b;
      FilterAppend(a[1..], b, keep);
      calc {
        Filter(a + b, keep);
        head + Filter(a[1..] + b, keep);
        head + (Filter(a[1..], keep) + Filter(b, keep));
        (head + Filter(a[1..], keep)) + Filter(b, keep);
        Filter(a, keep) + Filter(b, keep);
      }
    }
  }

  // ---------------------------------------------------------------------------
  // Pages
  // ---------------------------------------------------------------------------

  /** `Math.ceil(n / size)`: the number of pages `n` records fill. */
  function TotalPages(n: nat, size: nat): (t: nat)
    requires size > 0
    ensures n <= t * size
    ensures n > 0 ==> (t - 1) * size < n
    ensures t == 0 <==> n == 0
  {
    var t := (n + size - 1) / size;
    assert n + size - 1 == t * size + (n + size - 1) % size;
    assert (t - 1) * size == t * size - size;
    t
  }

  /** `Math.ceil` on a real number. */
  function MathCeil(x: real): (c: int)
    ensures (c - 1) as real < x <= c as real
  {
    -((-x).Floor)
  }

  lemma RealMulLe(a: real, b: real, s: real)
    requires a <= b && s >= 0.0
    ensures a * s <= b * s
  {
  }

  lemma RealMulLt(a: real, b: real, s: real)
    requires a < b && s > 0.0
    ensures a * s < b * s
  {
  }

  lemma QuotientTimesDivisor(n: nat, size: nat)
    requires size > 0
    ensures (n as real / size as real) * size as real == n as real
  {
  }

  lemma IntMulToReal(a: int, b: int)
    ensures (a * b) as real == a as real * b as real
  {
  }

  /** `a < b` scales to `a * size < n` when `b * size == n`. */
  lemma ScaledBelow(a: real, b: real, size: real, n: real)
    requires a < b && size > 0.0 && b * size == n
    ensures a * size < n
  {
    RealMulLt(a, b, size);
  }

  /** The real ceiling of `n / size`, times `size`, covers `n` with less than one page to spare. */
  lemma MathCeilBounds(n: nat, size: nat)
    requires size > 0
    ensures var c := MathCeil(n as real / size as real); n <= c * size && (c - 1) * size < n
  {
    var x := n as real / size as real;
    var c := MathCeil(x);
    QuotientTimesDivisor(n, size);
    RealMulLe(x, c as real, size as real);
    IntMulToReal(c, size);
    ScaledBelow((c - 1) as real, x, size as real, n as real);
    IntMulToReal(c - 1, size);
  }

  /** At most one integer `t` has `(t-1)*size < n <= t*size`. */
  lemma PageCountUnique(n: nat, size: nat, t: int, c: int)
    requires size > 0
    requires n <= t * size && (t - 1) * size < n
    requires n <= c * size && (c - 1) * size < n
    ensures t == c
  {
    if t > c {
      MulMonotone(c, t - 1, size);
    } else if t < c {
      MulMonotone(t, c - 1, size);
    }
  }

  /** The integer page count is exactly `Math.ceil(n / size)` computed on reals. */
  lemma TotalPagesIsMathCeil(n: nat, size: nat)
    requires size > 0
    ensures TotalPages(n, size) == MathCeil(n as real / size as real)
  {
    MathCeilBounds(n, size);
    PageCountUnique(n, size, TotalPages(n, size), MathCeil(n as real / size as real));
  }

  /**
   * An index argument of `Array.prototype.slice`: negative values count from
   * the end, and the result is clamped to `[0, len]`.
   */
  function SliceIndex(i: int, len: nat): (r: nat)
    ensures r <= len
    ensures 0 <= i ==> r == Min(i, len)
  {
    if i < 0 then Max(0, len + i) else Min(i, len)
  }

  /** `s.slice(start, end)` with the JavaScript index rules. */
  function JsSlice<T>(s: seq<T>, start: int, end: int): (r: seq<T>)
    ensures 0 <= start <= end ==> r == s[Min(start, |s|)..Min(end, |s|)]
    ensures 0 <= end <= start ==> r == []
  {
    var from := SliceIndex(start, |s|);
    var to := SliceIndex(end, |s|);
    if from < to then s[from..to] else []
  }

  lemma PageBounds(page: int, size: nat)
    requires page >= 1
    ensures (page - 1) * size >= 0
    ensures page * size - size == (page - 1) * size
    ensures page * size == (page - 1) * size + size
  {
  }

  /** For a page of at least 1, its slice is the window `[(page-1)*size, page*size)` clamped to the list. */
  lemma SliceOfPage<T>(s: seq<T>, page: int, size: nat)
    ensures page >= 1 ==> (page - 1) * size >= 0
    ensures var r := JsSlice(s, page * size - size, page * size);
      page >= 1 ==>
        |r| == Min(size, Max(0, |s| - (page - 1) * size)) &&
        forall i :: 0 <= i < |r| ==> r[i] == s[(page - 1) * size + i]
  {
    if page >= 1 {
      PageBounds(page, size);
    }
  }

  /**
   * Page `page` (counted from 1): `s.slice(page*size - size, page*size)`.
   * For a page of at least 1 it is the window `[(page-1)*size, page*size)`
   * clamped to the list, of length `min(size, max(0, |s| - (page-1)*size))`.
   */
  function PageOf<T>(s: seq<T>, page: int, size: nat): (r: seq<T>)
    ensures page >= 1 ==> (page - 1) * size >= 0
    ensures page >= 1 ==> |r| == Min(size, Max(0, |s| - (page - 1) * size))
    ensures page >= 1 ==> forall i :: 0 <= i < |r| ==> r[i] == s[(page - 1) * size + i]
  {
    SliceOfPage(s, page, size);
    JsSlice(s, page * size - size, page * size)
  }

  /** Pages `1..k` of `s`, concatenated. */
  function PagesUpTo<T>(s: seq<T>, size: nat, k: nat): seq<T>
  {
    if k == 0 then [] else PagesUpTo(s, size, k - 1) + PageOf(s, k, size)
  }

  /** Page `k` is the window `[(k-1)*size, k*size)` clamped to the list. */
  lemma PageIsSlice<T>(s: seq<T>, size: nat, k: int)
    requires k >= 1
    ensures (k - 1) * size <= k * size
    ensures PageOf(s, k, size) == s[Min((k - 1) * size, |s|)..Min(k * size, |s|)]
  {
    PageBounds(k, size);
  }

  /** The first `k` pages together are the first `k*size` records (or all of them). */
  lemma {:induction false} PagesUpToIsPrefix<T>(s: seq<T>, size: nat, k: nat)
    ensures PagesUpTo(s, size, k) == s[..Min(k * size, |s|)]
  {
    if k > 0 {
      var lo := Min((k - 1) * size, |s|);
      var hi := Min(k * size, |s|);
      PagesUpToIsPrefix(s, size, k - 1);
      PageIsSlice(s, size, k);
      assert PagesUpTo(s, size, k) == s[..lo] + s[lo..hi];
      PrefixThenSlice(s, lo, hi);
    }
  }

  lemma PrefixThenSlice<T>(s: seq<T>, lo: int, hi: int)
    requires 0 <= lo <= hi <= |s|
    ensures s[..lo] + s[lo..hi] == s[..hi]
  {
  }

  /** Concatenating pages `1..TotalPages` gives back the whole list. */
  lemma PagesCoverList<T>(s: seq<T>, size: nat)
    requires size > 0
    ensures PagesUpTo(s, size, TotalPages(|s|, size)) == s
  {
    PagesUpToIsPrefix(s, size, TotalPages(|s|, size));
    assert s[..|s|] == s;
  }

  lemma MulMonotone(x: int, y: int, size: nat)
    requires x <= y
    ensures x * size <= y * size
  {
    assert y * size == x * size + (y - x) * size;
  }

  /** Pages `1..TotalPages` are non-empty; every later page is empty. */
  lemma PageEmptyIff<T>(s: seq<T>, size: nat, page: int)
    requires size > 0 && page >= 1
    ensures PageOf(s, page, size) == [] <==> page > TotalPages(|s|, size)
  {
    var t := TotalPages(|s|, size);
    var n := |s|;
    assert |PageOf(s, page, size)| == Min(size, Max(0, n - (page - 1) * size));
    if page > t {
      MulMonotone(t, page - 1, size);
    } else {
      MulMonotone(page - 1, t - 1, size);
    }
  }

  // ---------------------------------------------------------------------------
  // Page buttons
  // ---------------------------------------------------------------------------

  /** One entry of the page bar: a numbered button (highlighted when it is the current page) or a "..." marker. */
  datatype PageItem = PageButton(page: int, active: bool) | Gap(page: int)

  /** Page `k` is drawn as a button: the first, the last, or next to the current page. */
  predicate IsButtonPage(k: int, total: int, current: int) {
    k == 1 || k == total || (current - 1 <= k && k <= current + 1)
  }

  /** Page `k` is drawn as "...": not a button, two away from the current page, and strictly inside the range. */
  predicate IsGapPage(k: int, total: int, current: int) {
    !IsButtonPage(k, total, current) &&
    ((k == current - 2 && k > 1) || (k == current + 2 && k < total))
  }

  /** The page numbers of the items, strictly increasing. */
  ghost predicate Ascending(w: seq<PageItem>) {
    forall i, j :: 0 <= i < j < |w| ==> w[i].page < w[j].page
  }

  /** The bar entries for pages `k..total`. */
  function ItemsFrom(k: int, total: int, current: int): (w: seq<PageItem>)
    requires k >= 1
    ensures forall j :: 0 <= j < |w| ==> k <= w[j].page <= total
    ensures Ascending(w)
    decreases total - k + 1
  {
    if k > total then []
    else if IsButtonPage(k, total, current) then [PageButton(k, k == current)] + ItemsFrom(k + 1, total, current)
    else if IsGapPage(k, total, current) then [Gap(k)] + ItemsFrom(k + 1, total, current)
    else ItemsFrom(k + 1, total, current)
  }

  /** Every entry for pages `k..total` is drawn by the button / "..." rule, and highlighted exactly on the current page. */
  lemma {:induction false} ItemsFromSound(k: int, total: int, current: int)
    requires k >= 1
    ensures forall j :: 0 <= j < |ItemsFrom(k, total, current)| ==>
      var it := ItemsFrom(k, total, current)[j];
      (it.PageButton? ==> IsButtonPage(it.page, total, current) && (it.active <==> it.page == current)) &&
      (it.Gap? ==> IsGapPage(it.page, total, current))
    decreases total - k + 1
  {
    if k <= total {
      ItemsFromSound(k + 1, total, current);
    }
  }

  /** Every page in `k..total` the rule draws has its entry. */
  lemma {:induction false} ItemsFromComplete(k: int, total: int, current: int, p: int)
    requires 1 <= k <= p <= total
    ensures IsButtonPage(p, total, current) ==> PageButton(p, p == current) in ItemsFrom(k, total, current)
    ensures IsGapPage(p, total, current) ==> Gap(p) in ItemsFrom(k, total, current)
    decreases total - k + 1
  {
    if k < p {
      ItemsFromComplete(k + 1, total, current, p);
    }
  }

  /** The page bar between the arrows: the entries for pages `1..total`, in order. */
  function PageWindow(total: int, current: int): (w: seq<PageItem>)
    ensures Ascending(w)
    ensures forall j :: 0 <= j < |w| ==> 1 <= w[j].page <= total
  {
    ItemsFrom(1, total, current)
  }

  /**
   * Page `p` has a button exactly when it is the first, the last or within
   * one of the current page; it has a "..." exactly when it is two away from
   * the current page, not already a button, and strictly between the ends.
   * Only the current page's button is highlighted.
   */
  lemma PageWindowRule(total: int, current: int, p: int)
    requires 1 <= p <= total
    ensures PageButton(p, p == current) in PageWindow(total, current) <==> IsButtonPage(p, total, current)
    ensures Gap(p) in PageWindow(total, current) <==> IsGapPage(p, total, current)
    ensures forall j :: 0 <= j < |PageWindow(total, current)| && PageWindow(total, current)[j].PageButton? ==>
      (PageWindow(total, current)[j].active <==> PageWindow(total, current)[j].page == current)
  {
    ItemsFromSound(1, total, current);
    ItemsFromComplete(1, total, current, p);
  }

  /** The page numbers of the buttons, in bar order. */
  function ButtonPages(w: seq<PageItem>): seq<int>
  {
    if w == [] then []
    else (if w[0].PageButton? then [w[0].page] else []) + ButtonPages(w[1..])
  }

  /** The page numbers of the "..." markers, in bar order. */
  function GapPages(w: seq<PageItem>): seq<int>
  {
    if w == [] then []
    else (if w[0].Gap? then [w[0].page] else []) + GapPages(w[1..])
  }

  ghost predicate StrictlyIncreasing(ps: seq<int>) {
    forall i, j :: 0 <= i < j < |ps| ==> ps[i] < ps[j]
  }

  /** A strictly increasing sequence drawn from `s` is no longer than `s` is large. */
  lemma {:induction false} IncreasingLengthBound(ps: seq<int>, s: set<int>)
    requires StrictlyIncreasing(ps)
    requires forall i :: 0 <= i < |ps| ==> ps[i] in s
    ensures |ps| <= |s|
    decreases |ps|
  {
    if ps != [] {
      forall i | 0 <= i < |ps[1..]|
        ensures ps[1..][i] in s - {ps[0]}
      {
        assert ps[0] < ps[i + 1];
      }
      IncreasingLengthBound(ps[1..], s - {ps[0]});
    }
  }

  /** Putting a smaller number in front keeps a sequence strictly increasing. */
  lemma ConsIncreasing(k: int, ps: seq<int>)
    requires StrictlyIncreasing(ps)
    requires forall i :: 0 <= i < |ps| ==> k < ps[i]
    ensures StrictlyIncreasing([k] + ps)
  {
  }

  /** The button pages of an ascending bar are strictly increasing and drawn from the pages of its buttons. */
  lemma {:induction false} ButtonPagesIncreasing(w: seq<PageItem>, lo: int, allowed: set<int>)
    requires Ascending(w)
    requires forall j :: 0 <= j < |w| ==> lo <= w[j].page
    requires forall j :: 0 <= j < |w| && w[j].PageButton? ==> w[j].page in allowed
    ensures var ps := ButtonPages(w);
      StrictlyIncreasing(ps) && forall i :: 0 <= i < |ps| ==> lo <= ps[i] && ps[i] in allowed
    decreases |w|
  {
    if w != [] {
      ButtonPagesIncreasing(w[1..], w[0].page + 1, allowed);
      if w[0].PageButton? {
        ConsIncreasing(w[0].page, ButtonPages(w[1..]));
      }
    }
  }

  /** The "..." pages of an ascending bar are strictly increasing and drawn from the pages of its markers. */
  lemma {:induction false} GapPagesIncreasing(w: seq<PageItem>, lo: int, allowed: set<int>)
    requires Ascending(w)
    requires forall j :: 0 <= j < |w| ==> lo <= w[j].page
    requires forall j :: 0 <= j < |w| && w[j].Gap? ==> w[j].page in allowed
    ensures var ps := GapPages(w);
      StrictlyIncreasing(ps) && forall i :: 0 <= i < |ps| ==> lo <= ps[i] && ps[i] in allowed
    decreases |w|
  {
    if w != [] {
      GapPagesIncreasing(w[1..], w[0].page + 1, allowed);
      if w[0].Gap? {
        ConsIncreasing(w[0].page, GapPages(w[1..]));
      }
    }
  }

  /** Every entry is either a button or a "...". */
  lemma {:induction false} EntriesSplit(w: seq<PageItem>)
    ensures |w| == |ButtonPages(w)| + |GapPages(w)|
  {
    if w != [] {
      EntriesSplit(w[1..]);
    }
  }

  /**
   * However many pages there are and wherever the current page is, the bar
   * shows at most five buttons (first, last, current and its two neighbours)
   * and at most two "..." markers, so at most seven entries.
   */
  lemma PageWindowSize(total: int, current: int)
    ensures |ButtonPages(PageWindow(total, current))| <= 5
    ensures |GapPages(PageWindow(total, current))| <= 2
    ensures |PageWindow(total, current)| <= 7
  {
    var w := PageWindow(total, current);
    var buttons := {1, total, current - 1, current, current + 1};
    var gaps := {current - 2, current + 2};
    ItemsFromSound(1, total, current);
    ButtonPagesIncreasing(w, 1, buttons);
    IncreasingLengthBound(ButtonPages(w), buttons);
    GapPagesIncreasing(w, 1, gaps);
    IncreasingLengthBound(GapPages(w), gaps);
    EntriesSplit(w);
  }

  // ---------------------------------------------------------------------------
  // Previous / next
  // ---------------------------------------------------------------------------

  /** The pager: arrow targets, whether each arrow is disabled, and the page entries. */
  datatype Pager = Pager(prev: int, prevDisabled: bool, items: seq<PageItem>, next: int, nextDisabled: bool)

  /**
   * The pager for page `current` of `total`: "previous" goes to
   * `max(1, current - 1)` and is disabled on page 1, "next" goes to
   * `min(total, current + 1)` and is disabled on the last page.
   */
  function BuildPager(total: int, current: int): (pg: Pager)
    ensures current >= 1 ==> (pg.prevDisabled <==> pg.prev == current)
    ensures current <= total ==> (pg.nextDisabled <==> pg.next == current)
    ensures 1 <= current <= total ==> 1 <= pg.prev <= total && 1 <= pg.next <= total
    ensures current >= 1 ==> current - 1 <= pg.prev <= current
    ensures current <= total ==> current <= pg.next <= current + 1
    ensures pg.prevDisabled <==> current == 1
    ensures pg.nextDisabled <==> current == total
    ensures !pg.prevDisabled && current >= 1 ==> pg.prev == current - 1
    ensures !pg.nextDisabled && current <= total ==> pg.next == current + 1
    ensures 1 <= total < current ==> pg.next == total
    ensures pg.items == PageWindow(total, current)
  {
    Pager(Max(1, current - 1), current == 1, PageWindow(total, current), Min(total, current + 1), current == total)
  }

  // ---------------------------------------------------------------------------
  // Empty result
  // ---------------------------------------------------------------------------

  /** The three wordings of the empty-result message. */
  datatype Notice =
    | NoMatchInSelection(selector: string, term: string)
    | NoMatch(term: string)
    | NoneAvailable(selector: string)

  /**
   * The wording is chosen by the search term (a non-empty term is "set") and
   * the selector: both set, only the term set, or no term at all.
   */
  function ChooseNotice(term: string, selector: string): (n: Notice)
    ensures n.NoMatchInSelection? <==> term != "" && selector != AllSelector
    ensures n.NoMatch? <==> term != "" && selector == AllSelector
    ensures n.NoneAvailable? <==> term == ""
    ensures !n.NoneAvailable? ==> n.term == term
    ensures !n.NoMatch? ==> n.selector == selector
  {
    if term != "" && selector != AllSelector then NoMatchInSelection(selector, term)
    else if term != "" then NoMatch(term)
    else NoneAvailable(selector)
  }

  const NoPrefix: string := "No "
  const FoundMatching: string := " found matching \""
  const TrySearchOrFilter: string := "\". Try a different search or filter."
  const TrySearchTerm: string := "\". Try a different search term."
  const Available: string := " available."

  /** The message text; `noun` is "videos" or "events". */
  function NoticeText(noun: string, n: Notice): (text: string)
    ensures IsPrefix(NoPrefix, text)
    ensures n.NoMatchInSelection? ==> IsSuffix(TrySearchOrFilter, text)
    ensures n.NoMatch? ==> IsSuffix(TrySearchTerm, text)
    ensures n.NoneAvailable? ==> IsSuffix(Available, text)
  {
    match n
    case NoMatchInSelection(selector, term) =>
      NoPrefix + selector + " " + noun + FoundMatching + term + TrySearchOrFilter
    case NoMatch(term) =>
      NoPrefix + noun + FoundMatching + term + TrySearchTerm
    case NoneAvailable(selector) =>
      NoPrefix + selector + " " + noun + Available
  }

  /** Occurrences in `a + (b + c)`, regrouped. */
  lemma ContainsMiddleRegrouped(a: string, b: string, c: string, whole: string)
    requires whole == a + (b + c)
    ensures Contains(whole, b)
  {
    assert whole == a + b + c;
    ContainsMiddle(a, b, c);
  }

  lemma SelectionNoticeEchoes(noun: string, term: string, selector: string)
    ensures var text := NoticeText(noun, NoMatchInSelection(selector, term));
      Contains(text, term) && Contains(text, selector) && Contains(text, noun)
  {
    var text := NoticeText(noun, NoMatchInSelection(selector, term));
    SelectionNoticeTerm(noun, term, selector, text);
    SelectionNoticeSelector(noun, term, selector, text);
    SelectionNoticeNoun(noun, term, selector, text);
  }

  lemma SelectionNoticeTerm(noun: string, term: string, selector: string, text: string)
    requires text == NoticeText(noun, NoMatchInSelection(selector, term))
    ensures Contains(text, term)
  {
    ContainsMiddleRegrouped(NoPrefix + selector + " " + noun + FoundMatching, term, TrySearchOrFilter, text);
  }

  lemma SelectionNoticeSelector(noun: string, term: string, selector: string, text: string)
    requires text == NoticeText(noun, NoMatchInSelection(selector, term))
    ensures Contains(text, selector)
  {
    ContainsMiddleRegrouped(NoPrefix, selector, " " + noun + FoundMatching + term + TrySearchOrFilter, text);
  }

  lemma SelectionNoticeNoun(noun: string, term: string, selector: string, text: string)
    requires text == NoticeText(noun, NoMatchInSelection(selector, term))
    ensures Contains(text, noun)
  {
    ContainsMiddleRegrouped(NoPrefix + selector + " ", noun, FoundMatching + term + TrySearchOrFilter, text);
  }

  lemma MatchNoticeEchoes(noun: string, term: string)
    ensures var text := NoticeText(noun, NoMatch(term));
      Contains(text, term) && Contains(text, noun)
  {
    var text := NoticeText(noun, NoMatch(term));
    MatchNoticeTerm(noun, term, text);
    MatchNoticeNoun(noun, term, text);
  }

  lemma MatchNoticeTerm(noun: string, term: string, text: string)
    requires text == NoticeText(noun, NoMatch(term))
    ensures Contains(text, term)
  {
    ContainsMiddleRegrouped(NoPrefix + noun + FoundMatching, term, TrySearchTerm, text);
  }

  lemma MatchNoticeNoun(noun: string, term: string, text: string)
    requires text == NoticeText(noun, NoMatch(term))
    ensures Contains(text, noun)
  {
    ContainsMiddleRegrouped(NoPrefix, noun, FoundMatching + term + TrySearchTerm, text);
  }

  lemma AvailableNoticeEchoes(noun: string, selector: string)
    ensures var text := NoticeText(noun, NoneAvailable(selector));
      Contains(text, selector) && Contains(text, noun)
  {
    var text := NoticeText(noun, NoneAvailable(selector));
    ContainsMiddleRegrouped(NoPrefix, selector, " " + noun + Available, text);
    ContainsMiddleRegrouped(NoPrefix + selector + " ", noun, Available, text);
  }

  /**
   * The message echoes the query back: it quotes a non-empty search term, and
   * it names the selector whenever one is set or no term is given.
   */
  lemma NoticeEchoesQuery(noun: string, term: string, selector: string)
    ensures term != "" ==> Contains(NoticeText(noun, ChooseNotice(term, selector)), term)
    ensures selector != AllSelector || term == "" ==> Contains(NoticeText(noun, ChooseNotice(term, selector)), selector)
    ensures Contains(NoticeText(noun, ChooseNotice(term, selector)), noun)
  {
    match ChooseNotice(term, selector)
    case NoMatchInSelection(_, _) => SelectionNoticeEchoes(noun, term, selector);
    case NoMatch(_) => MatchNoticeEchoes(noun, term);
    case NoneAvailable(_) => AvailableNoticeEchoes(noun, selector);
  }

  // ---------------------------------------------------------------------------
  // View state
  // ---------------------------------------------------------------------------

  /** The list view's local state: search box text, selector chip and current page. */
  datatype Query = Query(term: string, selector: string, page: int)

  /** The state on first render. */
  const InitialQuery: Query := Query("", AllSelector, 1)

  /** What the user can do: type, pick a chip, click an arrow, click a page button. */
  datatype Action = Search(term: string) | Select(selector: string) | Prev | Next | GoTo(page: int)

  /**
   * The page after a click on the pager drawn, if one is: an enabled arrow
   * goes to its target and a page button to its page; anything else, and
   * every click while no pager is drawn, keeps the page.
   */
  function Navigate(shown: Option<Pager>, page: int, a: Action): (p: int)
    ensures shown.None? || a.Search? || a.Select? ==> p == page
    ensures shown.Some? && a.Prev? ==> p == (if shown.value.prevDisabled then page else shown.value.prev)
    ensures shown.Some? && a.Next? ==> p == (if shown.value.nextDisabled then page else shown.value.next)
    ensures a.GoTo? && p != page ==> shown.Some? && PageButton(p, false) in shown.value.items
    ensures a.GoTo? && shown.Some? && PageButton(a.page, a.page == page) in shown.value.items ==> p == a.page
  {
    match a
    case Prev => if shown.Some? && !shown.value.prevDisabled then shown.value.prev else page
    case Next => if shown.Some? && !shown.value.nextDisabled then shown.value.next else page
    case GoTo(k) => if shown.Some? && PageButton(k, k == page) in shown.value.items then k else page
    case _ => page
  }

  /** On a page in `1..total`, an arrow click moves exactly one page, unless it is on the first or last page. */
  lemma ArrowsMoveOnePage(total: int, current: int)
    requires 1 <= current <= total
    ensures current >= 2 ==> Navigate(Some(BuildPager(total, current)), current, Prev) == current - 1
    ensures current == 1 ==> Navigate(Some(BuildPager(total, current)), current, Prev) == current
    ensures current <= total - 1 ==> Navigate(Some(BuildPager(total, current)), current, Next) == current + 1
    ensures current == total ==> Navigate(Some(BuildPager(total, current)), current, Next) == current
  {
  }

  /**
   * The pager never leads below page 1, and from a page in `1..total` it
   * leads only to pages in `1..total`.
   */
  lemma NavigateInRange(total: int, current: int, a: Action)
    requires total >= 1 && current >= 1
    ensures Navigate(Some(BuildPager(total, current)), current, a) >= 1
    ensures current <= total ==> Navigate(Some(BuildPager(total, current)), current, a) <= total
  {
    if a.GoTo? {
      var w := PageWindow(total, current);
      if PageButton(a.page, a.page == current) in w {
        var j :| 0 <= j < |w| && w[j] == PageButton(a.page, a.page == current);
      }
    }
  }

  /** One rendering of a list view. */
  datatype Screen<T> = Screen(count: nat, cards: seq<T>, notice: Option<string>, pager: Option<Pager>)
}
