/**
 * The event list: search over title, description and location, a category
 * chip, six events per page, the pager shown only when more than one page
 * of events matches, and NO page reset when the search or category changes.
 * Also the card's badge colour, category label, detail link and image.
 */
module Events {
  import opened Opt
  import opened Text
  import opened ListView
  import ImageFallback

  /** An event record; `category` is "past", "present" or "future" in the listed data. */
  datatype Event = Event(
    id: string,
    title: string,
    date: string,
    location: string,
    description: string,
    imageUrl: string,
    category: string)

  const EventsPerPage: nat := 6
  const Noun: string := "events"

  /**
   * An event is listed when the case-folded search text occurs in its
   * case-folded title, description or location, and the category chip is
   * "all" or names its category.
   */
  predicate EventMatches(e: Event, term: string, selector: string, fold: char -> char) {
    var t := Map(term, fold);
    (Contains(Map(e.title, fold), t) || Contains(Map(e.description, fold), t) || Contains(Map(e.location, fold), t))
    && SelectorMatches(selector, e.category)
  }

  /** The events that match, in their listed order. */
  function FilterEvents(events: seq<Event>, term: string, selector: string, fold: char -> char): (r: seq<Event>)
    ensures forall e :: e in r <==> e in events && EventMatches(e, term, selector, fold)
    ensures IsSubsequence(r, events)
    ensures forall e :: multiset(r)[e] == if EventMatches(e, term, selector, fold) then multiset(events)[e] else 0
    ensures term == "" && selector == AllSelector ==> r == events
  {
    var keep := (e: Event) => EventMatches(e, term, selector, fold);
    FilterIsSubsequence(events, keep);
    FilterCounts(events, keep);
    if term == "" && selector == AllSelector then
      FilterKeepsAll(events, keep);
      Filter(events, keep)
    else
      Filter(events, keep)
  }

  /**
   * Whatever the case mapping, an event whose title, description or location
   * contains the search text verbatim is listed under "all".
   */
  lemma VerbatimFieldFound(events: seq<Event>, e: Event, term: string, fold: char -> char)
    requires e in events
    requires Contains(e.title, term) || Contains(e.description, term) || Contains(e.location, term)
    ensures e in FilterEvents(events, term, AllSelector, fold)
  {
    if Contains(e.title, term) {
      MapPreservesContains(e.title, term, fold);
    } else if Contains(e.description, term) {
      MapPreservesContains(e.description, term, fold);
    } else {
      MapPreservesContains(e.location, term, fold);
    }
  }

  /** The number of pages of matching events. */
  function PageCount(events: seq<Event>, q: Query, fold: char -> char): nat {
    TotalPages(|FilterEvents(events, q.term, q.selector, fold)|, EventsPerPage)
  }

  /**
   * One rendering: the "N events" count, the cards of the current page, the
   * empty-result message exactly when nothing matches, and the pager exactly
   * when more than one page of events matches.
   */
  function Render(events: seq<Event>, q: Query, fold: char -> char): (s: Screen<Event>)
    ensures var filtered := FilterEvents(events, q.term, q.selector, fold);
      && s.count == |filtered|
      && s.cards == PageOf(filtered, q.page, EventsPerPage)
      && (s.notice.Some? <==> filtered == [])
      && (s.notice.Some? ==> s.notice.value == NoticeText(Noun, ChooseNotice(q.term, q.selector)))
      && (s.pager.Some? <==> PageCount(events, q, fold) >= 2)
      && (s.pager.Some? ==> s.pager.value == BuildPager(PageCount(events, q, fold), q.page))
  {
    var filtered := FilterEvents(events, q.term, q.selector, fold);
    Screen(
      |filtered|,
      PageOf(filtered, q.page, EventsPerPage),
      if filtered == [] then Some(NoticeText(Noun, ChooseNotice(q.term, q.selector))) else None,
      if |filtered| > EventsPerPage then Some(BuildPager(PageCount(events, q, fold), q.page)) else None)
  }

  /**
   * One user action. The search text and the category are replaced without
   * touching the page; the arrows and page buttons exist only while the
   * pager is shown, and a disabled arrow does nothing.
   */
  function Step(events: seq<Event>, fold: char -> char, q: Query, a: Action): (q': Query)
    ensures a.Search? ==> q' == Query(a.term, q.selector, q.page)
    ensures a.Select? ==> q' == Query(q.term, a.selector, q.page)
    ensures !a.Search? && !a.Select? ==> q'.term == q.term && q'.selector == q.selector
    ensures !a.Search? && !a.Select? && Render(events, q, fold).pager.None? ==> q' == q
    ensures !a.Search? && !a.Select? ==> q' == q.(page := Navigate(Render(events, q, fold).pager, q.page, a))
  {
    var shown := Render(events, q, fold).pager;
    match a
    case Search(t) => q.(term := t)
    case Select(f) => q.(selector := f)
    case Prev | Next | GoTo(_) => q.(page := Navigate(shown, q.page, a))
  }

  /** A run of actions from a given state. */
  function Run(events: seq<Event>, fold: char -> char, q: Query, actions: seq<Action>): Query
    decreases |actions|
  {
    if actions == [] then q else Run(events, fold, Step(events, fold, q, actions[0]), actions[1..])
  }

  /** The page never drops below 1, whatever the user does. */
  lemma {:induction false} RunKeepsPagePositive(events: seq<Event>, fold: char -> char, q: Query, actions: seq<Action>)
    requires q.page >= 1
    ensures Run(events, fold, q, actions).page >= 1
    decreases |actions|
  {
    if actions != [] {
      var q' := Step(events, fold, q, actions[0]);
      if Render(events, q, fold).pager.Some? {
        NavigateInRange(PageCount(events, q, fold), q.page, actions[0]);
      }
      RunKeepsPagePositive(events, fold, q', actions[1..]);
    }
  }

  /**
   * A current page past the last one, while something still matches, shows
   * an empty grid with neither cards nor the empty-result message.
   */
  lemma StalePageShowsNothing(events: seq<Event>, fold: char -> char, q: Query)
    requires q.page > PageCount(events, q, fold)
    requires FilterEvents(events, q.term, q.selector, fold) != []
    ensures Render(events, q, fold).cards == []
    ensures Render(events, q, fold).notice.None?
    ensures Render(events, q, fold).count > 0
  {
    PageEmptyIff(FilterEvents(events, q.term, q.selector, fold), EventsPerPage, q.page);
  }

  /**
   * On a stale page while the pager is drawn, "next" is the way out: it jumps
   * straight back to the last page, however far past it the current page is.
   */
  lemma StalePageNextGoesToLast(events: seq<Event>, fold: char -> char, q: Query)
    requires PageCount(events, q, fold) >= 2
    requires q.page > PageCount(events, q, fold)
    ensures Render(events, q, fold).pager.Some?
    ensures Step(events, fold, q, Next).page == PageCount(events, q, fold)
  {
  }

  /** With two pages of matches, "next" on the first render goes to page 2. */
  lemma NextFromFirstOfTwoPages(events: seq<Event>, fold: char -> char)
    requires PageCount(events, InitialQuery, fold) == 2
    ensures Step(events, fold, InitialQuery, Next) == Query("", AllSelector, 2)
  {
  }

  /** Picking "past" keeps exactly the past events when nothing is being searched for. */
  lemma SelectPast(past: seq<Event>, future: Event, fold: char -> char)
    requires forall i :: 0 <= i < |past| ==> past[i].category == "past"
    requires future.category == "future"
    ensures FilterEvents(past + [future], "", "past", fold) == past
  {
    var keep := (e: Event) => EventMatches(e, "", "past", fold);
    FilterAppend(past, [future], keep);
    FilterKeepsAll(past, keep);
    assert !keep(future);
    assert Filter([future], keep) == [];
  }

  /**
   * The stale page is reachable and cannot be left through the pager: with
   * six past events and one future one, going to page 2 and then picking
   * "past" leaves page 2 current while one page of six events matches; the
   * grid is empty, no message is shown, and no pager is drawn.
   */
  lemma StalePageReachable(past: seq<Event>, future: Event, fold: char -> char)
    requires |past| == 6
    requires forall i :: 0 <= i < |past| ==> past[i].category == "past"
    requires future.category == "future"
    ensures var events := past + [future];
      var q := Run(events, fold, InitialQuery, [Next, Select("past")]);
      var s := Render(events, q, fold);
      q.page == 2 && s.count == 6 && s.cards == [] && s.notice.None? && s.pager.None?
  {
    var events := past + [future];
    SevenEventsTwoPages(events, fold);
    NextFromFirstOfTwoPages(events, fold);
    var q1 := Query("", AllSelector, 2);
    SelectPast(past, future, fold);
    var q2 := Step(events, fold, q1, Select("past"));
    assert q2 == Query("", "past", 2);
    RunTwo(events, fold, InitialQuery, Next, Select("past"));
    StalePageShowsNothing(events, fold, q2);
  }

  lemma SevenEventsTwoPages(events: seq<Event>, fold: char -> char)
    requires |events| == 7
    ensures PageCount(events, InitialQuery, fold) == 2
  {
  }

  lemma RunTwo(events: seq<Event>, fold: char -> char, q: Query, a: Action, b: Action)
    ensures Run(events, fold, q, [a, b]) == Step(events, fold, Step(events, fold, q, a), b)
  {
    var q1 := Step(events, fold, q, a);
    assert [a, b][1..] == [b];
    assert Run(events, fold, q, [a, b]) == Run(events, fold, q1, [b]);
    assert [b][1..] == [];
    assert Run(events, fold, q1, [b]) == Run(events, fold, Step(events, fold, q1, b), []);
  }

  // ---------------------------------------------------------------------------
  // Event cards
  // ---------------------------------------------------------------------------

  const GrayBadge: string := "bg-gray-500 text-white"
  const GreenBadge: string := "bg-green-500 text-white"
  const BlueBadge: string := "bg-blue-500 text-white"

  /** Badge classes: green for present events, blue for future ones, gray for past ones and anything else. */
  function BadgeColor(category: string): (c: string)
    ensures c == GreenBadge <==> category == "present"
    ensures c == BlueBadge <==> category == "future"
    ensures c == GrayBadge <==> category != "present" && category != "future"
  {
    assert GrayBadge[4] == 'r' && GreenBadge[4] == 'r' && BlueBadge[4] == 'l';
    assert GrayBadge[5] == 'a' && GreenBadge[5] == 'e';
    match category
    case "past" => GrayBadge
    case "present" => GreenBadge
    case "future" => BlueBadge
    case _ => GrayBadge
  }

  /**
   * `category.charAt(0).toUpperCase() + category.slice(1)`: the first
   * character case-mapped, the rest unchanged; the empty category stays empty.
   */
  function CategoryLabel(category: string, upper: char -> char): (caption: string)
    ensures |caption| == |category|
    ensures category != "" ==> caption[0] == upper(category[0]) && caption[1..] == category[1..]
  {
    if category == "" then "" else [upper(category[0])] + category[1..]
  }

  const EventsPathPrefix: string := "/events/"

  /** The card links to the event's own page; different events get different links. */
  function DetailLink(id: string): (href: string)
    ensures |href| == |EventsPathPrefix| + |id|
    ensures href[..|EventsPathPrefix|] == EventsPathPrefix && href[|EventsPathPrefix|..] == id
  {
    EventsPathPrefix + id
  }

  /** The link determines the event id. */
  lemma DetailLinkInjective(id1: string, id2: string)
    ensures DetailLink(id1) == DetailLink(id2) <==> id1 == id2
  {
  }

  /** Every event card shows this image, whatever the event's own image is. */
  const CardImageUrl: string := "/images/10613.png"

  /** What one event card renders. */
  datatype EventCard = EventCard(href: string, badge: string, caption: string, imageSrc: string, imageAlt: string, priority: bool)

  /**
   * The card at position `index` of the page: link, badge and label from the
   * event; the fixed card image, falling back to the event placeholder after
   * a load error; priority loading for the first card only.
   */
  function Card(e: Event, index: nat, upper: char -> char, signals: seq<ImageFallback.Signal>): (c: EventCard)
    ensures c.href == DetailLink(e.id)
    ensures c.imageSrc == (if ImageFallback.LoadError in signals then ImageFallback.EventPlaceholder else CardImageUrl)
    ensures c.imageSrc != e.imageUrl || e.imageUrl == CardImageUrl || e.imageUrl == ImageFallback.EventPlaceholder
    ensures c.imageAlt == e.title
    ensures c.badge == BadgeColor(e.category) && c.caption == CategoryLabel(e.category, upper)
    ensures c.priority <==> index == 0
  {
    var props := ImageFallback.ImageProps(CardImageUrl, e.title, None, Some(index == 0), None);
    var shown := ImageFallback.EventCardImage(props, signals);
    EventCard(DetailLink(e.id), BadgeColor(e.category), CategoryLabel(e.category, upper), shown.src, props.alt, index == 0)
  }

  /** The listed categories are labelled "Past", "Present" and "Future". */
  lemma CategoryLabelExamples()
    ensures CategoryLabel("past", AsciiUpper) == "Past"
    ensures CategoryLabel("present", AsciiUpper) == "Present"
    ensures CategoryLabel("future", AsciiUpper) == "Future"
  {
  }
}
