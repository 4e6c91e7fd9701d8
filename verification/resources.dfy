/**
 * The video list: search over titles, a platform chip, eight videos per
 * page, the pager shown whenever anything matches, and the page reset to 1
 * whenever the search text or the platform changes. Also the per-video link
 * and thumbnail and the thumbnail's fallback.
 */
module Resources {
  import opened Opt
  import opened Text
  import opened ListView
  import ImageFallback

  datatype Platform = YouTube | Facebook

  /** The platform as the selector chips name it. */
  function PlatformName(p: Platform): (name: string)
    ensures name != AllSelector
  {
    match p
    case YouTube => "youtube"
    case Facebook => "facebook"
  }

  datatype Video = Video(title: string, videoId: string, platform: Platform)

  const VideosPerPage: nat := 8
  const Noun: string := "videos"

  /**
   * A video is listed when its title, case-folded, contains the case-folded
   * search text and the platform chip is "all" or names its platform.
   */
  predicate VideoMatches(v: Video, term: string, selector: string, fold: char -> char) {
    Contains(Map(v.title, fold), Map(term, fold)) && SelectorMatches(selector, PlatformName(v.platform))
  }

  /** The videos that match, in their listed order. */
  function FilterVideos(videos: seq<Video>, term: string, selector: string, fold: char -> char): (r: seq<Video>)
    ensures forall v :: v in r <==> v in videos && VideoMatches(v, term, selector, fold)
    ensures IsSubsequence(r, videos)
    ensures forall v :: multiset(r)[v] == if VideoMatches(v, term, selector, fold) then multiset(videos)[v] else 0
    ensures term == "" && selector == AllSelector ==> r == videos
  {
    var keep := (v: Video) => VideoMatches(v, term, selector, fold);
    FilterIsSubsequence(videos, keep);
    FilterCounts(videos, keep);
    if term == "" && selector == AllSelector then
      FilterKeepsAll(videos, keep);
      Filter(videos, keep)
    else
      Filter(videos, keep)
  }

  /** Whatever the case mapping, a video whose title contains the search text verbatim is listed under "all". */
  lemma VerbatimTitleFound(videos: seq<Video>, v: Video, term: string, fold: char -> char)
    requires v in videos && Contains(v.title, term)
    ensures v in FilterVideos(videos, term, AllSelector, fold)
  {
    MapPreservesContains(v.title, term, fold);
  }

  /** The number of pages of matching videos. */
  function PageCount(videos: seq<Video>, q: Query, fold: char -> char): nat {
    TotalPages(|FilterVideos(videos, q.term, q.selector, fold)|, VideosPerPage)
  }

  /**
   * One rendering: the "N videos" count, the cards of the current page, the
   * empty-result message exactly when nothing matches, and the pager exactly
   * when something does.
   */
  function Render(videos: seq<Video>, q: Query, fold: char -> char): (s: Screen<Video>)
    ensures var filtered := FilterVideos(videos, q.term, q.selector, fold);
      && s.count == |filtered|
      && s.cards == PageOf(filtered, q.page, VideosPerPage)
      && (s.notice.Some? <==> filtered == [])
      && (s.notice.Some? ==> s.notice.value == NoticeText(Noun, ChooseNotice(q.term, q.selector)))
      && (s.pager.Some? <==> filtered != [])
      && (s.pager.Some? ==> s.pager.value == BuildPager(PageCount(videos, q, fold), q.page))
  {
    var filtered := FilterVideos(videos, q.term, q.selector, fold);
    Screen(
      |filtered|,
      PageOf(filtered, q.page, VideosPerPage),
      if filtered == [] then Some(NoticeText(Noun, ChooseNotice(q.term, q.selector))) else None,
      if filtered != [] then Some(BuildPager(PageCount(videos, q, fold), q.page)) else None)
  }

  /**
   * One user action. A new search text or platform resets the page to 1
   * (setting the value it already has changes nothing, so nothing resets);
   * the arrows and page buttons exist only while the pager is shown, and a
   * disabled arrow does nothing.
   */
  function Step(videos: seq<Video>, fold: char -> char, q: Query, a: Action): (q': Query)
    ensures a.Search? ==> q'.term == a.term && q'.selector == q.selector
    ensures a.Select? ==> q'.selector == a.selector && q'.term == q.term
    ensures (a.Search? && a.term != q.term) || (a.Select? && a.selector != q.selector) ==> q'.page == 1
    ensures !a.Search? && !a.Select? ==> q'.term == q.term && q'.selector == q.selector
    ensures !a.Search? && !a.Select? ==> q'.page == Navigate(Render(videos, q, fold).pager, q.page, a)
    ensures a.Search? && a.term == q.term ==> q' == q
    ensures a.Select? && a.selector == q.selector ==> q' == q
  {
    var shown := Render(videos, q, fold).pager;
    match a
    case Search(t) => if t == q.term then q else Query(t, q.selector, 1)
    case Select(f) => if f == q.selector then q else Query(q.term, f, 1)
    case Prev | Next | GoTo(_) => q.(page := Navigate(shown, q.page, a))
  }

  /** A run of actions from a given state. */
  function Run(videos: seq<Video>, fold: char -> char, q: Query, actions: seq<Action>): Query
    decreases |actions|
  {
    if actions == [] then q else Run(videos, fold, Step(videos, fold, q, actions[0]), actions[1..])
  }

  /** The current page is a real page (page 1 when nothing matches). */
  ghost predicate PageInRange(videos: seq<Video>, fold: char -> char, q: Query) {
    1 <= q.page <= Max(1, PageCount(videos, q, fold))
  }

  /** Every action keeps the current page within range. */
  lemma StepKeepsPageInRange(videos: seq<Video>, fold: char -> char, q: Query, a: Action)
    requires PageInRange(videos, fold, q)
    ensures PageInRange(videos, fold, Step(videos, fold, q, a))
  {
    var q' := Step(videos, fold, q, a);
    if !a.Search? && !a.Select? {
      assert PageCount(videos, q', fold) == PageCount(videos, q, fold);
      NavigationKeepsPageInRange(videos, fold, q, a);
    }
  }

  /** The arrows and page buttons move only between real pages. */
  lemma NavigationKeepsPageInRange(videos: seq<Video>, fold: char -> char, q: Query, a: Action)
    requires PageInRange(videos, fold, q)
    requires !a.Search? && !a.Select?
    ensures 1 <= Step(videos, fold, q, a).page <= Max(1, PageCount(videos, q, fold))
  {
    var shown := Render(videos, q, fold).pager;
    if shown.Some? {
      NavigateInRange(PageCount(videos, q, fold), q.page, a);
    }
  }

  /** From the first render on, whatever the user does, the current page stays within range. */
  lemma {:induction false} RunKeepsPageInRange(videos: seq<Video>, fold: char -> char, q: Query, actions: seq<Action>)
    requires PageInRange(videos, fold, q)
    ensures PageInRange(videos, fold, Run(videos, fold, q, actions))
    decreases |actions|
  {
    if actions != [] {
      StepKeepsPageInRange(videos, fold, q, actions[0]);
      RunKeepsPageInRange(videos, fold, Step(videos, fold, q, actions[0]), actions[1..]);
    }
  }

  /**
   * Reachable screens are never silently empty: whatever the user did since
   * the first render, either some card is shown or the empty-result message is.
   */
  lemma NeverSilentlyEmpty(videos: seq<Video>, fold: char -> char, actions: seq<Action>)
    ensures var s := Render(videos, Run(videos, fold, InitialQuery, actions), fold);
      s.cards != [] || s.notice.Some?
  {
    RunKeepsPageInRange(videos, fold, InitialQuery, actions);
    var q := Run(videos, fold, InitialQuery, actions);
    var filtered := FilterVideos(videos, q.term, q.selector, fold);
    if filtered != [] {
      PageEmptyIff(filtered, VideosPerPage, q.page);
    }
  }

  // ---------------------------------------------------------------------------
  // Video cards
  // ---------------------------------------------------------------------------

  const FacebookPrefix: string := "https://fb.watch/"
  const YouTubePrefix: string := "https://www.youtube.com/watch?v="
  const YouTubeThumbPrefix: string := "https://img.youtube.com/vi/"
  const YouTubeThumbSuffix: string := "/hqdefault.jpg"
  const FacebookThumbnail: string := "/images/facebook-video-placeholder.svg"

  /** An omitted platform means YouTube. */
  function PlatformOrDefault(p: Option<Platform>): Platform {
    p.GetOr(YouTube)
  }

  /** The link a card opens. */
  function VideoUrl(platform: Option<Platform>, videoId: string): (url: string)
    ensures PlatformOrDefault(platform) == Facebook ==> url == FacebookPrefix + videoId + "/"
    ensures PlatformOrDefault(platform) == YouTube ==> url == YouTubePrefix + videoId
  {
    if platform == Some(Facebook) then FacebookPrefix + videoId + "/" else YouTubePrefix + videoId
  }

  /** The thumbnail a card shows before any load error. */
  function ThumbnailUrl(platform: Option<Platform>, videoId: string): (url: string)
    ensures PlatformOrDefault(platform) == Facebook ==> url == FacebookThumbnail
    ensures PlatformOrDefault(platform) == YouTube ==> url == YouTubeThumbPrefix + videoId + YouTubeThumbSuffix
  {
    if platform == Some(Facebook) then FacebookThumbnail else YouTubeThumbPrefix + videoId + YouTubeThumbSuffix
  }

  /** Dropping a known prefix from a concatenation. */
  lemma DropPrefix(p: string, a: string, b: string)
    requires p + a == p + b
    ensures a == b
  {
    assert a == (p + a)[|p|..];
    assert b == (p + b)[|p|..];
  }

  /** Different videos get different links: the link determines the platform and the id. */
  lemma VideoUrlInjective(p1: Option<Platform>, id1: string, p2: Option<Platform>, id2: string)
    requires VideoUrl(p1, id1) == VideoUrl(p2, id2)
    ensures PlatformOrDefault(p1) == PlatformOrDefault(p2) && id1 == id2
  {
    if PlatformOrDefault(p1) == PlatformOrDefault(p2) {
      if PlatformOrDefault(p1) == Facebook {
        var a := FacebookPrefix + id1 + "/";
        var b := FacebookPrefix + id2 + "/";
        assert a[..|a| - 1] == FacebookPrefix + id1;
        assert b[..|b| - 1] == FacebookPrefix + id2;
        DropPrefix(FacebookPrefix, id1, id2);
      } else {
        DropPrefix(YouTubePrefix, id1, id2);
      }
    } else {
      LinksDifferAcrossPlatforms(id1, id2);
      LinksDifferAcrossPlatforms(id2, id1);
    }
  }

  /** A Facebook link never equals a YouTube link: they differ in their ninth character. */
  lemma LinksDifferAcrossPlatforms(a: string, b: string)
    ensures FacebookPrefix + a + "/" != YouTubePrefix + b
  {
    assert (FacebookPrefix + a + "/")[8] == 'f';
    assert (YouTubePrefix + b)[8] == 'w';
  }

  /** A YouTube thumbnail identifies its video; a Facebook one does not depend on the video at all. */
  lemma ThumbnailIdentifiesYouTubeVideo(id1: string, id2: string)
    ensures ThumbnailUrl(Some(YouTube), id1) == ThumbnailUrl(Some(YouTube), id2) <==> id1 == id2
    ensures ThumbnailUrl(Some(Facebook), id1) == ThumbnailUrl(Some(Facebook), id2)
  {
    if ThumbnailUrl(Some(YouTube), id1) == ThumbnailUrl(Some(YouTube), id2) {
      var a := YouTubeThumbPrefix + id1 + YouTubeThumbSuffix;
      var b := YouTubeThumbPrefix + id2 + YouTubeThumbSuffix;
      assert a[..|a| - |YouTubeThumbSuffix|] == YouTubeThumbPrefix + id1;
      assert b[..|b| - |YouTubeThumbSuffix|] == YouTubeThumbPrefix + id2;
      DropPrefix(YouTubeThumbPrefix, id1, id2);
    }
  }

  /** What one video card renders. */
  datatype VideoCard = VideoCard(href: string, thumbnail: string, alt: string, priority: bool)

  /**
   * The card at position `index` of the page: the thumbnail falls back to the
   * video placeholder after a load error and stays there; only the first card
   * of a page is loaded with priority.
   */
  function Card(v: Video, index: nat, signals: seq<ImageFallback.Signal>): (c: VideoCard)
    ensures c.href == VideoUrl(Some(v.platform), v.videoId)
    ensures c.thumbnail == (if ImageFallback.LoadError in signals then ImageFallback.VideoPlaceholder
                            else ThumbnailUrl(Some(v.platform), v.videoId))
    ensures c.alt == v.title
    ensures c.priority <==> index == 0
  {
    var thumb := ImageFallback.Run(
      ImageFallback.Instance(
        ImageFallback.ImageProps(ThumbnailUrl(Some(v.platform), v.videoId), v.title, None, Some(index == 0), None),
        ThumbnailUrl(Some(v.platform), v.videoId)),
      ImageFallback.VideoPlaceholder, signals);
    VideoCard(VideoUrl(Some(v.platform), v.videoId), thumb.shown, v.title, index == 0)
  }

  // ---------------------------------------------------------------------------
  // Examples
  // ---------------------------------------------------------------------------

  const SymposiumPrefix: string := "Simposium "
  const SymposiumTopic: string := "Epilepsy"
  const SymposiumRest: string := " 101: Diagnosis dan Tata Laksana Epilepsi"

  /** The title of the first listed video. */
  const SymposiumTitle: string := SymposiumPrefix + SymposiumTopic + SymposiumRest

  /** Searching is case-insensitive: "epilepsy" and "EPILEPSY" both find the symposium video. */
  lemma CaseInsensitiveSearchExample()
    ensures VideoMatches(Video(SymposiumTitle, "ft5bd96wom", Facebook), "epilepsy", AllSelector, AsciiLower)
    ensures VideoMatches(Video(SymposiumTitle, "ft5bd96wom", Facebook), "EPILEPSY", "facebook", AsciiLower)
    ensures !VideoMatches(Video(SymposiumTitle, "ft5bd96wom", Facebook), "epilepsy", "youtube", AsciiLower)
  {
    MapAppend(SymposiumPrefix + SymposiumTopic, SymposiumRest, AsciiLower);
    MapAppend(SymposiumPrefix, SymposiumTopic, AsciiLower);
    assert Map(SymposiumTopic, AsciiLower) == "epilepsy";
    assert Map("epilepsy", AsciiLower) == "epilepsy";
    assert Map("EPILEPSY", AsciiLower) == "epilepsy";
    ContainsMiddle(Map(SymposiumPrefix, AsciiLower), Map(SymposiumTopic, AsciiLower), Map(SymposiumRest, AsciiLower));
  }
}
