# Neuroscience Institute site: list views, carousel and image fallbacks in Dafny

This project models the small amount of logic in the Neuroscience Institute
website. Almost everything else on the site is static content and layout.

- **Video list** (`Resources`) and **event list** (`Events`). Each one filters
  hard-coded records with a case-insensitive substring search and a category
  or platform chip, where "all" matches everything. It cuts the result into
  fixed-size pages, 8 videos or 6 events. It works out the previous/next
  targets and which page numbers show as buttons or as "...". When nothing
  matches it picks one of three messages. The two lists share the generic
  module `ListView` and keep their real differences:
  - videos are searched by title; events are searched by title, description
    and location;
  - the video list puts the page back to 1 when the search text or platform
    changes; the event list never does;
  - the video pager shows whenever anything matches; the event pager shows
    only when more than 6 events match.
- **Card helpers**: the video link and thumbnail for each platform, the event
  badge colour, the capitalised category label, and the event detail link.
- **Team initials**: `name.split(" ").map(n => n[0]).join("")`.
- **Hero carousel**: a timer tick advances the index modulo the number of
  images, and clicking an indicator jumps straight to that image.
- **Image fallback wrappers** (`EventCardImage`, `ResourceCardImage`,
  `EventImage`, `RelatedEventImage`, `GalleryImage`) and the video
  thumbnail. Each one is a one-way, two-state machine: it shows the original
  source, and after a load error it shows a fixed placeholder forever.
  `RelatedEventImage` and `GalleryImage` are identical in the source, so their
  models are identical too.

Modules, one per file: `Opt` (optional values), `Text` (substring test and
case mapping), `ListView` (filter, pages, pager, page window, empty-result
message), `Resources`, `Events`, `Team`, `Hero` and `ImageFallback`.

Case mapping (`toLowerCase` / `toUpperCase`) is a parameter `char -> char`.
Every property holds for any per-character mapping. `Text.AsciiLower` and
`Text.AsciiUpper` are the concrete mappings used in the examples. The
browser's timer, image loading and user input are modelled as explicit event
sequences: `Hero.HeroEvent`, `ImageFallback.Signal` and `ListView.Action`.

Two details of the page reset:
- **Event list.** Unlike the video list, the event list never resets the page
  when the search text or category changes. `Events.StalePageReachable` shows
  a state you can reach this way. It shows no cards, no message and no pager,
  so the pager cannot get you out of it. When more than 6 events still match,
  the pager is drawn, and its next arrow jumps back to the last page
  (`Events.StalePageNextGoesToLast`).
- **Video list.** The reset only fires when the value actually changes.
  Clicking the chip that is already selected keeps the current page.

## Model

| member | source | states |
|---|---|---|
| Text.ContainsIff | src/components/sections/Resources.tsx:336-338 | The recursive `includes` test holds exactly when the needle occurs at some offset of the haystack. |
| Text.Contains | src/components/sections/Resources.tsx:336-338 | `includes`: the empty needle is always found, and a needle is only found in a haystack at least as long. Text.ContainsIff is its offset characterisation. |
| ListView.Filter | src/components/sections/Resources.tsx:335-342 | A record is in the filtered list exactly when it is in the input and accepted. |
| ListView.FilterIsSubsequence | src/components/sections/Resources.tsx:335-342 | Filtering never reorders: the result is a subsequence of the input. |
| ListView.FilterCounts | src/components/sections/Resources.tsx:335-342 | Each accepted record keeps its multiplicity, and each rejected record drops out entirely. |
| ListView.FilterKeepsAll | src/components/sections/Resources.tsx:335-342 | When every record is accepted, the filter returns its input unchanged. |
| ListView.FilterAppend | src/components/sections/Events.tsx:364-374 | Filtering a concatenation gives the concatenation of the filtered parts, so order is kept block by block. |
| ListView.FilterEmptyIff | src/components/sections/Resources.tsx:762 | The filtered list is empty exactly when no record is accepted. |
| ListView.TotalPages | src/components/sections/Resources.tsx:345 | The page count `t` is the least one whose pages cover the list: `n <= t*size` and `(t-1)*size < n`, with 0 pages exactly for 0 records. |
| ListView.TotalPagesIsMathCeil | src/components/sections/Events.tsx:377 | The integer page count equals `Math.ceil(n / size)` computed on reals. |
| ListView.JsSlice | src/components/sections/Resources.tsx:348-351 | `slice` with non-negative bounds is the sub-range clamped to the list, and an empty or inverted range gives nothing. |
| ListView.PageOf | src/components/sections/Resources.tsx:346-351 | Page `p >= 1` holds `min(size, max(0, n-(p-1)*size))` records, and its i-th record is record `(p-1)*size + i` of the list. |
| ListView.PagesCoverList | src/components/sections/Resources.tsx:345-351 | Concatenating pages 1 to TotalPages gives back the whole filtered list. |
| ListView.PageEmptyIff | src/components/sections/Events.tsx:377-383 | A page numbered 1 or more is empty exactly when it lies past the last page. |
| ListView.PageWindow | src/components/sections/Resources.tsx:806-807 | The page bar lists page numbers in strictly ascending order, all within 1 to total. |
| ListView.PageWindowRule | src/components/sections/Resources.tsx:806-842 | Page k is a button iff it is first, last or within one of the current page. Otherwise it is "..." iff it is two away and strictly between the ends. Only the current page's button is highlighted. |
| ListView.PageWindowSize | src/components/sections/Events.tsx:644-680 | The bar never shows more than 5 buttons or more than 2 "..." markers, so never more than 7 entries. |
| ListView.BuildPager | src/components/sections/Resources.tsx:780-846 | Previous is disabled exactly on page 1 and next exactly on the last page. From a page in 1 to total, an enabled arrow moves exactly one page and both targets stay within 1 to total. From a page past the last one, next goes straight to the last page. |
| ListView.Navigate | src/components/sections/Resources.tsx:780-846 | While no pager is drawn, clicks keep the page. An enabled arrow goes to its target and a disabled one keeps the page. Clicking a page button the bar shows goes to that page, and a page click that moves lands on such a button. |
| ListView.ArrowsMoveOnePage | src/components/sections/Events.tsx:618-684 | On a page in 1 to total, previous goes to the page before unless on page 1, and next goes to the page after unless on the last page. |
| ListView.NavigateInRange | src/components/sections/Events.tsx:618-684 | The pager never leads below page 1. From a page in 1 to total, it leads only to pages in 1 to total. |
| ListView.ChooseNotice | src/components/sections/Resources.tsx:765-769 | The message names the selector and the term when both are set, only the term when no selector is set, and only the selector when the term is empty. |
| ListView.NoticeText | src/components/sections/Resources.tsx:765-769 | Every message starts with "No " and ends with its form's closing sentence: "Try a different search or filter." with a selector and a term, "Try a different search term." with a term only, and "available." without a term. |
| ListView.NoticeEchoesQuery | src/components/sections/Events.tsx:603-607 | The message quotes any non-empty term, and names the selector when one is set or the term is empty. |
| Resources.FilterVideos | src/components/sections/Resources.tsx:335-342 | A video is listed iff its case-folded title contains the case-folded term and the chip is "all" or its platform. Each matching record appears as often as in the input and others not at all. The listed order is kept, and an empty term with "all" lists every video. |
| Resources.CaseInsensitiveSearchExample | src/components/sections/Resources.tsx:241-245 | "epilepsy" and "EPILEPSY" both find "Simposium Epilepsy 101: Diagnosis dan Tata Laksana Epilepsi", and the youtube chip hides that Facebook video. |
| Resources.VerbatimTitleFound | src/components/sections/Resources.tsx:335-342 | Under any case mapping, a video whose title contains the search text verbatim is listed under "all". |
| Resources.Render | src/components/sections/Resources.tsx:689-776 | The count label is the number of matches and the grid shows the current page. The message shows iff nothing matches, and the pager shows iff something matches. |
| Resources.Step | src/components/sections/Resources.tsx:353-359 | A changed search text or platform sets the page to 1, and setting the value already set changes nothing. Arrows and page buttons leave the search and chip alone and move the page as the drawn pager directs. |
| Resources.RunKeepsPageInRange | src/components/sections/Resources.tsx:353-359 | After any sequence of user actions, the current page stays within 1 to max(1, TotalPages). |
| Resources.NeverSilentlyEmpty | src/components/sections/Resources.tsx:762-776 | Every reachable video screen shows at least one card or the empty-result message. |
| Resources.VideoUrl | src/components/sections/Resources.tsx:27-30 | Facebook videos link to `https://fb.watch/{id}/`. Other videos, including those with no platform given, link to `https://www.youtube.com/watch?v={id}`. |
| Resources.VideoUrlInjective | src/components/sections/Resources.tsx:20-30 | The link determines the platform (missing means YouTube) and the video id. |
| Resources.ThumbnailUrl | src/components/sections/Resources.tsx:33-36 | Facebook videos get the local Facebook placeholder, and YouTube videos get `https://img.youtube.com/vi/{id}/hqdefault.jpg`. |
| Resources.ThumbnailIdentifiesYouTubeVideo | src/components/sections/Resources.tsx:33-36 | YouTube thumbnails are equal iff the ids are equal, and Facebook thumbnails never depend on the id. |
| Resources.Card | src/components/sections/Resources.tsx:48-64 | A card links to its video with its title as alt text, and only the first card of a page loads with priority. The thumbnail becomes the video placeholder after any load error and stays there. |
| Events.FilterEvents | src/components/sections/Events.tsx:364-374 | An event is listed iff the case-folded term occurs in its title, description or location, and the chip is "all" or its category. Each matching record appears as often as in the input. Order is kept, and an empty term with "all" lists every event. |
| Events.VerbatimFieldFound | src/components/sections/Events.tsx:364-374 | Under any case mapping, an event whose title, description or location contains the search text verbatim is listed under "all". |
| Events.Render | src/components/sections/Events.tsx:492-614 | The count label is the number of matches and the grid shows the current page. The message shows iff nothing matches. The pager shows iff there are at least two pages, that is, more than 6 matches. |
| Events.Step | src/components/sections/Events.tsx:203-205 | A new search text or category replaces the old one and keeps the page. Arrows and page buttons move the page as the drawn pager directs, and do nothing while no pager is drawn. |
| Events.RunKeepsPagePositive | src/components/sections/Events.tsx:618-684 | After any sequence of user actions, the current page is at least 1. |
| Events.StalePageShowsNothing | src/components/sections/Events.tsx:377-383 | A current page past the last page, while something matches, shows no cards and no message. |
| Events.StalePageNextGoesToLast | src/components/sections/Events.tsx:683 | On a page past the last one while the pager is drawn (more than 6 matches), next jumps straight to the last page. |
| Events.NextFromFirstOfTwoPages | src/components/sections/Events.tsx:683 | With two pages of matches, next on the first render goes to page 2. |
| Events.SelectPast | src/components/sections/Events.tsx:370-371 | With no search text, the "past" chip keeps exactly the past events. |
| Events.StalePageReachable | src/components/sections/Events.tsx:364-383 | Six past events and one future one: going to page 2, then picking "past", leaves page 2 current with 6 matches and an empty grid, no message and no pager. |
| Events.BadgeColor | src/components/sections/Events.tsx:43-54 | The badge is green iff the category is present and blue iff it is future. Past and every other value get gray. |
| Events.CategoryLabel | src/components/sections/Events.tsx:84 | The label has the category's length, its first character case-mapped and the rest unchanged. The empty category gives the empty label. |
| Events.CategoryLabelExamples | src/components/sections/Events.tsx:84 | The categories past, present and future are labelled "Past", "Present" and "Future". |
| Events.DetailLink | src/components/sections/Events.tsx:67 | The detail link is `/events/` followed by the event id. |
| Events.DetailLinkInjective | src/components/sections/Events.tsx:67 | Two detail links are equal iff the event ids are. |
| Events.Card | src/components/sections/Events.tsx:43-84 | A card links to its event and shows the event's badge colour and capitalised category label. Its image is the fixed card image (not the event's own), replaced by the event placeholder after a load error. Only the first card loads with priority. |
| Team.Split | src/components/sections/Team.tsx:25-26 | Splitting on " " gives one more segment than there are spaces. No segment contains a space, and joining the segments with spaces gives the name back. |
| Team.SplitJoin | src/components/sections/Team.tsx:25-26 | Splitting undoes joining when no segment contains a space. |
| Team.SplitAroundSpace | src/components/sections/Team.tsx:25-26 | Splitting `a + " " + b` gives the segments of `a` followed by the segments of `b`. |
| Team.HeadsAreFirstCharsOfNonEmptySegments | src/components/sections/Team.tsx:27-28 | Joining first characters gives one character per non-empty segment: that segment's first character, in segment order. |
| Team.InitialsAreFirstChars | src/components/sections/Team.tsx:25-28 | The initials are the first characters of the non-empty segments, in order. There is one per non-empty segment, so spaces at the ends or doubled spaces add nothing. |
| Team.Initials | src/components/sections/Team.tsx:25-28 | There is at most one initial per space-separated segment, and no initial is a space. |
| Team.InitialsOfOneWord | src/components/sections/Team.tsx:25-28 | A name without spaces gives its first character, and the empty name gives "". |
| Team.InitialsAroundSpace | src/components/sections/Team.tsx:25-28 | The initials of `a + " " + b` are the initials of `a` followed by those of `b`. |
| Team.FounderInitials | src/components/sections/Team.tsx:45 | "Prof. dr. Irawan Satriotomo, Ph.D." gives "PdISP": case is kept and punctuation does not split. |
| Hero.JsRem | src/components/sections/Hero.tsx:21 | The JavaScript remainder lies in [0, b) for a non-negative dividend and takes the dividend's sign otherwise. |
| Hero.Advance | src/components/sections/Hero.tsx:21 | An index inside the list moves to the next image, and the last image wraps to 0. |
| Hero.Handle | src/components/sections/Hero.tsx:17-25 | A tick advances the index only when the image list is non-empty, because otherwise no timer exists. Clicking a drawn indicator selects that image. |
| Hero.RunKeepsIndexValid | src/components/sections/Hero.tsx:13-21 | After any sequence of ticks and clicks, the index names an image whenever there is one. |
| Hero.TicksMoveAround | src/components/sections/Hero.tsx:21 | n ticks move the index to (index + n) mod the number of images. |
| Hero.FullRotationReturns | src/components/sections/Hero.tsx:21 | As many ticks as there are images bring the index back to where it started. |
| Hero.ConfiguredCarouselStaysOnFirst | src/components/sections/Hero.tsx:12 | With the single configured image, the index is 0 after any events. |
| Hero.View | src/components/sections/Hero.tsx:113-121 | The image and indicators are drawn iff not loading and the list is non-empty. There is one indicator per image, and exactly the current one is active. |
| Hero.PickActivates | src/components/sections/Hero.tsx:115-121 | Clicking indicator k makes exactly indicator k active. |
| ImageFallback.Mount | src/components/ui/EventCardImage.tsx:15 | A newly mounted wrapper shows its `src`. |
| ImageFallback.Run | src/components/ui/EventCardImage.tsx:15-28 | After any signals, the shown source is the placeholder if an error occurred and the first `src` otherwise, whatever `src` later renders pass. |
| ImageFallback.RunComposes | src/components/ui/ResourceCardImage.tsx:15-28 | Handling two batches of signals equals handling them one after the other. |
| ImageFallback.FallbackAbsorbing | src/components/ui/EventImage.tsx:14-26 | Once an error has occurred, every later run shows the placeholder, and a further error changes nothing. |
| ImageFallback.ClassNameOrDefault | src/components/ui/GalleryImage.tsx:20 | The class is never empty: a missing or empty class becomes 'object-cover', and any other class is kept. |
| ImageFallback.EventCardImage | src/components/ui/EventCardImage.tsx:14-30 | Shows the event placeholder once an error has occurred. It forwards alt, sizes and priority from the latest props. |
| ImageFallback.ResourceCardImage | src/components/ui/ResourceCardImage.tsx:14-30 | Shows the video placeholder once an error has occurred. It forwards alt, sizes and priority. |
| ImageFallback.EventImage | src/components/ui/EventImage.tsx:13-28 | Shows the event placeholder once an error has occurred. It forwards alt and priority, and passes no sizes. |
| ImageFallback.RelatedEventImage | src/components/ui/RelatedEventImage.tsx:12-26 | Shows the event placeholder once an error has occurred. It forwards alt only. |
| ImageFallback.GalleryImage | src/components/ui/GalleryImage.tsx:12-26 | Shows the event placeholder once an error has occurred. It forwards alt only. |

## Left out

- Animation, hover and in-view state, and JSX layout and styling (framer-motion, Tailwind classes). These are presentational. The hover-dependent part of the card image class is not modelled.
- Event date formatting with `toLocaleDateString`, including the "N/A" date. It depends on a locale library and on `Date` parsing.
- Full Unicode `toLowerCase` / `toUpperCase`. Case mapping is an arbitrary per-character function, so context-sensitive and length-changing mappings are out. `n[0]` takes a UTF-16 code unit, modelled here as a `char`.
- The Hero `setInterval` period and cleanup, React render and effect timing (the one render before the video list's page reset takes effect), and network image loading. The timer tick, user actions and the load-error signal are abstract events.
- The literal content arrays. Records are arbitrary sequences, apart from the founder's name, the single Hero image and a small example event list.
- Selector values are arbitrary strings. The chips in the source only ever set "all", "youtube"/"facebook" or "past"/"present"/"future".
- Hero.View: requires the index to name an image. `Hero.RunKeepsIndexValid` proves that every reachable state meets this. Out of range, the source would read `undefined`.
- Resources.Card: the thumbnail fallback in the source rewrites the DOM element's `src` directly instead of component state. It is modelled with the same absorbing machine, because a re-render with an unchanged thumbnail URL leaves the DOM value alone.
- About tab switching, the Navbar toggle, the Footer year, Programs, the app pages (including the event detail page's id lookup) and the Next.js configuration. These are static content, trivial toggles, page composition or build configuration.
