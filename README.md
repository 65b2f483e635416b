# Blog-feed pipeline and page state of a portfolio site, in Dafny

This project models the data-shaping logic of a personal portfolio site (a Next.js
application) and proves properties of it:

- **The feed proxy endpoint** `GET /api/blogs` (module `Feed`). The model covers:
  - the username fallback for the feed address;
  - the classification of what the outbound call produced into `200`, `502` or `500` replies;
  - the per-item normalisation and its fallbacks;
  - the thumbnail fallback. This one uses the pattern `/<img[^>]+src="([^">]+)"/i`, written as
    an index-level specification (`MatchAt`, `IsFirstMatch`) and a recursive scanner proved to
    report exactly the leftmost, greedy match.
- **The blog section** on the client (module `BlogSection`):
  - tag stripping with `/<[^>]*>?/gm`;
  - the 150-character summary with its `...`;
  - the reshaping of each article;
  - the choice between the loading, error, empty and grid views, with the grid capped at six cards;
  - the fetch-on-mount lifecycle, as a class whose `isMounted` flag guards the state updates.
- **The blog card** (module `BlogCard`): the `safeArticle` fallbacks, the missing-article card,
  the image branch and the two category chips.
- **The hover ticker** (module `Ticker`): the joined text, its twenty repetitions and the hover flag.
- **The navigation bar** (module `Nav`):
  - the scrolled flag;
  - the active-section scan, a loop with `break` over five fixed ids;
  - the mobile-menu flag.

Module `Js` holds the JavaScript semantics the others share:
- absent values as `Option`;
- truthiness for `||` fallbacks (`undefined`, `null` and `""` are falsy, every array is truthy);
- `slice(0, n)`;
- the decimal rendering of a status number in a template literal, with its read-back.

Strings are `seq<char>`, and a Dafny `char` is a Unicode scalar value. JavaScript's
`substring(0, 150)` counts UTF-16 code units. The two counts agree only for text inside the
Basic Multilingual Plane, so the 150-character cut is modelled for that text only (see
"## Left out"). Nothing here is executed. The outbound `fetch` is an input, and so
is the client's `fetch('/api/blogs')`. They are the datatypes `Feed.Upstream` and
`BlogSection.ClientReply`. The page's elements are a map from element id to rectangle
(`Nav.Dom`). Date formatting is a function parameter (`formatDate`).

Some behaviours of the code are easy to miss:

- The thumbnail pattern accepts only a double-quoted `src`. A description such as
  `<img src='https://img/a.png'/>` therefore gives a `null` thumbnail
  (`Feed.SingleQuotedSrcGivesNoThumbnail`).
- Every non-"ok" upstream status gets a 502 reply. It carries the upstream message, or
  `"Failed to parse RSS feed"` when there is none.
- The upstream thumbnail is used only when it is truthy. An empty thumbnail falls back to
  the description's image.
- On the client, a caught Error with a non-empty message shows the error panel with that
  message (`BlogSection.RejectedFetchShowsError`, `BlogSection.UnusableBodyShowsError`).
  A caught value with no message leaves `error` falsy. The value may be a non-Error, whose
  `message` is `undefined`, or an Error whose message is `""`. The page then shows
  "No articles found" rather than the error panel (`BlogSection.SilentFailureShowsEmpty`).

## Model

| member | source | states |
|---|---|---|
| Js.Truthy | techportfolio/app/api/blogs/route.ts:51-56 | `undefined`/`null` and `""` are falsy; a truthy string is non-empty |
| Js.Or | techportfolio/app/components/BlogCard.tsx:31-39 | `x \|\| fallback` is `x` when truthy, else the fallback; a non-empty fallback makes the result non-empty |
| Js.OrEmpty | techportfolio/app/components/BlogSection.tsx:159 | `x \|\| []` keeps every array, even an empty one; only an absent array becomes `[]` |
| Js.NatToString | techportfolio/app/api/blogs/route.ts:20 | `${status}` is a non-empty string of decimal digits with no leading zero |
| Js.ParseNatToString | techportfolio/app/api/blogs/route.ts:20 | reading the rendered digits back gives the status, so the rendering is lossless |
| Js.NatToStringInjective | techportfolio/app/components/BlogSection.tsx:141 | two statuses with the same rendering are equal |
| Js.Take | techportfolio/app/components/BlogSection.tsx:278 | `slice(0, n)` has min(n, length) elements, the first ones in order |
| Js.RunNotGt | techportfolio/app/api/blogs/route.ts:44 | greedy `[^>]` run: no `>` inside it, and it stops only at a `>` or at the end |
| Feed.FeedUrl | techportfolio/app/api/blogs/route.ts:6-7 | feed address is the Medium prefix followed by `MEDIUM_USERNAME` when truthy, else `nagarjunmallesh` |
| Feed.RunNotQuoteGt | techportfolio/app/api/blogs/route.ts:44 | greedy `[^">]` run: stops only at `"`, `>` or the end |
| Feed.TryCapture | techportfolio/app/api/blogs/route.ts:44 | for a fixed tag start and gap, the scanner finds a match exactly when one exists, and its closing quote |
| Feed.TryGap | techportfolio/app/api/blogs/route.ts:44 | backtracking gap lengths k, k-1, ..., 1 returns the largest gap with a match, or proves there is none |
| Feed.GapWithinRun | techportfolio/app/api/blogs/route.ts:44 | every match's `[^>]+` part stays inside the run of non-`>` after `<img` |
| Feed.TryTag | techportfolio/app/api/blogs/route.ts:44 | at one start index: the greedy (largest-gap) match, or no match at all |
| Feed.Scan | techportfolio/app/api/blogs/route.ts:44 | from index p on: the leftmost start, greedy at that start, or no match anywhere from p |
| Feed.FindImgSrc | techportfolio/app/api/blogs/route.ts:44 | the result is the first match as `String.prototype.match` defines it; None exactly when nothing matches |
| Feed.ImgSrc | techportfolio/app/api/blogs/route.ts:44-47 | the capture of the first match. It is non-empty and holds no `"` or `>`. None exactly when nothing matches |
| Feed.FirstMatchCapture | techportfolio/app/api/blogs/route.ts:44-47 | a match that no match starts before and that no match at the same start extends is the one whose capture becomes the thumbnail |
| Feed.NoDoubleQuoteNoMatch | techportfolio/app/api/blogs/route.ts:44 | a text without `"` yields no thumbnail |
| Feed.SingleQuotedSrcGivesNoThumbnail | techportfolio/app/api/blogs/route.ts:44 | `<p><img src='URL'/>TEXT</p>` yields no thumbnail when neither URL nor TEXT holds a `"`: single quotes are not accepted |
| Feed.LastSrcWins | techportfolio/app/api/blogs/route.ts:44 | in `<img src="a" src="b">` the greedy `[^>]+` reaches the second `src=`, so `b` is captured (the general largest-gap rule is `Feed.FindImgSrc`'s) |
| Feed.UpperCaseTagMatches | techportfolio/app/api/blogs/route.ts:44 | `<IMG SRC="x.png">` matches: letter case is ignored |
| Feed.Thumbnail | techportfolio/app/api/blogs/route.ts:40-48 | a truthy upstream thumbnail is kept. Otherwise the thumbnail is present exactly when the description is truthy and matches, and it is then the first match's capture. It is never `""` |
| Feed.NormaliseItem | techportfolio/app/api/blogs/route.ts:50-57 | each field is the upstream value or its fixed fallback; the description stays raw with its tags; title and link are never empty |
| Feed.NormaliseItems | techportfolio/app/api/blogs/route.ts:31-58 | same length and order as `items`; record i is built from item i alone |
| Feed.Caught | techportfolio/app/api/blogs/route.ts:61-65 | a thrown value gives 500 with the Error's message, or `Unknown error` for a non-Error |
| Feed.Get | techportfolio/app/api/blogs/route.ts:19-65 | the status is 200, 502 or 500; only 200 carries items; every 502 carries a non-empty error |
| Feed.SuccessExactly | techportfolio/app/api/blogs/route.ts:19-60 | 200 exactly when transport ok, body parsed, `status == "ok"` and `items` an array; the payload is then the normalised items |
| Feed.TransportFailure | techportfolio/app/api/blogs/route.ts:19-21 | a non-ok transport status gives 502 `Failed to fetch feed: <status>` and no items |
| Feed.TransportFailureNamesStatus | techportfolio/app/api/blogs/route.ts:20 | two transport failures with the same reply have the same status |
| Feed.UpstreamStatusNotOk | techportfolio/app/api/blogs/route.ts:26-28 | `status !== 'ok'` gives 502 with `data.message`, or `Failed to parse RSS feed` when that is falsy |
| Feed.ThrownFailures | techportfolio/app/api/blogs/route.ts:61-65 | rejected fetch, unparsable body and unmappable items each give the 500 reply of the caught value |
| BlogSection.TagLength | techportfolio/app/components/BlogSection.tsx:150 | a match of `<[^>]*>?` is `<`, non-`>` characters, and a `>` unless the text ends first |
| BlogSection.StripTags | techportfolio/app/components/BlogSection.tsx:150 | the stripped text contains no `<` and is no longer than the input |
| BlogSection.StripPlainPrefix | techportfolio/app/components/BlogSection.tsx:150 | a prefix without `<` passes through unchanged |
| BlogSection.StripPlain | techportfolio/app/components/BlogSection.tsx:150 | text without `<` is unchanged |
| BlogSection.StripIdempotent | techportfolio/app/components/BlogSection.tsx:150 | stripping twice equals stripping once |
| BlogSection.StripClosedTag | techportfolio/app/components/BlogSection.tsx:150 | a complete tag `<...>` is removed and the rest is stripped on its own |
| BlogSection.StripUnterminated | techportfolio/app/components/BlogSection.tsx:150 | a `<` with no later `>` removes everything from it to the end, whatever text or tags come before it |
| BlogSection.StripPlainThenUnterminated | techportfolio/app/components/BlogSection.tsx:150 | after a `<`-free prefix, an unterminated tail leaves exactly the prefix |
| BlogSection.CutOffTagAfterTag | techportfolio/app/components/BlogSection.tsx:150 | `<p>TEXT<NAME`, cut off inside the second tag, strips to TEXT |
| BlogSection.StrayCloseSurvives | techportfolio/app/components/BlogSection.tsx:150 | a `>` with no `<` before it survives |
| BlogSection.Summary | techportfolio/app/components/BlogSection.tsx:149-151 | truthy description: the first min(150, n) characters of the stripped text plus `...`, at most 153 long, with no `<`. Falsy: `No description available` |
| BlogSection.LongPlainSummary | techportfolio/app/components/BlogSection.tsx:150 | a plain description of at least 150 characters gives its first 150 followed by `...` |
| BlogSection.TagsOnlySummary | techportfolio/app/components/BlogSection.tsx:150 | a description that is only a tag still gives `...` |
| BlogSection.ProcessArticle | techportfolio/app/components/BlogSection.tsx:147-160 | title and link pass through. The image is the truthy thumbnail or the placeholder. The date is formatted, or `No date`. Categories default to `[]` |
| BlogSection.ProcessArticles | techportfolio/app/components/BlogSection.tsx:147-160 | the map keeps length and order; article i is shaped from entry i |
| BlogSection.EndToEnd | techportfolio/app/components/BlogSection.tsx:147-160 | one upstream item through both stages: title and link are present and non-empty; the dates, the description fallback and the image agree with the upstream fields |
| BlogSection.FetchOutcome | techportfolio/app/components/BlogSection.tsx:136-173 | articles are loaded exactly for an ok reply with an array body. A non-ok reply fails with `API returned <status>`. A rejected fetch fails with `err.message`, and an unusable body with the thrown message |
| BlogSection.MessageOf | techportfolio/app/components/BlogSection.tsx:170 | `err.message` is present exactly for an Error, and is then its message |
| BlogSection.SelectView | techportfolio/app/components/BlogSection.tsx:241-278 | each view is chosen exactly when its render condition holds, so exactly one view shows. The grid holds the first min(6, n) articles in order |
| BlogSection.SettledView | techportfolio/app/components/BlogSection.tsx:162-172 | a settled fetch never shows the spinner; the error panel shows exactly for a failure with a truthy message, and the grid only for loaded articles |
| BlogSection.RejectedFetchShowsError | techportfolio/app/components/BlogSection.tsx:167-172 | a rejected fetch whose Error has a non-empty message ends in the error panel with that message |
| BlogSection.UnusableBodyShowsError | techportfolio/app/components/BlogSection.tsx:144-172 | an ok reply whose body cannot be used as an array ends in the error panel with the thrown message, when non-empty |
| BlogSection.NotOkShowsStatus | techportfolio/app/components/BlogSection.tsx:140-141 | a non-ok reply ends in the error panel naming the status |
| BlogSection.NoArticlesShowsEmpty | techportfolio/app/components/BlogSection.tsx:268-272 | zero articles end in the empty message, not an error |
| BlogSection.ArticlesShowGrid | techportfolio/app/components/BlogSection.tsx:275-278 | n > 0 articles end in a grid of min(6, n) cards, the first articles in order |
| BlogSection.SilentFailureShowsEmpty | techportfolio/app/components/BlogSection.tsx:167-172 | a rejected fetch whose caught value has no message or an empty one, or an unusable body whose thrown message is empty, ends in the empty view |
| BlogSection.Section.constructor | techportfolio/app/components/BlogSection.tsx:9-11 | initial state: loading, no error, no articles; the effect is mounted |
| BlogSection.Section.Unmount | techportfolio/app/components/BlogSection.tsx:178-180 | cleanup clears `isMounted` |
| BlogSection.Section.Settle | techportfolio/app/components/BlogSection.tsx:162-172 | while mounted, the outcome is stored and loading stops, and the view is then the settled view. After unmount nothing changes |
| BlogCard.Safe | techportfolio/app/components/BlogCard.tsx:31-39 | each field is the prop when truthy, otherwise its fixed default; every string field is non-empty |
| BlogCard.SafeIdempotent | techportfolio/app/components/BlogCard.tsx:31-39 | applying the fallbacks to a safe article changes nothing |
| BlogCard.Render | techportfolio/app/components/BlogCard.tsx:20-28 | a missing article, and only that, renders the "Missing article data" card |
| BlogCard.ImageBranchAlwaysTaken | techportfolio/app/components/BlogCard.tsx:63-82 | the image branch is always taken; the emoji placeholder is unreachable |
| BlogCard.ChipsAreFirstTwo | techportfolio/app/components/BlogCard.tsx:103-105 | the chips are the first min(2, n) categories in order; none when there are no categories |
| BlogCard.SectionArticleShownAsIs | techportfolio/app/components/BlogCard.tsx:31-39 | when the article comes from the section, the card keeps its description, image, date and categories unchanged |
| Ticker.Join | techportfolio/app/components/TickerHoverEffect.tsx:13 | `items.join(sep)` is `""` for no items and starts with the first item otherwise |
| Ticker.JoinLength | techportfolio/app/components/TickerHoverEffect.tsx:13 | the length of n >= 1 joined items is their total length plus n - 1 separator lengths (`Ticker.JoinSnoc` states the contents) |
| Ticker.JoinSnoc | techportfolio/app/components/TickerHoverEffect.tsx:13 | appending an item appends one separator and the item |
| Ticker.TextLength | techportfolio/app/components/TickerHoverEffect.tsx:13 | no items give "", one item gives that item, and n >= 1 items give their total length plus n - 1 separators |
| Ticker.Text | techportfolio/app/components/TickerHoverEffect.tsx:13 | the one-item special case agrees with the join, so `text` is always the `' • '` join |
| Ticker.Repeat | techportfolio/app/components/TickerHoverEffect.tsx:16 | `Array(n).fill(text)` has n entries, each equal to `text` |
| Ticker.TickerItems | techportfolio/app/components/TickerHoverEffect.tsx:16 | twenty entries, each equal to `text` |
| Ticker.EntriesOf | techportfolio/app/components/TickerHoverEffect.tsx:47-57 | each ticker item is rendered once, in order, followed by `*` |
| Ticker.TickerHoverEffect.constructor | techportfolio/app/components/TickerHoverEffect.tsx:10 | `isHovered` starts false |
| Ticker.TickerHoverEffect.MouseEnter | techportfolio/app/components/TickerHoverEffect.tsx:23 | mouse-enter sets `isHovered` |
| Ticker.TickerHoverEffect.MouseLeave | techportfolio/app/components/TickerHoverEffect.tsx:24 | mouse-leave clears `isHovered` |
| Ticker.TickerHoverEffect.Render | techportfolio/app/components/TickerHoverEffect.tsx:38-58 | not hovered: the text once. Hovered: twenty entries, each the text followed by `*` |
| Nav.Qualifies | techportfolio/app/components/NavBar.tsx:34-37 | a section qualifies only if its element exists; an element wholly above the viewport or starting in its lower half never qualifies |
| Nav.FirstQualifying | techportfolio/app/components/NavBar.tsx:33-44 | the first section from an index on that qualifies, with none before it; or none qualifies |
| Nav.NextActive | techportfolio/app/components/NavBar.tsx:33-44 | the active section stays one of the five ids |
| Nav.EarlierSectionWins | techportfolio/app/components/NavBar.tsx:39-42 | if section i qualifies, the chosen section is a qualifying one at an index <= i |
| Nav.NavBar.constructor | techportfolio/app/components/NavBar.tsx:7-9 | initial state: not scrolled, `home` active, menu closed |
| Nav.NavBar.HandleScroll | techportfolio/app/components/NavBar.tsx:13-15 | `isScrolled` becomes exactly `scrollY > 50` |
| Nav.NavBar.TrackActiveSection | techportfolio/app/components/NavBar.tsx:28-45 | the loop with `break` sets the first qualifying section, or leaves the old one; the active section stays one of the five ids |
| Nav.NavBar.ScrollToSection | techportfolio/app/components/NavBar.tsx:58-75 | scrolls exactly when the element exists and always closes the mobile menu |
| Nav.NavBar.ToggleMenu | techportfolio/app/components/NavBar.tsx:143 | the menu button flips the menu flag |

## Left out

- Outbound `fetch`, `NextResponse.json`, `response.json()`: modelled as input and output datatypes, not as calls.
- The request URL to the feed-to-JSON service (route.ts line 10): it needs `encodeURIComponent`, a foreign call. Only the feed address is modelled.
- `console.error`, `console.log` and `console.warn`: logging only.
- The `revalidate` cache setting: the platform owns the cache.
- Date formatting with `toLocaleDateString('en-US', …)`: it depends on date parsing and locale data, so it is the parameter `formatDate`.
- Field types in the upstream JSON: `status` and `message` are modelled as optional strings. A non-string value counts as absent.
- A `null` entry in `items`: it makes the map throw a TypeError, the same as an `items` that is not an array. Both are `Feed.Items.NotMappable`, carrying the engine's message.
- Thrown values in the client's `catch`: a `null` thrown value would make `err.message` itself throw, and that case is not modelled. A non-Error value is modelled as having no message.
- The initial calls of the two scroll handlers on mount: they are the same methods (`HandleScroll`, `TrackActiveSection`) called once more. Listener registration and removal are not modelled.
- The variable `scrollPosition` in NavBar.tsx (line 30): it is computed but never used.
- Scroll-progress geometry (BlogSection.tsx lines 43-130, About, TechStack, Contact, Introduction) and the Lenis smooth-scroll provider: floating-point presentation driven by a third-party library.
- IntroText animation, the Contact form's simulated submit, and static markup and configuration (Footer, Header, layout, page, Tailwind config, TechStack's CSS class pickers).
- Framer-motion animation props, CSS class strings, the image `onError` handler in BlogCard.tsx (lines 71-75), and React keys.
- BlogSection.Summary: the text is modelled as Basic Multilingual Plane characters only. Dafny's `char` is a Unicode scalar value, while `substring` counts UTF-16 code units, so characters outside that plane are miscounted and a cut between the two halves of a surrogate pair is not modelled.
- BlogSection.LongPlainSummary: its 150 counts Dafny characters, so it holds as the code behaves only for Basic Multilingual Plane text, for the reason given for `BlogSection.Summary`.
