/** The feed proxy endpoint `GET /api/blogs` (techportfolio/app/api/blogs/route.ts).
    The outbound call to the feed-to-JSON service is an input: `Upstream` describes what
    that call produced (a rejection, or a response with its status and body). */
module Feed {
  import opened Js

  // ---------------------------------------------------------------------------
  // Feed address
  // ---------------------------------------------------------------------------

  const DefaultUsername := "nagarjunmallesh"
  const FeedUrlPrefix := "https://medium.com/feed/@"

  /** The address of the account's RSS feed; `env` is the `MEDIUM_USERNAME` setting. */
  function FeedUrl(env: Option<string>): (url: string)
    ensures |url| > |FeedUrlPrefix| && url[..|FeedUrlPrefix|] == FeedUrlPrefix
    ensures Truthy(env) ==> url[|FeedUrlPrefix|..] == env.value
    ensures !Truthy(env) ==> url[|FeedUrlPrefix|..] == DefaultUsername
  {
    FeedUrlPrefix + Or(env, DefaultUsername)
  }

  // ---------------------------------------------------------------------------
  // The pattern /<img[^>]+src="([^">]+)"/i, as a specification over indices
  // ---------------------------------------------------------------------------

  /** `c` equals the lower-case ASCII letter `lower` or its upper-case form. */
  predicate SameLetter(c: char, lower: char)
    requires 'a' <= lower <= 'z'
  {
    c == lower || c as int == lower as int - 32
  }

  /** `<img`, in any letter case, starts at index `p`. */
  predicate ImgOpenAt(s: string, p: nat)
  {
    && p + 4 <= |s|
    && s[p] == '<'
    && SameLetter(s[p + 1], 'i') && SameLetter(s[p + 2], 'm') && SameLetter(s[p + 3], 'g')
  }

  /** `src="`, with `src` in any letter case, starts at index `q`. */
  predicate SrcAttrAt(s: string, q: nat)
  {
    && q + 5 <= |s|
    && SameLetter(s[q], 's') && SameLetter(s[q + 1], 'r') && SameLetter(s[q + 2], 'c')
    && s[q + 3] == '=' && s[q + 4] == '"'
  }

  /** First index of the capture group when `[^>]+` took `k` characters after `<img` at `p`. */
  function CaptureStart(p: nat, k: nat): nat
  {
    p + 4 + k + 5
  }

  /** The pattern matches with `<img` at `p`, `[^>]+` taking `k` characters, and the
      closing quote of the capture at `e`, so that the capture is `s[CaptureStart(p, k)..e]`. */
  ghost predicate MatchAt(s: string, p: nat, k: nat, e: nat)
  {
    && ImgOpenAt(s, p)
    && 1 <= k
    && SrcAttrAt(s, p + 4 + k)
    && (forall j :: p + 4 <= j < p + 4 + k ==> s[j] != '>')
    && CaptureStart(p, k) < e < |s|
    && (forall j :: CaptureStart(p, k) <= j < e ==> s[j] != '"' && s[j] != '>')
    && s[e] == '"'
  }

  /** The match `String.prototype.match` reports: the leftmost start, and at that start the
      largest `k`, because `[^>]+` is greedy and the engine backtracks from the longest run. */
  ghost predicate IsFirstMatch(s: string, p: nat, k: nat, e: nat)
  {
    && MatchAt(s, p, k, e)
    && (forall p': nat, k': nat, e': nat :: MatchAt(s, p', k', e') ==> p < p' || (p == p' && k' <= k))
  }

  ghost predicate HasMatch(s: string)
  {
    exists p: nat, k: nat, e: nat :: MatchAt(s, p, k, e)
  }

  // ---------------------------------------------------------------------------
  // The scanner
  // ---------------------------------------------------------------------------

  datatype Hit = Hit(tag: nat, gap: nat, end: nat)

  /** Length of the run of characters other than `"` and `>` starting at `i` (`[^">]+`). */
  function RunNotQuoteGt(s: string, i: nat): (n: nat)
    requires i <= |s|
    ensures i + n <= |s|
    ensures forall j :: i <= j < i + n ==> s[j] != '"' && s[j] != '>'
    ensures i + n < |s| ==> s[i + n] == '"' || s[i + n] == '>'
    decreases |s| - i
  {
    if i == |s| || s[i] == '"' || s[i] == '>' then 0 else 1 + RunNotQuoteGt(s, i + 1)
  }

  /** Given `<img` at `p`, the capture after `src="` at `p + 4 + k` is the maximal `[^">]` run,
      and the match succeeds exactly when that run is non-empty and ends in `"`. */
  function TryCapture(s: string, p: nat, k: nat): (r: Option<Hit>)
    requires ImgOpenAt(s, p) && 1 <= k && k <= RunNotGt(s, p + 4)
    ensures r.Some? ==> r.value.tag == p && r.value.gap == k && MatchAt(s, p, k, r.value.end)
    ensures r.None? ==> forall e: nat :: !MatchAt(s, p, k, e)
  {
    var q := p + 4 + k;
    if !SrcAttrAt(s, q) then None
    else
      var c := CaptureStart(p, k);
      var n := RunNotQuoteGt(s, c);
      if n > 0 && c + n < |s| && s[c + n] == '"' then Some(Hit(p, k, c + n))
      else None
  }

  /** Tries `k, k - 1, ..., 1` characters for `[^>]+` after the `<img` at `p`: greedy
      backtracking, so the first success is the largest `k`. */
  function TryGap(s: string, p: nat, k: nat): (r: Option<Hit>)
    requires ImgOpenAt(s, p) && k <= RunNotGt(s, p + 4)
    ensures r.Some? ==> r.value.tag == p && 1 <= r.value.gap <= k && MatchAt(s, r.value.tag, r.value.gap, r.value.end)
    ensures r.Some? ==> forall k': nat, e': nat :: r.value.gap < k' <= k ==> !MatchAt(s, p, k', e')
    ensures r.None? ==> forall k': nat, e': nat :: k' <= k ==> !MatchAt(s, p, k', e')
    decreases k
  {
    if k == 0 then None
    else
      match TryCapture(s, p, k)
      case Some(h) => Some(h)
      case None => TryGap(s, p, k - 1)
  }

  /** No match can take more characters for `[^>]+` than the run of non-`>` after `<img`:
      the character after the run is `>` (or the text ends), and `src="` cannot start there. */
  lemma GapWithinRun(s: string, p: nat, k: nat, e: nat)
    requires ImgOpenAt(s, p) && MatchAt(s, p, k, e)
    ensures k < RunNotGt(s, p + 4)
  {
  }

  /** The match, if any, whose `<img` starts exactly at `p`. */
  function TryTag(s: string, p: nat): (r: Option<Hit>)
    ensures r.Some? ==> r.value.tag == p && MatchAt(s, p, r.value.gap, r.value.end)
    ensures r.Some? ==> forall k': nat, e': nat :: MatchAt(s, p, k', e') ==> k' <= r.value.gap
    ensures r.None? ==> forall k': nat, e': nat :: !MatchAt(s, p, k', e')
  {
    if !ImgOpenAt(s, p) then None
    else
      var r := TryGap(s, p, RunNotGt(s, p + 4));
      assert forall k': nat, e': nat :: MatchAt(s, p, k', e') ==> k' <= RunNotGt(s, p + 4) by {
        forall k': nat, e': nat | MatchAt(s, p, k', e') ensures k' <= RunNotGt(s, p + 4) {
          GapWithinRun(s, p, k', e');
        }
      }
      r
  }

  /** Tries every start index from `p` on, leftmost first. */
  function Scan(s: string, p: nat): (r: Option<Hit>)
    requires p <= |s|
    ensures r.Some? ==> p <= r.value.tag && MatchAt(s, r.value.tag, r.value.gap, r.value.end)
    ensures r.Some? ==> forall p': nat, k': nat, e': nat :: p <= p' && MatchAt(s, p', k', e') ==>
                          r.value.tag < p' || (r.value.tag == p' && k' <= r.value.gap)
    ensures r.None? ==> forall p': nat, k': nat, e': nat :: p <= p' ==> !MatchAt(s, p', k', e')
    decreases |s| - p
  {
    if p == |s| then None
    else
      match TryTag(s, p)
      case Some(h) => Some(h)
      case None => Scan(s, p + 1)
  }

  /** `description.match(/<img[^>]+src="([^">]+)"/i)`, reporting the indices of the match. */
  function FindImgSrc(s: string): (r: Option<Hit>)
    ensures r.Some? ==> IsFirstMatch(s, r.value.tag, r.value.gap, r.value.end)
    ensures r.None? <==> !HasMatch(s)
  {
    Scan(s, 0)
  }

  /** The capture group `imgMatch[1]`, or None when the pattern does not match. */
  function ImgSrc(s: string): (r: Option<string>)
    ensures r.None? <==> !HasMatch(s)
    ensures r.Some? ==> exists p: nat, k: nat, e: nat :: IsFirstMatch(s, p, k, e) && r.value == s[CaptureStart(p, k)..e]
    ensures r.Some? ==> r.value != "" && '"' !in r.value && '>' !in r.value
  {
    match FindImgSrc(s)
    case None => None
    case Some(h) =>
      var v := s[CaptureStart(h.tag, h.gap)..h.end];
      assert forall i :: 0 <= i < |v| ==> v[i] == s[CaptureStart(h.tag, h.gap) + i];
      Some(v)
  }

  /** Only a double-quoted `src` can match: a text without `"` never yields a thumbnail,
      which rules out single-quoted and unquoted attributes when no `"` is present. */
  lemma NoDoubleQuoteNoMatch(s: string)
    requires '"' !in s
    ensures ImgSrc(s) == None
  {
  }

  /** A description shaped like `<p><img src='URL'/>TEXT</p>`: the pattern demands a double
      quote after `src=`, so a single-quoted `src` yields no thumbnail unless the URL or the
      text holds a `"`. */
  lemma SingleQuotedSrcGivesNoThumbnail(url: string, text: string)
    requires '"' !in url && '"' !in text
    ensures ImgSrc("<p><img src='" + url + "'/>" + text + "</p>") == None
  {
    var d := "<p><img src='" + url + "'/>" + text + "</p>";
    assert '"' !in "<p><img src='" && '"' !in "'/>" && '"' !in "</p>";
    NoDoubleQuoteNoMatch(d);
  }

  /** A match that no match starts before, and that no match at the same start extends,
      is the one whose capture `ImgSrc` returns. */
  lemma FirstMatchCapture(s: string, p: nat, k: nat, e: nat)
    requires MatchAt(s, p, k, e)
    requires forall p': nat, k': nat, e': nat :: MatchAt(s, p', k', e') ==> p <= p'
    requires forall k': nat, e': nat :: MatchAt(s, p, k', e') ==> k' <= k
    ensures ImgSrc(s) == Some(s[CaptureStart(p, k)..e])
  {
    var h := FindImgSrc(s).value;
    assert h.tag == p && h.gap == k;
  }

  /** In `<img src="a" src="b">`, `[^>]+` can take nine characters, up to the second `src=`. */
  lemma TwoSrcMatch(s: string)
    requires s == "<img src=\"a\" src=\"b\">"
    ensures MatchAt(s, 0, 9, 19)
  {
    assert ImgOpenAt(s, 0) && SrcAttrAt(s, 13);
  }

  /** No `"` that could end a `src="` lies after index 17 of `<img src="a" src="b">`. */
  lemma TwoSrcNoLongerGap(s: string)
    requires s == "<img src=\"a\" src=\"b\">"
    ensures forall k': nat, e': nat :: MatchAt(s, 0, k', e') ==> k' <= 9
  {
    forall k': nat, e': nat | MatchAt(s, 0, k', e') ensures k' <= 9 {
      assert SrcAttrAt(s, 4 + k') && 8 + k' <= |s| - 1;
      assert s[18] == 'b' && s[19] == '"' && s[20] == '>';
    }
  }

  /** `[^>]+` is greedy, so of two `src="..."` attributes in one tag the LAST is captured. */
  lemma LastSrcWins(s: string)
    requires s == "<img src=\"a\" src=\"b\">"
    ensures ImgSrc(s) == Some("b")
  {
    TwoSrcMatch(s);
    TwoSrcNoLongerGap(s);
    FirstMatchCapture(s, 0, 9, 19);
    assert s[18..19] == "b";
  }

  /** `<IMG SRC="x.png">` matches with a one-character gap: `<IMG`, ` `, `SRC="`. */
  lemma UpperCaseMatch(s: string)
    requires s == "<IMG SRC=\"x.png\">"
    ensures MatchAt(s, 0, 1, 15)
  {
    assert ImgOpenAt(s, 0) && SrcAttrAt(s, 5);
  }

  /** The only `"` that can follow `SRC=` in `<IMG SRC="x.png">` is the one at index 9. */
  lemma UpperCaseNoLongerGap(s: string)
    requires s == "<IMG SRC=\"x.png\">"
    ensures forall k': nat, e': nat :: MatchAt(s, 0, k', e') ==> k' <= 1
  {
    forall k': nat, e': nat | MatchAt(s, 0, k', e') ensures k' <= 1 {
      assert SrcAttrAt(s, 4 + k') && s[8 + k'] == '"';
      assert s[10] == 'x' && s[11] == '.' && s[12] == 'p' && s[13] == 'n' && s[14] == 'g' && s[16] == '>';
    }
  }

  /** The pattern ignores letter case in `img` and `src`. */
  lemma UpperCaseTagMatches(s: string)
    requires s == "<IMG SRC=\"x.png\">"
    ensures ImgSrc(s) == Some("x.png")
  {
    UpperCaseMatch(s);
    UpperCaseNoLongerGap(s);
    FirstMatchCapture(s, 0, 1, 15);
    assert s[10..15] == "x.png";
  }

  // ---------------------------------------------------------------------------
  // Items
  // ---------------------------------------------------------------------------

  /** One entry of the upstream `items` array; a field that is absent or `null` is None. */
  datatype RawItem = RawItem(
    thumbnail: Option<string>,
    description: Option<string>,
    title: Option<string>,
    link: Option<string>,
    pubDate: Option<string>,
    categories: Option<seq<string>>)

  /** One record of the endpoint's output; `thumbnail` None is the JSON `null`. */
  datatype FeedItem = FeedItem(
    title: string,
    link: string,
    pubDate: string,
    thumbnail: Option<string>,
    description: string,
    categories: seq<string>)

  /** `item.thumbnail || null`, then the first image of the description when that is falsy. */
  function Thumbnail(item: RawItem): (t: Option<string>)
    ensures Truthy(item.thumbnail) ==> t == item.thumbnail
    ensures !Truthy(item.thumbnail) ==>
              (t.Some? <==> Truthy(item.description) && HasMatch(item.description.value))
    ensures !Truthy(item.thumbnail) && t.Some? ==>
              exists p: nat, k: nat, e: nat :: IsFirstMatch(item.description.value, p, k, e)
                                && t.value == item.description.value[CaptureStart(p, k)..e]
    ensures t.Some? ==> t.value != ""
  {
    if Truthy(item.thumbnail) then item.thumbnail
    else if Truthy(item.description) then ImgSrc(item.description.value)
    else None
  }

  const UntitledTitle := "Untitled"
  const NoLink := "#"

  /** The record built for one upstream item: every field present, falsy values replaced. */
  function NormaliseItem(item: RawItem): (r: FeedItem)
    ensures Truthy(item.title) ==> r.title == item.title.value
    ensures !Truthy(item.title) ==> r.title == UntitledTitle
    ensures Truthy(item.link) ==> r.link == item.link.value
    ensures !Truthy(item.link) ==> r.link == NoLink
    ensures r.pubDate == (if item.pubDate.Some? then item.pubDate.value else "")
    ensures r.description == (if item.description.Some? then item.description.value else "")
    ensures r.categories == (if item.categories.Some? then item.categories.value else [])
    ensures r.thumbnail == Thumbnail(item)
    ensures r.title != "" && r.link != ""
  {
    FeedItem(
      title := Or(item.title, UntitledTitle),
      link := Or(item.link, NoLink),
      pubDate := Or(item.pubDate, ""),
      thumbnail := Thumbnail(item),
      description := Or(item.description, ""),
      categories := OrEmpty(item.categories))
  }

  /** `data.items.map(...)`: same length, same order, record `i` built from item `i` alone. */
  function NormaliseItems(items: seq<RawItem>): (r: seq<FeedItem>)
    ensures |r| == |items|
    ensures forall i :: 0 <= i < |items| ==> r[i] == NormaliseItem(items[i])
    decreases |items|
  {
    if items == [] then [] else [NormaliseItem(items[0])] + NormaliseItems(items[1..])
  }

  // ---------------------------------------------------------------------------
  // The handler
  // ---------------------------------------------------------------------------

  /** The `items` field of the parsed body: an array, or something on which `.map` (or the
      reading of an entry's fields) throws a TypeError with the given message. */
  datatype Items = ItemArray(entries: seq<RawItem>) | NotMappable(typeError: string)

  /** The body of an `ok` response: either `res.json()` (or reading a field of its result)
      throws an Error with the given message, or the parsed object's `status`, `message`
      (None when absent or not a string) and `items`. */
  datatype Body =
    | Unreadable(syntaxError: string)
    | Parsed(status: Option<string>, message: Option<string>, items: Items)

  /** What the outbound `fetch` produced. */
  datatype Upstream =
    | FetchRejected(reason: Thrown)
    | Responded(ok: bool, status: nat, body: Body)

  datatype Payload = ErrorPayload(error: string) | ItemsPayload(items: seq<FeedItem>)

  /** The handler's answer: its HTTP status and its JSON body. */
  datatype Reply = Reply(status: nat, payload: Payload)

  const BadGateway := 502
  const InternalError := 500
  const Success := 200

  const FetchFailedPrefix := "Failed to fetch feed: "
  const ParseFailed := "Failed to parse RSS feed"
  const UnknownError := "Unknown error"

  /** The `catch` clause: the Error's message, or a generic text for anything else. */
  function Caught(t: Thrown): (r: Reply)
    ensures r.status == InternalError && r.payload.ErrorPayload?
    ensures t.ErrorValue? ==> r.payload.error == t.message
    ensures t.NonError? ==> r.payload.error == UnknownError
  {
    match t
    case ErrorValue(m) => Reply(InternalError, ErrorPayload(m))
    case NonError => Reply(InternalError, ErrorPayload(UnknownError))
  }

  function Get(u: Upstream): (r: Reply)
    ensures r.status == Success || r.status == BadGateway || r.status == InternalError
    ensures r.status == Success <==> r.payload.ItemsPayload?
    ensures r.status == BadGateway ==> r.payload.error != ""
  {
    match u
    case FetchRejected(t) => Caught(t)
    case Responded(ok, status, body) =>
      if !ok then Reply(BadGateway, ErrorPayload(FetchFailedPrefix + NatToString(status)))
      else
        match body
        case Unreadable(m) => Caught(ErrorValue(m))
        case Parsed(st, msg, items) =>
          if st != Some("ok") then Reply(BadGateway, ErrorPayload(Or(msg, ParseFailed)))
          else
            match items
            case NotMappable(m) => Caught(ErrorValue(m))
            case ItemArray(entries) => Reply(Success, ItemsPayload(NormaliseItems(entries)))
  }

  /** The handler answers 200 exactly when the transport succeeded, the body parsed, its
      status is "ok" and its items are an array; the payload then holds one record per item. */
  lemma SuccessExactly(u: Upstream)
    ensures Get(u).status == Success <==>
              u.Responded? && u.ok && u.body.Parsed? && u.body.status == Some("ok") && u.body.items.ItemArray?
    ensures Get(u).status == Success ==> Get(u).payload.items == NormaliseItems(u.body.items.entries)
  {
  }

  /** A transport status that is not ok gives 502 with the status in the message, and no items. */
  lemma TransportFailure(u: Upstream)
    requires u.Responded? && !u.ok
    ensures Get(u) == Reply(BadGateway, ErrorPayload(FetchFailedPrefix + NatToString(u.status)))
  {
  }

  /** Distinct transport statuses give distinct error texts. */
  lemma TransportFailureNamesStatus(u: Upstream, v: Upstream)
    requires u.Responded? && !u.ok && v.Responded? && !v.ok
    requires Get(u) == Get(v)
    ensures u.status == v.status
  {
    var m := NatToString(u.status);
    var n := NatToString(v.status);
    assert FetchFailedPrefix + m == FetchFailedPrefix + n;
    assert m == (FetchFailedPrefix + m)[|FetchFailedPrefix|..];
    assert n == (FetchFailedPrefix + n)[|FetchFailedPrefix|..];
    NatToStringInjective(u.status, v.status);
  }

  /** A parsed body whose `status` is not "ok" gives 502 with its message, or the fixed text
      when the message is missing or empty. */
  lemma UpstreamStatusNotOk(u: Upstream)
    requires u.Responded? && u.ok && u.body.Parsed? && u.body.status != Some("ok")
    ensures Get(u).status == BadGateway
    ensures Truthy(u.body.message) ==> Get(u).payload == ErrorPayload(u.body.message.value)
    ensures !Truthy(u.body.message) ==> Get(u).payload == ErrorPayload(ParseFailed)
  {
  }

  /** Every thrown failure (rejected fetch, unparsable body, items that cannot be mapped)
      gives 500 with the Error's message, or "Unknown error" for a non-Error value. */
  lemma ThrownFailures(u: Upstream)
    ensures u.FetchRejected? ==> Get(u) == Caught(u.reason)
    ensures u.Responded? && u.ok && u.body.Unreadable? ==>
              Get(u) == Reply(InternalError, ErrorPayload(u.body.syntaxError))
    ensures u.Responded? && u.ok && u.body.Parsed? && u.body.status == Some("ok") && u.body.items.NotMappable? ==>
              Get(u) == Reply(InternalError, ErrorPayload(u.body.items.typeError))
  {
  }
}
