/** The client blog listing (techportfolio/app/components/BlogSection.tsx): the reshaping of
    each article the endpoint returns, the fetch-on-mount lifecycle guarded by `isMounted`,
    and the choice between the loading, error, empty and grid views. */
module BlogSection {
  import opened Js
  import Feed

  // ---------------------------------------------------------------------------
  // Tag stripping: description.replace(/<[^>]*>?/gm, '')
  // ---------------------------------------------------------------------------

  /** Length of the tag that opens `s`: the `<`, the longest run of non-`>` after it,
      and the `>` that ends the run when there is one. */
  function TagLength(s: string): (n: nat)
    requires s != [] && s[0] == '<'
    ensures 1 <= n <= |s|
    ensures forall j :: 1 <= j < n - 1 ==> s[j] != '>'
    ensures n < |s| ==> s[n - 1] == '>'
  {
    var m := RunNotGt(s, 1);
    if 1 + m < |s| then m + 2 else m + 1
  }

  /** The description with every match of the pattern removed, scanning left to right. */
  function StripTags(s: string): (r: string)
    ensures '<' !in r
    ensures |r| <= |s|
    decreases |s|
  {
    if s == [] then []
    else if s[0] == '<' then StripTags(s[TagLength(s)..])
    else [s[0]] + StripTags(s[1..])
  }

  /** Text without `<` passes through unchanged, whatever else it holds. */
  lemma {:induction false} StripPlainPrefix(a: string, b: string)
    requires '<' !in a
    ensures StripTags(a + b) == a + StripTags(b)
    decreases |a|
  {
    if a != [] {
      assert a[0] in a;
      assert '<' !in a[1..] by {
        forall j | 0 <= j < |a[1..]| ensures a[1..][j] != '<' { assert a[1..][j] == a[j + 1] && a[j + 1] in a; }
      }
      assert (a + b)[0] == a[0];
      assert (a + b)[1..] == a[1..] + b;
      assert StripTags(a + b) == [a[0]] + StripTags(a[1..] + b);
      StripPlainPrefix(a[1..], b);
      assert a == [a[0]] + a[1..];
      assert [a[0]] + (a[1..] + StripTags(b)) == ([a[0]] + a[1..]) + StripTags(b);
    } else {
      assert a + b == b;
    }
  }

  lemma StripPlain(s: string)
    requires '<' !in s
    ensures StripTags(s) == s
  {
    StripPlainPrefix(s, []);
    assert s + [] == s;
  }

  /** Stripping twice is stripping once. */
  lemma StripIdempotent(s: string)
    ensures StripTags(StripTags(s)) == StripTags(s)
  {
    StripPlain(StripTags(s));
  }

  /** A complete tag `<...>` disappears, and the text after it is stripped on its own. */
  lemma StripClosedTag(body: string, rest: string)
    requires '>' !in body
    ensures StripTags("<" + body + ">" + rest) == StripTags(rest)
  {
    var s := "<" + body + ">" + rest;
    assert s[1 + |body|] == '>';
    assert forall j :: 1 <= j < 1 + |body| ==> s[j] == body[j - 1];
    assert RunNotGt(s, 1) == |body|;
    assert s[|body| + 2..] == rest;
  }

  /** A `<` that no `>` follows removes everything from it to the end, whatever comes
      before it: the text before it is stripped as if it stood alone. */
  lemma {:induction false} StripUnterminated(a: string, t: string)
    requires t != [] && t[0] == '<' && '>' !in t
    ensures StripTags(a + t) == StripTags(a)
    decreases |a|
  {
    var s := a + t;
    if a == [] {
      assert s == t;
      assert forall j :: 1 <= j < |t| ==> t[j] != '>' by {
        forall j | 1 <= j < |t| ensures t[j] != '>' { assert t[j] in t; }
      }
      assert RunNotGt(t, 1) == |t| - 1;
      assert t[|t|..] == [];
    } else if a[0] != '<' {
      assert s[0] == a[0];
      assert s[1..] == a[1..] + t;
      StripUnterminated(a[1..], t);
    } else {
      assert s[0] == '<';
      var m := RunNotGt(a, 1);
      if 1 + m < |a| {
        // `a` closes its first tag itself, so the tag is the same in `a + t`.
        assert forall j :: 1 <= j < 1 + m ==> s[j] != '>' by {
          forall j | 1 <= j < 1 + m ensures s[j] != '>' { assert s[j] == a[j]; }
        }
        assert s[1 + m] == a[1 + m] == '>';
        assert RunNotGt(s, 1) == m;
        assert s[m + 2..] == a[m + 2..] + t;
        StripUnterminated(a[m + 2..], t);
      } else {
        // The first tag of `a` is unterminated, so it runs to the end of `a + t` too.
        assert forall j :: 1 <= j < |s| ==> s[j] != '>' by {
          forall j | 1 <= j < |s| ensures s[j] != '>' {
            if j < |a| {
              assert s[j] == a[j];
            } else {
              assert s[j] == t[j - |a|] && t[j - |a|] in t;
            }
          }
        }
        assert RunNotGt(s, 1) == |s| - 1;
        assert s[|s|..] == [];
        assert a[|a|..] == [];
      }
    }
  }

  /** The special case of a `<`-free prefix: the prefix is all that remains. */
  lemma StripPlainThenUnterminated(a: string, t: string)
    requires '<' !in a && t != [] && t[0] == '<' && '>' !in t
    ensures StripTags(a + t) == a
  {
    StripUnterminated(a, t);
    StripPlain(a);
  }

  /** A description cut off inside a tag after an earlier complete one, such as
      `<p>intro <b`: only the text between the tags remains. */
  lemma CutOffTagAfterTag(text: string, name: string)
    requires '<' !in text && '>' !in name
    ensures StripTags("<p>" + text + "<" + name) == text
  {
    assert "<p>" + text + "<" + name == "<" + "p" + ">" + (text + ("<" + name));
    StripClosedTag("p", text + ("<" + name));
    assert '>' !in "<" + name by {
      forall j | 0 <= j < |"<" + name| ensures ("<" + name)[j] != '>' {
        if j > 0 { assert ("<" + name)[j] == name[j - 1] && name[j - 1] in name; }
      }
    }
    StripPlainThenUnterminated(text, "<" + name);
  }

  /** A `>` with no `<` before it is ordinary text and survives. */
  lemma StrayCloseSurvives(a: string, b: string)
    requires '<' !in a
    ensures StripTags(a + ">" + b) == a + ">" + StripTags(b)
  {
    assert a + ">" + b == (a + ">") + b;
    StripPlainPrefix(a + ">", b);
  }

  // ---------------------------------------------------------------------------
  // One article
  // ---------------------------------------------------------------------------

  const SummaryLength := 150
  const Ellipsis := "..."
  const NoDescription := "No description available"
  const PlaceholderImage := "/images/profilepicture/blog.jpg"
  const NoDate := "No date"

  /** The card text for a description: tags stripped, cut to its first 150 characters, `...` appended;
      a missing or empty description gives the fixed placeholder. */
  function Summary(description: Option<string>): (r: string)
    ensures !Truthy(description) ==> r == NoDescription
    ensures Truthy(description) ==>
              var plain := StripTags(description.value);
              && |r| == (if |plain| < SummaryLength then |plain| else SummaryLength) + |Ellipsis|
              && r[..|r| - |Ellipsis|] == plain[..|r| - |Ellipsis|]
              && r[|r| - |Ellipsis|..] == Ellipsis
              && |r| <= SummaryLength + |Ellipsis|
              && '<' !in r
  {
    if Truthy(description) then Take(StripTags(description.value), SummaryLength) + Ellipsis
    else NoDescription
  }

  /** A plain description of at least 150 characters keeps exactly its first 150, then `...`. */
  lemma LongPlainSummary(d: string)
    requires '<' !in d && |d| >= SummaryLength
    ensures Summary(Some(d)) == d[..SummaryLength] + Ellipsis
  {
    StripPlain(d);
  }

  /** A description made only of tags still gets the ellipsis. */
  lemma TagsOnlySummary(body: string)
    requires '>' !in body
    ensures Summary(Some("<" + body + ">")) == Ellipsis
  {
    StripClosedTag(body, []);
    assert "<" + body + ">" + [] == "<" + body + ">";
  }

  /** An article as the endpoint's JSON delivers it; an absent or `null` field is None. */
  datatype ApiArticle = ApiArticle(
    title: Option<string>,
    link: Option<string>,
    pubDate: Option<string>,
    thumbnail: Option<string>,
    description: Option<string>,
    categories: Option<seq<string>>)

  /** The object the component keeps and passes to a card. `title` and `link` are copied
      as they come, so they may be absent. */
  datatype Article = Article(
    title: Option<string>,
    description: string,
    image: string,
    date: string,
    link: Option<string>,
    categories: seq<string>)

  /** The reshaping of one article; `formatDate` stands for
      `new Date(d).toLocaleDateString('en-US', { year, month: 'long', day })`. */
  function ProcessArticle(a: ApiArticle, formatDate: string -> string): (r: Article)
    ensures r.title == a.title && r.link == a.link
    ensures r.description == Summary(a.description)
    ensures Truthy(a.thumbnail) ==> r.image == a.thumbnail.value
    ensures !Truthy(a.thumbnail) ==> r.image == PlaceholderImage
    ensures Truthy(a.pubDate) ==> r.date == formatDate(a.pubDate.value)
    ensures !Truthy(a.pubDate) ==> r.date == NoDate
    ensures r.categories == (if a.categories.Some? then a.categories.value else [])
    ensures r.description != "" && r.image != ""
  {
    Article(
      title := a.title,
      description := Summary(a.description),
      image := Or(a.thumbnail, PlaceholderImage),
      date := if Truthy(a.pubDate) then formatDate(a.pubDate.value) else NoDate,
      link := a.link,
      categories := OrEmpty(a.categories))
  }

  /** `data.map(...)`: one article per entry, same order, each shaped on its own. */
  function ProcessArticles(data: seq<ApiArticle>, formatDate: string -> string): (r: seq<Article>)
    ensures |r| == |data|
    ensures forall i :: 0 <= i < |data| ==> r[i] == ProcessArticle(data[i], formatDate)
    decreases |data|
  {
    if data == [] then [] else [ProcessArticle(data[0], formatDate)] + ProcessArticles(data[1..], formatDate)
  }

  // ---------------------------------------------------------------------------
  // From the endpoint to the card
  // ---------------------------------------------------------------------------

  /** A record of the endpoint as the client reads it back from JSON: every string field is
      present, and `thumbnail` is present exactly when it is not `null`. */
  function FromFeedItem(f: Feed.FeedItem): ApiArticle
  {
    ApiArticle(Some(f.title), Some(f.link), Some(f.pubDate), f.thumbnail, Some(f.description), Some(f.categories))
  }

  /** The two stages together: what the card receives for one upstream item. The title and
      link are always present and non-empty, a missing upstream date shows "No date", and the
      thumbnail the endpoint found becomes the image. */
  lemma {:induction false} EndToEnd(item: Feed.RawItem, formatDate: string -> string)
    ensures var a := ProcessArticle(FromFeedItem(Feed.NormaliseItem(item)), formatDate);
            && a.title.Some? && a.title.value != ""
            && a.link.Some? && a.link.value != ""
            && (!Truthy(item.pubDate) ==> a.date == NoDate)
            && (Truthy(item.pubDate) ==> a.date == formatDate(item.pubDate.value))
            && (!Truthy(item.description) ==> a.description == NoDescription)
            && (Feed.Thumbnail(item).Some? ==> a.image == Feed.Thumbnail(item).value)
            && (Feed.Thumbnail(item).None? ==> a.image == PlaceholderImage)
  {
    var f := Feed.NormaliseItem(item);
    assert Truthy(Some(f.pubDate)) <==> Truthy(item.pubDate);
    assert Truthy(Some(f.description)) <==> Truthy(item.description);
  }

  // ---------------------------------------------------------------------------
  // The fetch and its outcome
  // ---------------------------------------------------------------------------

  /** The body of an `ok` reply: the parsed array, or an Error thrown while parsing it or
      mapping over it (for a body that is not an array), with its message. */
  datatype Decoded = Unusable(message: string) | Articles(data: seq<ApiArticle>)

  /** What `fetch('/api/blogs')` produced. */
  datatype ClientReply =
    | FetchRejected(reason: Thrown)
    | Received(ok: bool, status: nat, body: Decoded)

  /** What `fetchBlogs` hands to the state: the processed list, or the `message` of what was
      caught (None when the caught value is not an Error, whose `message` is `undefined`). */
  datatype Outcome = Loaded(articles: seq<Article>) | Failed(message: Option<string>)

  const ApiReturnedPrefix := "API returned "

  /** `err.message`: the message of an Error, `undefined` for any other caught value. */
  function MessageOf(t: Thrown): (r: Option<string>)
    ensures r.Some? <==> t.ErrorValue?
    ensures t.ErrorValue? ==> r.value == t.message
  {
    match t
    case ErrorValue(m) => Some(m)
    case NonError => None
  }

  function FetchOutcome(reply: ClientReply, formatDate: string -> string): (o: Outcome)
    ensures o.Loaded? <==> reply.Received? && reply.ok && reply.body.Articles?
    ensures o.Loaded? ==> o.articles == ProcessArticles(reply.body.data, formatDate)
    ensures reply.Received? && !reply.ok ==> o == Failed(Some(ApiReturnedPrefix + NatToString(reply.status)))
    ensures reply.FetchRejected? ==> o == Failed(MessageOf(reply.reason))
    ensures reply.Received? && reply.ok && reply.body.Unusable? ==> o == Failed(Some(reply.body.message))
  {
    match reply
    case FetchRejected(t) => Failed(MessageOf(t))
    case Received(ok, status, body) =>
      if !ok then Failed(Some(ApiReturnedPrefix + NatToString(status)))
      else
        match body
        case Unusable(m) => Failed(Some(m))
        case Articles(data) => Loaded(ProcessArticles(data, formatDate))
  }

  // ---------------------------------------------------------------------------
  // Views
  // ---------------------------------------------------------------------------

  const GridLimit := 6

  datatype View = LoadingView | ErrorView(message: string) | EmptyView | GridView(cards: seq<Article>)

  /** The four conditions of the render, as written there. */
  predicate ShowsLoading(loading: bool, error: Option<string>, articles: seq<Article>) { loading }
  predicate ShowsError(loading: bool, error: Option<string>, articles: seq<Article>) { !loading && Truthy(error) }
  predicate ShowsEmpty(loading: bool, error: Option<string>, articles: seq<Article>) { !loading && !Truthy(error) && |articles| == 0 }
  predicate ShowsGrid(loading: bool, error: Option<string>, articles: seq<Article>) { !loading && !Truthy(error) && |articles| > 0 }

  /** The view on screen: the one whose condition holds (exactly one does), and for the grid
      the first six articles in order. */
  function SelectView(loading: bool, error: Option<string>, articles: seq<Article>): (v: View)
    ensures v.LoadingView? <==> ShowsLoading(loading, error, articles)
    ensures v.ErrorView? <==> ShowsError(loading, error, articles)
    ensures v.EmptyView? <==> ShowsEmpty(loading, error, articles)
    ensures v.GridView? <==> ShowsGrid(loading, error, articles)
    ensures v.ErrorView? ==> v.message == error.value
    ensures v.GridView? ==> |v.cards| == (if |articles| < GridLimit then |articles| else GridLimit)
    ensures v.GridView? ==> forall i :: 0 <= i < |v.cards| ==> v.cards[i] == articles[i]
  {
    if loading then LoadingView
    else if Truthy(error) then ErrorView(error.value)
    else if |articles| == 0 then EmptyView
    else GridView(Take(articles, GridLimit))
  }

  /** The view once the fetch has settled while the component is still mounted: never the
      spinner; the error panel exactly when the outcome is a failure with a truthy message,
      and then with that message; otherwise the empty view or the grid of loaded articles. */
  function SettledView(reply: ClientReply, formatDate: string -> string): (v: View)
    ensures !v.LoadingView?
    ensures v.ErrorView? <==> FetchOutcome(reply, formatDate).Failed? && Truthy(FetchOutcome(reply, formatDate).message)
    ensures v.ErrorView? ==> v.message == FetchOutcome(reply, formatDate).message.value
    ensures v.GridView? ==> FetchOutcome(reply, formatDate).Loaded? && v.cards != []
  {
    match FetchOutcome(reply, formatDate)
    case Loaded(xs) => SelectView(false, None, xs)
    case Failed(m) => SelectView(false, m, [])
  }

  /** A reply that is not ok shows the error panel naming the status. */
  lemma NotOkShowsStatus(reply: ClientReply, formatDate: string -> string)
    requires reply.Received? && !reply.ok
    ensures SettledView(reply, formatDate) == ErrorView(ApiReturnedPrefix + NatToString(reply.status))
  {
  }

  /** An empty list shows the empty message, not an error. */
  lemma NoArticlesShowsEmpty(reply: ClientReply, formatDate: string -> string)
    requires reply.Received? && reply.ok && reply.body.Articles? && reply.body.data == []
    ensures SettledView(reply, formatDate) == EmptyView
  {
  }

  /** A non-empty list shows min(6, n) cards: the first articles, in order. */
  lemma ArticlesShowGrid(reply: ClientReply, formatDate: string -> string)
    requires reply.Received? && reply.ok && reply.body.Articles? && reply.body.data != []
    ensures var v := SettledView(reply, formatDate);
            && v.GridView?
            && |v.cards| == (if |reply.body.data| < GridLimit then |reply.body.data| else GridLimit)
            && forall i :: 0 <= i < |v.cards| ==> v.cards[i] == ProcessArticle(reply.body.data[i], formatDate)
  {
  }

  /** A rejected fetch whose Error carries a message shows the error panel with it. */
  lemma RejectedFetchShowsError(reply: ClientReply, formatDate: string -> string)
    requires reply.FetchRejected? && reply.reason.ErrorValue? && reply.reason.message != ""
    ensures SettledView(reply, formatDate) == ErrorView(reply.reason.message)
  {
  }

  /** An ok reply whose body cannot be read as an array of articles shows the error panel
      with the message of what was thrown, when that message is non-empty. */
  lemma UnusableBodyShowsError(reply: ClientReply, formatDate: string -> string)
    requires reply.Received? && reply.ok && reply.body.Unusable? && reply.body.message != ""
    ensures SettledView(reply, formatDate) == ErrorView(reply.body.message)
  {
  }

  /** A caught value without a usable message leaves `error` falsy, so the empty message
      is shown instead of the error panel. The value is a rejected fetch's non-Error or
      Error with an empty message, or the empty-message Error thrown for an unusable body. */
  lemma SilentFailureShowsEmpty(reply: ClientReply, formatDate: string -> string)
    requires || (reply.FetchRejected? && (reply.reason.NonError? || reply.reason.message == ""))
             || (reply.Received? && reply.ok && reply.body.Unusable? && reply.body.message == "")
    ensures SettledView(reply, formatDate) == EmptyView
  {
  }

  // ---------------------------------------------------------------------------
  // The component's state and the effect that fetches
  // ---------------------------------------------------------------------------

  /** The component's `articles`, `loading` and `error` state, and the `isMounted` flag of
      the fetch effect. */
  class Section {
    var articles: seq<Article>
    var loading: bool
    var error: Option<string>
    var isMounted: bool

    /** While loading, nothing has been stored yet. */
    ghost predicate Valid()
      reads this
    {
      loading ==> articles == [] && error == None
    }

    /** Mounting: the initial state, and the effect's flag set. */
    constructor ()
      ensures Valid()
      ensures articles == [] && loading && error == None && isMounted
    {
      articles, loading, error, isMounted := [], true, None, true;
    }

    function CurrentView(): View
      reads this
    {
      SelectView(loading, error, articles)
    }

    /** The effect's cleanup on unmount. */
    method Unmount()
      modifies this`isMounted
      ensures !isMounted
    {
      isMounted := false;
    }

    /** The end of `fetchBlogs`: while mounted, the outcome is stored and loading stops;
        after unmount, nothing changes. */
    method Settle(reply: ClientReply, formatDate: string -> string)
      requires Valid()
      modifies this`articles, this`loading, this`error
      ensures Valid()
      ensures !isMounted ==> articles == old(articles) && loading == old(loading) && error == old(error)
      ensures isMounted ==> !loading
      ensures isMounted && FetchOutcome(reply, formatDate).Loaded? ==>
                articles == FetchOutcome(reply, formatDate).articles && error == old(error)
      ensures isMounted && FetchOutcome(reply, formatDate).Failed? ==>
                error == FetchOutcome(reply, formatDate).message && articles == old(articles)
      ensures isMounted && old(loading) ==> CurrentView() == SettledView(reply, formatDate)
    {
      var outcome := FetchOutcome(reply, formatDate);
      match outcome {
        case Loaded(xs) =>
          if isMounted {
            articles := xs;
            loading := false;
          }
        case Failed(m) =>
          if isMounted {
            error := m;
            loading := false;
          }
      }
    }
  }
}
