/** One blog card (techportfolio/app/components/BlogCard.tsx): the `safeArticle` fallbacks,
    the branch for a missing article, the image branch and the category chips. */
module BlogCard {
  import opened Js
  import BlogSection

  /** The `article` prop; a field that is absent or `null` is None. */
  datatype Props = Props(
    title: Option<string>,
    description: Option<string>,
    image: Option<string>,
    date: Option<string>,
    link: Option<string>,
    categories: Option<seq<string>>)

  datatype SafeArticle = SafeArticle(
    title: string,
    description: string,
    image: string,
    date: string,
    link: string,
    categories: seq<string>)

  const UntitledArticle := "Untitled Article"
  const NoDescription := "No description available"
  const PlaceholderImage := "/images/profilepicture/blog.jpg"
  const NoDate := "No date"
  const NoLink := "#"
  const ChipLimit := 2

  /** `safeArticle`: each field is the prop's when that is truthy, its fixed default otherwise. */
  function Safe(p: Props): (a: SafeArticle)
    ensures a.title == (if Truthy(p.title) then p.title.value else UntitledArticle)
    ensures a.description == (if Truthy(p.description) then p.description.value else NoDescription)
    ensures a.image == (if Truthy(p.image) then p.image.value else PlaceholderImage)
    ensures a.date == (if Truthy(p.date) then p.date.value else NoDate)
    ensures a.link == (if Truthy(p.link) then p.link.value else NoLink)
    ensures a.categories == (if p.categories.Some? then p.categories.value else [])
    ensures a.title != "" && a.description != "" && a.image != "" && a.date != "" && a.link != ""
  {
    SafeArticle(
      title := Or(p.title, UntitledArticle),
      description := Or(p.description, NoDescription),
      image := Or(p.image, PlaceholderImage),
      date := Or(p.date, NoDate),
      link := Or(p.link, NoLink),
      categories := OrEmpty(p.categories))
  }

  /** A safe article handed back as a prop. */
  function AsProps(a: SafeArticle): Props
  {
    Props(Some(a.title), Some(a.description), Some(a.image), Some(a.date), Some(a.link), Some(a.categories))
  }

  /** Applying the fallbacks to a safe article changes nothing. */
  lemma SafeIdempotent(p: Props)
    ensures Safe(AsProps(Safe(p))) == Safe(p)
  {
  }

  datatype CardImage = Picture(src: string, alt: string) | EmojiPlaceholder

  datatype Card =
    | MissingArticle
    | ArticleCard(image: CardImage, title: string, date: string, description: string,
                  chips: seq<string>, href: string)

  /** The rendered card: the error card for a missing article; otherwise the image (or the
      emoji placeholder when the safe image is falsy), title, date, description, at most two
      category chips and the link. */
  function Render(article: Option<Props>): (c: Card)
    ensures article.None? <==> c.MissingArticle?
  {
    match article
    case None => MissingArticle
    case Some(p) =>
      var a := Safe(p);
      ArticleCard(
        image := if a.image != "" then Picture(a.image, a.title) else EmojiPlaceholder,
        title := a.title,
        date := a.date,
        description := a.description,
        chips := if |a.categories| > 0 then Take(a.categories, ChipLimit) else [],
        href := a.link)
  }

  /** The safe image is never empty, so the emoji placeholder is never shown. */
  lemma ImageBranchAlwaysTaken(p: Props)
    ensures Render(Some(p)).image == Picture(Safe(p).image, Safe(p).title)
  {
  }

  /** The chips are the first two categories in order; none when there are no categories. */
  lemma ChipsAreFirstTwo(p: Props)
    ensures var c := Render(Some(p)).chips;
            var cats := Safe(p).categories;
            && |c| == (if |cats| < ChipLimit then |cats| else ChipLimit)
            && (forall i :: 0 <= i < |c| ==> c[i] == cats[i])
            && (cats == [] ==> c == [])
  {
  }

  /** The prop the blog section passes for one of its articles. */
  function FromArticle(a: BlogSection.Article): Props
  {
    Props(a.title, Some(a.description), Some(a.image), Some(a.date), a.link, Some(a.categories))
  }

  /** For an article shaped by the blog section, the card shows its description, image and
      date unchanged: the section's own fallbacks are already non-empty. */
  lemma SectionArticleShownAsIs(d: BlogSection.ApiArticle, formatDate: string -> string)
    requires Truthy(d.pubDate) ==> formatDate(d.pubDate.value) != ""
    ensures var a := BlogSection.ProcessArticle(d, formatDate);
            var s := Safe(FromArticle(a));
            && s.description == a.description
            && s.image == a.image
            && s.date == a.date
            && s.categories == a.categories
  {
  }
}
