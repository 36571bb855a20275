/** The news pages: the search of the news listing and the summary card
    each news item is shown as. */
module News {
  import opened Js
  import opened Articles

  /** A row of the `articles` table with content type `news`; summary,
      content and image may be missing. */
  datatype NewsItem = NewsItem(
    id: string,
    title: string,
    summary: Option<string>,
    content: Option<string>,
    imageUrl: Option<string>,
    authors: seq<string>,
    publishDate: string,
    tags: seq<string>)

  /** A field that may be missing: a missing one matches nothing. */
  predicate OptionalMatches(field: Option<string>, query: string) {
    field.Some? && FieldMatches(field.value, query)
  }

  /** The news search: title, summary, content, any author or any tag. */
  predicate NewsMatches(n: NewsItem, query: string) {
    FieldMatches(n.title, query) || OptionalMatches(n.summary, query) ||
    OptionalMatches(n.content, query) || SomeMatches(n.authors, query) || SomeMatches(n.tags, query)
  }

  /** The news listing: every item while the search box is empty, otherwise
      the items the search matches, in their order. */
  function Noticias(news: seq<NewsItem>, query: string): (shown: seq<NewsItem>)
    ensures IsSubsequence(shown, news)
    ensures query == "" ==> shown == news
    ensures forall i :: 0 <= i < |shown| ==> NewsMatches(shown[i], query)
    ensures forall i :: 0 <= i < |news| && NewsMatches(news[i], query) ==> news[i] in shown
  {
    EmptyQueryMatchesNews(news);
    EmptyQueryKeepsAll(news, query);
    Filter(news, (n: NewsItem) => query == "" || NewsMatches(n, query))
  }

  lemma EmptyQueryMatchesNews(news: seq<NewsItem>)
    ensures forall i :: 0 <= i < |news| ==> NewsMatches(news[i], "")
  {
    forall i | 0 <= i < |news|
      ensures NewsMatches(news[i], "")
    {
      IncludesEmpty(ToLowerCase(news[i].title));
      assert ToLowerCase("") == "";
    }
  }

  lemma EmptyQueryKeepsAll(news: seq<NewsItem>, query: string)
    ensures query == "" ==> Filter(news, (n: NewsItem) => query == "" || NewsMatches(n, query)) == news
  {
    if query == "" {
      FilterKeepsAll(news, (n: NewsItem) => query == "" || NewsMatches(n, query));
    }
  }

  /** The empty-box shortcut changes nothing: the listing is the plain search. */
  lemma NoticiasIsSearch(news: seq<NewsItem>, query: string)
    ensures Noticias(news, query) == Filter(news, (n: NewsItem) => NewsMatches(n, query))
  {
    EmptyQueryMatchesNews(news);
    FilterAgrees(news, (n: NewsItem) => query == "" || NewsMatches(n, query),
                 (n: NewsItem) => NewsMatches(n, query));
  }

  /** For a non-empty query, a missing summary and an empty one are alike. */
  lemma MissingSummaryIsEmpty(n: NewsItem, query: string)
    requires query != ""
    ensures NewsMatches(n.(summary := None), query) == NewsMatches(n.(summary := Some("")), query)
  {
    assert |ToLowerCase(query)| > 0;
  }

  // ---------------------------------------------------------------------
  // The card

  /** The tag badges: at most three, then a "+n" badge counting the rest. */
  datatype TagStrip = TagStrip(badges: seq<string>, more: Option<nat>)

  /** What a news card shows: its link, the background image, and the
      summary, author line and tag strip when there is something to show. */
  datatype NewsCard = NewsCard(
    link: string,
    background: string,
    summary: Option<string>,
    authorsLine: Option<string>,
    tags: Option<TagStrip>)

  const Placeholder: string := "/placeholder.svg"

  /** The card of a news item. The tag strip shows the first three tags and
      counts the others, so every tag is either shown or counted. */
  function Card(n: NewsItem): (c: NewsCard)
    ensures c.link == "/noticia/" + n.id
    ensures Truthy(n.imageUrl) ==> c.background == n.imageUrl.value
    ensures !Truthy(n.imageUrl) ==> c.background == Placeholder
    ensures c.summary.Some? <==> Truthy(n.summary)
    ensures c.summary.Some? ==> c.summary == n.summary
    ensures c.authorsLine.Some? <==> |n.authors| > 0
    ensures c.authorsLine.Some? ==> c.authorsLine.value == Join(n.authors, ", ")
    ensures c.tags.Some? <==> |n.tags| > 0
    ensures c.tags.Some? ==>
              var strip := c.tags.value;
              |strip.badges| == (if |n.tags| < 3 then |n.tags| else 3) && strip.badges <= n.tags &&
              (strip.more.Some? <==> |n.tags| > 3) &&
              |strip.badges| + (if strip.more.Some? then strip.more.value else 0) == |n.tags|
  {
    var strip :=
      if |n.tags| == 0 then None
      else Some(TagStrip(n.tags[..if |n.tags| < 3 then |n.tags| else 3],
                         if |n.tags| > 3 then Some(|n.tags| - 3) else None));
    NewsCard("/noticia/" + n.id,
             if Truthy(n.imageUrl) then n.imageUrl.value else Placeholder,
             if Truthy(n.summary) then n.summary else None,
             if |n.authors| > 0 then Some(Join(n.authors, ", ")) else None,
             strip)
  }
}
