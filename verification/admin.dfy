/** The administration page: the sign-in guard, the figures at the top of
    the page, and the list, editor and delete actions, with the table calls
    reduced to their results. */
module Admin {
  import opened Js
  import opened Articles

  // ---------------------------------------------------------------------
  // Guard

  /** Opening the page sends a visitor without a signed-in session to the
      sign-in page; any signed-in user stays, whatever their role. */
  function GuardRedirect(sessionUser: Option<string>): (target: Option<string>)
    ensures target.Some? <==> sessionUser.None?
    ensures target.Some? ==> target.value == "/auth"
  {
    if sessionUser.None? then Some("/auth") else None
  }

  /** A later sign-in event sends the visitor away on sign-out or when the
      new session has no user. */
  function AuthChangeRedirect(event: string, sessionUser: Option<string>): (target: Option<string>)
    ensures target.Some? <==> event == "SIGNED_OUT" || sessionUser.None?
    ensures target.Some? ==> target.value == "/auth"
    ensures GuardRedirect(sessionUser).Some? ==> target.Some?
  {
    if event == "SIGNED_OUT" || sessionUser.None? then Some("/auth") else None
  }

  // ---------------------------------------------------------------------
  // Figures

  /** The number of articles in a category, counted one article at a time:
      the reference the page's count is checked against. */
  function CountCategory(articles: seq<Article>, category: string): nat
    decreases |articles|
  {
    if |articles| == 0 then 0
    else (if articles[0].category == category then 1 else 0) + CountCategory(articles[1..], category)
  }

  /** `articles.filter(a => a.category === category).length`: the number of
      articles in the category, never more than the total, and zero exactly
      when no article has the category. */
  function CategoryCount(articles: seq<Article>, category: string): (n: nat)
    ensures n == CountCategory(articles, category)
    ensures n <= |articles|
    ensures n == 0 <==> forall i :: 0 <= i < |articles| ==> articles[i].category != category
  {
    var kept := OfCategory(articles, category);
    IsSubsequenceShorter(kept, articles);
    NoneKept(articles, category);
    FilterLengthIsCount(articles, category);
    |kept|
  }

  lemma {:induction false} FilterLengthIsCount(articles: seq<Article>, category: string)
    ensures |OfCategory(articles, category)| == CountCategory(articles, category)
    decreases |articles|
  {
    if |articles| > 0 {
      FilterLengthIsCount(articles[1..], category);
    }
  }

  lemma {:induction false} IsSubsequenceShorter<T>(r: seq<T>, xs: seq<T>)
    requires IsSubsequence(r, xs)
    ensures |r| <= |xs|
    decreases |xs|
  {
    if |r| > 0 {
      if r[0] == xs[0] {
        IsSubsequenceShorter(r[1..], xs[1..]);
      } else {
        IsSubsequenceShorter(r, xs[1..]);
      }
    }
  }

  lemma NoneKept(articles: seq<Article>, category: string)
    ensures |OfCategory(articles, category)| == 0 <==>
              forall i :: 0 <= i < |articles| ==> articles[i].category != category
  {
    var kept := OfCategory(articles, category);
    if |kept| > 0 {
      assert kept[0] in articles && kept[0].category == category;
    }
  }

  /** The two category counts never add up to more than the total, since an
      article has one category. */
  lemma {:induction false} CountsWithinTotal(articles: seq<Article>, c1: string, c2: string)
    requires c1 != c2
    ensures CategoryCount(articles, c1) + CategoryCount(articles, c2) <= |articles|
    decreases |articles|
  {
    if |articles| > 0 {
      CountsWithinTotal(articles[1..], c1, c2);
    }
  }

  /** `articles.reduce((sum, a) => sum + a.download_count, 0)`, adding from the left. */
  function SumDownloads(articles: seq<Article>): int
    decreases |articles|
  {
    if |articles| == 0 then 0
    else SumDownloads(articles[..|articles| - 1]) + articles[|articles| - 1].downloadCount
  }

  /** The total of a list is the total of its parts. */
  lemma {:induction false} SumDownloadsAppend(xs: seq<Article>, ys: seq<Article>)
    ensures SumDownloads(xs + ys) == SumDownloads(xs) + SumDownloads(ys)
    decreases |ys|
  {
    if |ys| == 0 {
      assert xs + ys == xs;
    } else {
      assert (xs + ys)[..|xs + ys| - 1] == xs + ys[..|ys| - 1];
      assert (xs + ys)[|xs + ys| - 1] == ys[|ys| - 1];
      SumDownloadsAppend(xs, ys[..|ys| - 1]);
    }
  }

  /** With no negative counter the total is at least any single article's count. */
  lemma {:induction false} SumDownloadsBounds(articles: seq<Article>, i: int)
    requires forall k :: 0 <= k < |articles| ==> articles[k].downloadCount >= 0
    requires 0 <= i < |articles|
    ensures SumDownloads(articles) >= articles[i].downloadCount
  {
    assert articles == articles[..i] + articles[i..];
    SumDownloadsAppend(articles[..i], articles[i..]);
    SumNonNegative(articles[..i]);
    assert articles[i..] == [articles[i]] + articles[i + 1..];
    SumDownloadsAppend([articles[i]], articles[i + 1..]);
    SumNonNegative(articles[i + 1..]);
    assert SumDownloads([articles[i]]) == SumDownloads([]) + articles[i].downloadCount;
  }

  lemma {:induction false} SumNonNegative(articles: seq<Article>)
    requires forall k :: 0 <= k < |articles| ==> articles[k].downloadCount >= 0
    ensures SumDownloads(articles) >= 0
    decreases |articles|
  {
    if |articles| > 0 {
      SumNonNegative(articles[..|articles| - 1]);
    }
  }

  /** The "total downloads" figure, accumulated as the page's reduce does. */
  method TotalDownloads(articles: seq<Article>) returns (total: int)
    ensures total == SumDownloads(articles)
  {
    total := 0;
    var i := 0;
    while i < |articles|
      invariant 0 <= i <= |articles|
      invariant total == SumDownloads(articles[..i])
    {
      assert articles[..i + 1][..i] == articles[..i];
      total := total + articles[i].downloadCount;
      i := i + 1;
    }
    assert articles[..i] == articles;
  }

  /** The four figures: all articles, full papers, research projects and downloads. */
  datatype Figures = Figures(total: nat, fullPapers: nat, research: nat, downloads: int)

  function Stats(articles: seq<Article>): (f: Figures)
    ensures f.total == |articles|
    ensures f.fullPapers == CountCategory(articles, "Artigos Completos")
    ensures f.research == CountCategory(articles, "Pesquisas")
    ensures f.fullPapers + f.research <= f.total
    ensures f.downloads == SumDownloads(articles)
  {
    CountsWithinTotal(articles, "Artigos Completos", "Pesquisas");
    Figures(|articles|, CategoryCount(articles, "Artigos Completos"),
            CategoryCount(articles, "Pesquisas"), SumDownloads(articles))
  }

  // ---------------------------------------------------------------------
  // List and editor

  /** The page's list and whether the editor is open, and on which article. */
  datatype Page = Page(articles: seq<Article>, showForm: bool, editing: Option<Article>)

  /** "Edit": the editor opens on the article; the list is kept. */
  function Edit(p: Page, a: Article): (q: Page)
    ensures q.showForm && q.editing == Some(a) && q.articles == p.articles
  {
    Page(p.articles, true, Some(a))
  }

  /** "Nova Publicação": the editor opens on whatever it was last set to
      (nothing, after a cancel or a save); the list is kept. */
  function New(p: Page): (q: Page)
    ensures q.showForm && q.editing == p.editing && q.articles == p.articles
    ensures p.editing.None? ==> q == Page(p.articles, true, None)
  {
    p.(showForm := true)
  }

  /** "Cancel": the editor closes; the list is kept. */
  function Cancel(p: Page): (q: Page)
    ensures !q.showForm && q.editing.None? && q.articles == p.articles
  {
    Page(p.articles, false, None)
  }

  /** A saved form closes the editor and reloads the list. */
  function FormSuccess(p: Page, reloadFailed: bool, data: Option<seq<Article>>): (q: Page)
    ensures !q.showForm && q.editing.None?
    ensures q.articles == Reloaded(p.articles, reloadFailed, data)
  {
    Page(Reloaded(p.articles, reloadFailed, data), false, None)
  }

  /** A save followed by a failed reload looks the same as a cancel. */
  lemma FailedReloadIsCancel(p: Page, data: Option<seq<Article>>)
    ensures FormSuccess(p, true, data) == Cancel(p)
  {
  }

  /** "Delete": nothing happens unless the visitor confirms; then the row
      is deleted by id and, only if that succeeds, the list is reloaded. */
  function Delete(p: Page, id: string, confirmed: bool, deleteFailed: bool,
                  reloadFailed: bool, data: Option<seq<Article>>): (r: (Page, Option<string>))
    ensures r.1.Some? <==> confirmed
    ensures r.1.Some? ==> r.1.value == id
    ensures !confirmed || deleteFailed ==> r.0 == p
    ensures confirmed && !deleteFailed ==> r.0 == p.(articles := Reloaded(p.articles, reloadFailed, data))
    ensures r.0.showForm == p.showForm && r.0.editing == p.editing
  {
    if !confirmed then (p, None)
    else if deleteFailed then (p, Some(id))
    else (p.(articles := Reloaded(p.articles, reloadFailed, data)), Some(id))
  }
}
