/** The publication record mirrored from the `articles` table, the search
    predicates the listing pages share, and the order-preserving filter
    (`Array.prototype.filter`) they are built from. */
module Articles {
  import opened Js

  /** The author name the group uses for its collective works. */
  const Gepefe: string := "Integrantes do Grupo de Estudos e Pesquisas em Educação Física e Escola"

  /** The category that stands for "no category restriction". */
  const AllCategories: string := "Todos"

  /** A work of the whole group has the collective name as its only author. */
  predicate IsCollective(authors: seq<string>) {
    |authors| == 1 && authors[0] == Gepefe
  }

  datatype Article = Article(
    id: string,
    title: string,
    authors: seq<string>,
    abstractText: string,
    category: string,
    publishDate: string,
    downloadCount: int,
    pdfUrl: Option<string>,
    filePath: Option<string>,
    fileSize: Option<int>,
    fileType: Option<string>,
    tags: seq<string>)

  // ---------------------------------------------------------------------
  // Search

  /** `field.toLowerCase().includes(query.toLowerCase())`. */
  predicate FieldMatches(field: string, query: string) {
    Includes(ToLowerCase(field), ToLowerCase(query))
  }

  /** `fields.some(f => FieldMatches(f, query))`. */
  predicate SomeMatches(fields: seq<string>, query: string) {
    exists i :: 0 <= i < |fields| && FieldMatches(fields[i], query)
  }

  /** The search of the general listings: title, any author, abstract or any tag. */
  predicate MatchesWithTags(a: Article, query: string) {
    FieldMatches(a.title, query) || SomeMatches(a.authors, query) ||
    FieldMatches(a.abstractText, query) || SomeMatches(a.tags, query)
  }

  /** The search of the favourites and single-category pages: tags are not searched. */
  predicate MatchesWithoutTags(a: Article, query: string) {
    FieldMatches(a.title, query) || SomeMatches(a.authors, query) || FieldMatches(a.abstractText, query)
  }

  /** The empty query is a substring of every field, so it matches every article. */
  lemma EmptyQueryMatches(a: Article)
    ensures MatchesWithoutTags(a, "") && MatchesWithTags(a, "")
  {
    assert ToLowerCase("") == "";
    IncludesEmpty(ToLowerCase(a.title));
  }

  /** Matching lower-cases the query itself, so a caller that lower-cases it
      first gets the same answer. */
  lemma LoweredQueryMatchesAlike(a: Article, query: string)
    ensures MatchesWithTags(a, ToLowerCase(query)) == MatchesWithTags(a, query)
    ensures MatchesWithoutTags(a, ToLowerCase(query)) == MatchesWithoutTags(a, query)
  {
    ToLowerCaseIdempotent(query);
  }

  // ---------------------------------------------------------------------
  // Order-preserving filtering

  /** `r` is `xs` with some elements left out and the rest in their order. */
  predicate IsSubsequence<T(==)>(r: seq<T>, xs: seq<T>)
    decreases |xs|
  {
    if |r| == 0 then true
    else if |xs| == 0 then false
    else if r[0] == xs[0] then IsSubsequence(r[1..], xs[1..])
    else IsSubsequence(r, xs[1..])
  }

  lemma {:induction false} SubsequenceOfLonger<T>(r: seq<T>, tail: seq<T>, x: T)
    requires IsSubsequence(r, tail)
    ensures IsSubsequence(r, [x] + tail)
    decreases |tail|, 1
  {
    var xs := [x] + tail;
    assert xs[1..] == tail;
    if |r| > 0 && r[0] == x {
      SubsequenceDropFirst(r, tail);
    }
  }

  lemma {:induction false} SubsequenceDropFirst<T>(r: seq<T>, ys: seq<T>)
    requires |r| > 0 && IsSubsequence(r, ys)
    ensures IsSubsequence(r[1..], ys)
    decreases |ys|, 0
  {
    if r[0] == ys[0] {
      SubsequenceOfLonger(r[1..], ys[1..], ys[0]);
      assert [ys[0]] + ys[1..] == ys;
    } else {
      SubsequenceDropFirst(r, ys[1..]);
      SubsequenceOfLonger(r[1..], ys[1..], ys[0]);
      assert [ys[0]] + ys[1..] == ys;
    }
  }

  /** `xs.filter(p)`: exactly the elements satisfying `p`, in their order;
      `FilterCounts` adds that each is kept as often as it occurs. */
  function Filter<T(==)>(xs: seq<T>, p: T -> bool): (r: seq<T>)
    ensures forall i :: 0 <= i < |r| ==> p(r[i])
    ensures forall i :: 0 <= i < |xs| && p(xs[i]) ==> xs[i] in r
    ensures forall y :: y in r ==> y in xs
    ensures IsSubsequence(r, xs)
    decreases |xs|
  {
    if |xs| == 0 then []
    else
      var rest := Filter(xs[1..], p);
      assert [xs[0]] + xs[1..] == xs;
      SubsequenceOfLonger(rest, xs[1..], xs[0]);
      if p(xs[0]) then [xs[0]] + rest else rest
  }

  /** The filter keeps every element satisfying `p` as often as it occurs
      in the list, and no other element. */
  lemma {:induction false} FilterCounts<T>(xs: seq<T>, p: T -> bool)
    ensures forall y :: multiset(Filter(xs, p))[y] == (if p(y) then multiset(xs)[y] else 0)
    decreases |xs|
  {
    if |xs| > 0 {
      FilterCounts(xs[1..], p);
      assert [xs[0]] + xs[1..] == xs;
      assert multiset(xs) == multiset([xs[0]]) + multiset(xs[1..]);
      var rest := Filter(xs[1..], p);
      if p(xs[0]) {
        assert multiset(Filter(xs, p)) == multiset([xs[0]]) + multiset(rest);
      } else {
        assert Filter(xs, p) == rest;
      }
    }
  }

  /** Filtering by predicates that agree on the list gives the same result. */
  lemma {:induction false} FilterAgrees<T>(xs: seq<T>, p: T -> bool, q: T -> bool)
    requires forall i :: 0 <= i < |xs| ==> p(xs[i]) == q(xs[i])
    ensures Filter(xs, p) == Filter(xs, q)
    decreases |xs|
  {
    if |xs| > 0 {
      FilterAgrees(xs[1..], p, q);
    }
  }

  /** A predicate that holds throughout keeps the whole list. */
  lemma {:induction false} FilterKeepsAll<T>(xs: seq<T>, p: T -> bool)
    requires forall i :: 0 <= i < |xs| ==> p(xs[i])
    ensures Filter(xs, p) == xs
    decreases |xs|
  {
    if |xs| > 0 {
      FilterKeepsAll(xs[1..], p);
      assert [xs[0]] + xs[1..] == xs;
    }
  }

  /** Filtering twice is filtering once by the conjunction. */
  lemma {:induction false} FilterTwice<T>(xs: seq<T>, p: T -> bool, q: T -> bool, pq: T -> bool)
    requires forall x :: pq(x) == (p(x) && q(x))
    ensures Filter(Filter(xs, p), q) == Filter(xs, pq)
    decreases |xs|
  {
    if |xs| > 0 {
      FilterTwice(xs[1..], p, q, pq);
    }
  }

  /** A predicate that fails throughout keeps nothing. */
  lemma FilterKeepsNone<T>(xs: seq<T>, p: T -> bool)
    requires forall i :: 0 <= i < |xs| ==> !p(xs[i])
    ensures Filter(xs, p) == []
  {
  }

  /** A predicate that holds at one position only keeps that element alone. */
  lemma {:induction false} FilterKeepsOne<T>(xs: seq<T>, p: T -> bool, k: nat)
    requires k < |xs| && p(xs[k])
    requires forall i :: 0 <= i < |xs| && i != k ==> !p(xs[i])
    ensures Filter(xs, p) == [xs[k]]
    decreases k
  {
    if k == 0 {
      FilterKeepsNone(xs[1..], p);
    } else {
      FilterKeepsOne(xs[1..], p, k - 1);
    }
  }

  /** The articles of one category, in order. */
  function OfCategory(xs: seq<Article>, category: string): (r: seq<Article>)
    ensures forall i :: 0 <= i < |r| ==> r[i].category == category
    ensures forall i :: 0 <= i < |xs| && xs[i].category == category ==> xs[i] in r
    ensures IsSubsequence(r, xs)
  {
    Filter(xs, (a: Article) => a.category == category)
  }

  // ---------------------------------------------------------------------
  // Loading a table

  /** A page's list after a load: a failed load keeps what was shown, a
      successful one shows the rows returned (`data || []`). */
  function Reloaded<T>(current: seq<T>, failed: bool, data: Option<seq<T>>): (shown: seq<T>)
    ensures failed ==> shown == current
    ensures !failed && data.Some? ==> shown == data.value
    ensures !failed && data.None? ==> shown == []
  {
    if failed then current else if data.Some? then data.value else []
  }
}
