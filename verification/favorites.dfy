/** A signed-in reader's favourites: the article ids loaded for the user and
    the toggle that adds or removes one, with the table call reduced to
    whether it failed. */
module Favorites {
  import opened Js
  import opened Articles

  /** `favorites.includes(articleId)`. */
  predicate IsFavorited(favorites: seq<string>, articleId: string) {
    articleId in favorites
  }

  /** No id is listed twice. */
  predicate Distinct(ids: seq<string>) {
    forall i, j :: 0 <= i < j < |ids| ==> ids[i] != ids[j]
  }

  /** The ids loaded for a user: none without a user or when the load fails,
      otherwise the rows returned (`data?.map(...) || []`). */
  function Fetch(userId: Option<string>, failed: bool, rows: Option<seq<string>>): (ids: seq<string>)
    ensures !Truthy(userId) || failed ==> ids == []
    ensures Truthy(userId) && !failed && rows.Some? ==> ids == rows.value
    ensures rows.None? ==> ids == []
  {
    if !Truthy(userId) || failed then []
    else if rows.Some? then rows.value
    else []
  }

  /** The call a toggle makes on the `favorites` table. */
  datatype Request = Delete(userId: string, articleId: string) | Insert(userId: string, articleId: string)

  /** The toast a toggle shows. */
  datatype Notice = SignInRequired | Removed | Added | ToggleFailed

  datatype Toggled = Toggled(favorites: seq<string>, request: Option<Request>, notice: Notice)

  /** `id => id !== articleId`. */
  function Other(articleId: string): string -> bool {
    (id: string) => id != articleId
  }

  /** `toggleFavorite`: without a user nothing is requested and the list is
      kept. A listed id is deleted and every copy of it leaves the list; an
      unlisted one is inserted and appended. A failed request keeps the list. */
  function Toggle(favorites: seq<string>, userId: Option<string>, articleId: string, failed: bool): (t: Toggled)
    ensures !Truthy(userId) ==> t == Toggled(favorites, None, SignInRequired)
    ensures Truthy(userId) ==> t.request.Some? && t.request.value.userId == userId.value &&
                               t.request.value.articleId == articleId &&
                               (t.request.value.Delete? <==> IsFavorited(favorites, articleId))
    ensures failed ==> t.favorites == favorites
    ensures Truthy(userId) && failed ==> t.notice == ToggleFailed
    ensures Truthy(userId) && !failed ==>
              (IsFavorited(t.favorites, articleId) <==> !IsFavorited(favorites, articleId))
    ensures forall id :: id != articleId ==> (id in t.favorites <==> id in favorites)
    ensures Truthy(userId) && !failed && !IsFavorited(favorites, articleId) ==> t.favorites == favorites + [articleId]
    ensures Truthy(userId) && !failed && IsFavorited(favorites, articleId) ==>
              t.favorites == Filter(favorites, Other(articleId))
  {
    if !Truthy(userId) then Toggled(favorites, None, SignInRequired)
    else if IsFavorited(favorites, articleId) then
      Toggled(if failed then favorites else Filter(favorites, Other(articleId)),
              Some(Delete(userId.value, articleId)), if failed then ToggleFailed else Removed)
    else
      Toggled(if failed then favorites else favorites + [articleId],
              Some(Insert(userId.value, articleId)), if failed then ToggleFailed else Added)
  }

  /** Removing an id that was just appended gives the list back. */
  lemma {:induction false} RemoveAppended(xs: seq<string>, x: string)
    requires x !in xs
    ensures Filter(xs + [x], Other(x)) == xs
    decreases |xs|
  {
    if |xs| == 0 {
      assert Filter([x], Other(x)) == Filter([x][1..], Other(x));
    } else {
      assert (xs + [x])[1..] == xs[1..] + [x];
      RemoveAppended(xs[1..], x);
      assert [xs[0]] + xs[1..] == xs;
    }
  }

  /** A filter keeps a list free of duplicates. */
  lemma {:induction false} FilterDistinct(xs: seq<string>, p: string -> bool)
    requires Distinct(xs)
    ensures Distinct(Filter(xs, p))
    decreases |xs|
  {
    if |xs| > 0 {
      FilterDistinct(xs[1..], p);
      var rest := Filter(xs[1..], p);
      assert xs[0] !in xs[1..];
      assert xs[0] !in rest;
    }
  }

  /** Successful toggles keep the list free of duplicates. */
  lemma ToggleKeepsDistinct(favorites: seq<string>, userId: Option<string>, articleId: string, failed: bool)
    requires Distinct(favorites)
    ensures Distinct(Toggle(favorites, userId, articleId, failed).favorites)
  {
    if Truthy(userId) && !failed && IsFavorited(favorites, articleId) {
      FilterDistinct(favorites, Other(articleId));
    }
  }

  /** Adding an article and then removing it, both successfully, restores
      the list exactly. */
  lemma ToggleTwiceRestores(favorites: seq<string>, userId: Option<string>, articleId: string)
    requires Truthy(userId) && !IsFavorited(favorites, articleId)
    ensures var once := Toggle(favorites, userId, articleId, false);
            Toggle(once.favorites, userId, articleId, false).favorites == favorites
  {
    RemoveAppended(favorites, articleId);
  }

  /** `toggleFavorite` as the hook runs it: what to request is decided on
      the list the page last rendered, while the update is applied to the
      latest list (`prev => ...`). With one toggle at a time the two lists
      are the same and this is `Toggle`. */
  function ToggleOnLatest(rendered: seq<string>, latest: seq<string>, userId: Option<string>,
                          articleId: string, failed: bool): (t: Toggled)
    ensures var d := Toggle(rendered, userId, articleId, failed); t.request == d.request && t.notice == d.notice
    ensures rendered == latest ==> t == Toggle(latest, userId, articleId, failed)
    ensures !Truthy(userId) || failed ==> t.favorites == latest
    ensures Truthy(userId) && !failed && !IsFavorited(rendered, articleId) ==> t.favorites == latest + [articleId]
    ensures Truthy(userId) && !failed && IsFavorited(rendered, articleId) ==>
              t.favorites == Filter(latest, Other(articleId))
  {
    var d := Toggle(rendered, userId, articleId, failed);
    if !Truthy(userId) || failed then Toggled(latest, d.request, d.notice)
    else if IsFavorited(rendered, articleId) then Toggled(Filter(latest, Other(articleId)), d.request, d.notice)
    else Toggled(latest + [articleId], d.request, d.notice)
  }

  /** Two clicks on an unlisted article before the first request returns
      both decide on the same rendered list: both insert, and when both
      succeed the id is listed twice. */
  lemma OverlappingAddsRepeat(favorites: seq<string>, userId: Option<string>, articleId: string)
    requires Truthy(userId) && !IsFavorited(favorites, articleId)
    ensures var first := ToggleOnLatest(favorites, favorites, userId, articleId, false);
            var second := ToggleOnLatest(favorites, first.favorites, userId, articleId, false);
            second.request == first.request && second.request == Some(Insert(userId.value, articleId)) &&
            second.favorites == favorites + [articleId, articleId] && !Distinct(second.favorites)
  {
    var twice := favorites + [articleId] + [articleId];
    assert twice == favorites + [articleId, articleId];
    assert twice[|favorites|] == twice[|favorites| + 1];
  }
}
