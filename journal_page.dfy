/** The journal listing (src/components/pages/JournalPage.tsx): the fetched
    articles are sorted in place, newest first, and that same array is stored.

    The comparator `(a, b) => dateB - dateA`, where a date is the publish
    timestamp or 0 when `publishDate` is missing, orders exactly as a stable
    ascending sort by the negated date. Parsing the date into a timestamp is not
    part of the model: `publishDate` is already a timestamp here. */
module JournalPage {
  import opened Wrappers
  import opened Entities
  import opened StableSort

  /** `a.publishDate ? new Date(a.publishDate).getTime() : 0` */
  function DateKey(a: JournalArticle): int { a.publishDate.GetOr(0) }

  /** The comparator's ascending key. */
  function RecencyKey(a: JournalArticle): int { -DateKey(a) }

  /** Dates are non-increasing from left to right. */
  ghost predicate NewestFirst(s: seq<JournalArticle>) {
    forall i, j :: 0 <= i < j < |s| ==> DateKey(s[i]) >= DateKey(s[j])
  }

  lemma {:induction false} RecencyClasses(s: seq<JournalArticle>, k: int)
    ensures WithKey(s, RecencyKey, -k) == WithKey(s, DateKey, k)
  {
    if s != [] {
      RecencyClasses(s[..|s| - 1], k);
    }
  }

  /** The listing order: a permutation of the fetched articles, newest first,
      articles of equal date in their fetched order. */
  function SortNewestFirst(items: seq<JournalArticle>): (r: seq<JournalArticle>)
    ensures |r| == |items|
    ensures multiset(r) == multiset(items)
    ensures NewestFirst(r)
    ensures Stable(items, r, DateKey)
  {
    var r := SortBy(items, RecencyKey);
    SortByCharacterized(items, RecencyKey);
    forall k ensures WithKey(r, DateKey, k) == WithKey(items, DateKey, k) {
      RecencyClasses(r, k);
      RecencyClasses(items, k);
    }
    r
  }

  /** Every newest-first arrangement that keeps equal dates in fetched order is
      the listing order. */
  lemma NewestFirstUnique(items: seq<JournalArticle>, r: seq<JournalArticle>)
    requires NewestFirst(r) && Stable(items, r, DateKey)
    ensures r == SortNewestFirst(items)
  {
    assert SortedBy(r, RecencyKey) by {
      forall i, j | 0 <= i < j < |r| ensures RecencyKey(r[i]) <= RecencyKey(r[j]) {
        assert DateKey(r[i]) >= DateKey(r[j]);
      }
    }
    assert Stable(items, r, RecencyKey) by {
      forall k ensures WithKey(r, RecencyKey, k) == WithKey(items, RecencyKey, k) {
        RecencyClasses(r, -k);
        RecencyClasses(items, -k);
        assert WithKey(r, DateKey, -k) == WithKey(items, DateKey, -k);
      }
    }
    SortByUnique(items, r, RecencyKey);
  }

  /** Re-sorting the listing changes nothing. */
  lemma SortNewestFirstIdempotent(items: seq<JournalArticle>)
    ensures SortNewestFirst(SortNewestFirst(items)) == SortNewestFirst(items)
  {
    var r := SortNewestFirst(items);
    NewestFirstUnique(r, r);
  }

  /** When every dated article is dated after the epoch, the undated ones come
      after all dated ones. */
  lemma UndatedLast(items: seq<JournalArticle>, i: nat, j: nat)
    requires forall a :: a in items && a.publishDate.Some? ==> a.publishDate.value > 0
    requires i < |SortNewestFirst(items)| && j < |SortNewestFirst(items)|
    requires SortNewestFirst(items)[i].publishDate.None?
    requires SortNewestFirst(items)[j].publishDate.Some?
    ensures j < i
  {
    var r := SortNewestFirst(items);
    assert r[j] in multiset(items);
  }

  /** An article dated exactly at the epoch ties with an undated one, so the
      fetched order decides and the undated one may come first. */
  lemma EpochDateTiesWithUndated(undated: JournalArticle, epoch: JournalArticle)
    requires undated.publishDate.None? && epoch.publishDate == Some(0)
    ensures SortNewestFirst([undated, epoch]) == [undated, epoch]
  {
    assert [undated, epoch][..1] == [undated];
    assert [undated][..0] == [];
  }

  /** Articles dated 2024-01-01 and 2024-06-01 (UTC) and one undated, fetched in
      that order, are listed June, January, undated. */
  lemma ScenarioTwoDatesAndUndated(jan: JournalArticle, jun: JournalArticle, undated: JournalArticle)
    requires jan.publishDate == Some(1704067200000)
    requires jun.publishDate == Some(1717200000000)
    requires undated.publishDate.None?
    ensures SortNewestFirst([jan, jun, undated]) == [jun, jan, undated]
  {
    var s := [jan, jun, undated];
    assert s[..2] == [jan, jun];
    assert s[..2][..1] == [jan];
    assert [jan][..0] == [];
    assert [jun, jan][..1] == [jun];
  }

  class Journal {
    var articles: seq<JournalArticle>

    constructor ()
      ensures articles == []
    {
      articles := [];
    }

    /** The body of `fetchArticles` after `getAll` has returned `items`. */
    method FetchArticles(items: array<JournalArticle>)
      modifies this, items
      ensures articles == items[..] == SortNewestFirst(old(items[..]))
    {
      SortInPlace(items, RecencyKey);
      articles := items[..];
    }

    /** Whether the "No articles published yet" branch is rendered. */
    predicate ShowsEmptyNotice()
      reads this
    {
      |articles| == 0
    }

    /** After a fetch the notice is shown exactly when nothing was fetched. */
    method FetchThenRender(items: array<JournalArticle>) returns (empty: bool)
      modifies this, items
      ensures empty <==> items.Length == 0
      ensures articles == SortNewestFirst(old(items[..]))
    {
      FetchArticles(items);
      empty := ShowsEmptyNotice();
    }
  }
}
