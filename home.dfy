/**
 * The home page's data preparation: the fallbacks for a failed API response,
 * and the grouping of the chapter list by book, each group ordered by
 * chapter number. Fetching and rendering are not part of this module.
 */
module Home {
  import opened Wrappers
  import Sorting

  datatype Book = Book(id: int, nameZh: string, nameEn: string, orderIndex: int)

  datatype Chapter = Chapter(id: int, bookId: int, chapterNumber: int)

  /** The JSON an API route answers: `{ok, data, error?}`. */
  datatype ApiResponse<T> = ApiResponse(ok: bool, data: seq<T>, error: Option<string>)

  /** `res.ok ? res.data : []`. */
  function DataOrEmpty<T>(res: ApiResponse<T>): seq<T> {
    if res.ok then res.data else []
  }

  function BookIds(cs: seq<Chapter>): set<int> {
    set c | c in cs :: c.bookId
  }

  /** The chapters of book `k`, in list order. */
  function ChaptersOfBook(cs: seq<Chapter>, k: int): (r: seq<Chapter>)
    ensures forall c | c in r :: c.bookId == k && c in cs
  {
    if cs == [] then []
    else
      var last := cs[|cs| - 1];
      ChaptersOfBook(cs[..|cs| - 1], k) + (if last.bookId == k then [last] else [])
  }

  /** The map the first loop builds: each book id that occurs, with its chapters in list order. */
  ghost function Grouped(cs: seq<Chapter>): map<int, seq<Chapter>> {
    map k | k in BookIds(cs) :: ChaptersOfBook(cs, k)
  }

  /** The comparator `a.chapter_number - b.chapter_number`, as `<= 0`. */
  predicate ChapterLeq(a: Chapter, b: Chapter) {
    a.chapterNumber <= b.chapterNumber
  }

  /** `arr.sort((a, b) => a.chapter_number - b.chapter_number)`. */
  function SortChapters(cs: seq<Chapter>): seq<Chapter> {
    Sorting.Sort(cs, ChapterLeq)
  }

  /** The map once the second loop has sorted every group. */
  ghost function SortedGroups(cs: seq<Chapter>): map<int, seq<Chapter>> {
    map k | k in BookIds(cs) :: SortChapters(ChaptersOfBook(cs, k))
  }

  /** `byBook.get(id) ?? []`: the chapter list the page shows for a book. */
  function ChaptersFor(byBook: map<int, seq<Chapter>>, id: int): seq<Chapter> {
    if id in byBook then byBook[id] else []
  }

  /** A book none of whose chapters is listed has an empty list. */
  lemma {:induction false} ChaptersOfMissingBook(cs: seq<Chapter>, k: int)
    requires k !in BookIds(cs)
    ensures ChaptersOfBook(cs, k) == []
  {
    if cs != [] {
      assert cs[|cs| - 1] in cs;
      assert BookIds(cs[..|cs| - 1]) <= BookIds(cs);
      ChaptersOfMissingBook(cs[..|cs| - 1], k);
    }
  }

  lemma ChaptersOfBookSnoc(cs: seq<Chapter>, c: Chapter, k: int)
    ensures ChaptersOfBook(cs + [c], k) == ChaptersOfBook(cs, k) + (if c.bookId == k then [c] else [])
  {
    assert (cs + [c])[..|cs|] == cs;
  }

  /** One step of the first loop: the chapter is appended to its book's group, created if need be. */
  lemma GroupedSnoc(cs: seq<Chapter>, c: Chapter)
    ensures Grouped(cs + [c]) == Grouped(cs)[c.bookId := ChaptersFor(Grouped(cs), c.bookId) + [c]]
  {
    var g, h := Grouped(cs), Grouped(cs + [c]);
    assert BookIds(cs + [c]) == BookIds(cs) + {c.bookId};
    forall k | k in h
      ensures h[k] == g[c.bookId := ChaptersFor(g, c.bookId) + [c]][k]
    {
      ChaptersOfBookSnoc(cs, c, k);
      if k !in g { ChaptersOfMissingBook(cs, k); }
    }
  }

  /** A chapter occurs in its book's list as often as in the whole list; other books' lists hold none. */
  lemma {:induction false} ChaptersOfBookCount(cs: seq<Chapter>, k: int, c: Chapter)
    ensures multiset(ChaptersOfBook(cs, k))[c] == if c.bookId == k then multiset(cs)[c] else 0
  {
    if cs != [] {
      var init, last := cs[..|cs| - 1], cs[|cs| - 1];
      assert cs == init + [last];
      ChaptersOfBookCount(init, k, c);
    }
  }

  /**
   * The book ids in the order they first occur in the list: the order in
   * which the first loop sets the map's keys, and so the order
   * `byBook.entries()` visits them.
   */
  ghost function KeyOrder(cs: seq<Chapter>): seq<int> {
    if cs == [] then []
    else
      var init, last := cs[..|cs| - 1], cs[|cs| - 1];
      KeyOrder(init) + (if last.bookId in BookIds(init) then [] else [last.bookId])
  }

  /** One more chapter adds its book id at the end, unless the id was already seen. */
  lemma KeyOrderSnoc(cs: seq<Chapter>, c: Chapter)
    ensures KeyOrder(cs + [c]) == KeyOrder(cs) + (if c.bookId in BookIds(cs) then [] else [c.bookId])
  {
    assert (cs + [c])[..|cs|] == cs;
  }

  /**
   * The keys first seen in the first `n` chapters come first, in the same
   * order, and are exactly the book ids of those chapters.
   */
  lemma {:induction false} KeyOrderByFirstAppearance(cs: seq<Chapter>, n: nat)
    requires n <= |cs|
    ensures KeyOrder(cs[..n]) <= KeyOrder(cs)
    ensures (set k | k in KeyOrder(cs[..n])) == BookIds(cs[..n])
  {
    if n == |cs| {
      assert cs[..n] == cs;
      if cs != [] {
        var init := cs[..|cs| - 1];
        KeyOrderByFirstAppearance(init, |init|);
        assert init[..|init|] == init;
        assert cs == init + [cs[|cs| - 1]];
        assert BookIds(cs) == BookIds(init) + {cs[|cs| - 1].bookId};
      }
    } else {
      var init := cs[..|cs| - 1];
      assert init[..n] == cs[..n];
      KeyOrderByFirstAppearance(init, n);
    }
  }

  ghost predicate Distinct(keys: seq<int>) {
    forall a, b | 0 <= a < b < |keys| :: keys[a] != keys[b]
  }

  /**
   * The first loop of the home page: each chapter appended to its book's group.
   * `keys` lists the map's keys in the order they were first set, the order
   * `byBook.entries()` visits them.
   */
  method GroupByBook(chapters: seq<Chapter>) returns (byBook: map<int, seq<Chapter>>, keys: seq<int>)
    ensures byBook == Grouped(chapters)
    ensures keys == KeyOrder(chapters)
    ensures Distinct(keys) && (set k | k in keys) == byBook.Keys
  {
    byBook := map[];
    keys := [];
    for i := 0 to |chapters|
      invariant byBook == Grouped(chapters[..i])
      invariant keys == KeyOrder(chapters[..i])
      invariant Distinct(keys) && (set k | k in keys) == byBook.Keys
    {
      var ch := chapters[i];
      ghost var seen := chapters[..i];
      assert chapters[..i + 1] == seen + [ch];
      GroupedSnoc(seen, ch);
      KeyOrderSnoc(seen, ch);
      assert byBook.Keys == BookIds(seen);
      if ch.bookId !in byBook {
        keys := keys + [ch.bookId];
      }
      var arr := ChaptersFor(byBook, ch.bookId);
      arr := arr + [ch];
      byBook := byBook[ch.bookId := arr];
    }
    assert chapters[..|chapters|] == chapters;
  }

  /** The second loop of the home page: every group sorted by chapter number, under the same key. */
  method SortGroups(grouped: map<int, seq<Chapter>>, keys: seq<int>) returns (byBook: map<int, seq<Chapter>>)
    requires Distinct(keys) && (set k | k in keys) == grouped.Keys
    ensures byBook.Keys == grouped.Keys
    ensures forall k | k in byBook :: byBook[k] == SortChapters(grouped[k])
  {
    byBook := grouped;
    for j := 0 to |keys|
      invariant byBook.Keys == grouped.Keys
      invariant forall k | k in byBook :: byBook[k] == if k in keys[..j] then SortChapters(grouped[k]) else grouped[k]
    {
      var k := keys[j];
      assert k !in keys[..j];
      assert keys[..j + 1] == keys[..j] + [k];
      byBook := byBook[k := SortChapters(byBook[k])];
    }
    assert keys[..|keys|] == keys;
  }

  lemma SortingGroupedGivesSortedGroups(cs: seq<Chapter>, grouped: map<int, seq<Chapter>>, sorted: map<int, seq<Chapter>>)
    requires grouped == Grouped(cs)
    requires sorted.Keys == grouped.Keys
    requires forall k | k in sorted :: sorted[k] == SortChapters(grouped[k])
    ensures sorted == SortedGroups(cs)
  {
    var want := SortedGroups(cs);
    assert sorted.Keys == want.Keys;
    forall k | k in sorted
      ensures sorted[k] == want[k]
    {
      assert grouped[k] == ChaptersOfBook(cs, k);
    }
  }

  /**
   * The home page's preparation: the book list and the chapters grouped by
   * book, each group sorted by chapter number.
   */
  method HomePage(booksRes: ApiResponse<Book>, chaptersRes: ApiResponse<Chapter>)
    returns (books: seq<Book>, byBook: map<int, seq<Chapter>>)
    ensures books == if booksRes.ok then booksRes.data else []
    ensures byBook == SortedGroups(if chaptersRes.ok then chaptersRes.data else [])
  {
    books := DataOrEmpty(booksRes);
    var chapters := DataOrEmpty(chaptersRes);
    var grouped, keys := GroupByBook(chapters);
    byBook := SortGroups(grouped, keys);
    SortingGroupedGivesSortedGroups(chapters, grouped, byBook);
  }

  /** Every chapter lies in the group of its own book. */
  lemma EveryChapterInItsGroup(cs: seq<Chapter>, c: Chapter)
    requires c in cs
    ensures var byBook := SortedGroups(cs); c.bookId in byBook && c in byBook[c.bookId]
  {
    ChaptersOfBookCount(cs, c.bookId, c);
    assert c in multiset(SortedGroups(cs)[c.bookId]);
  }

  /** Every member of the group under key `k` has `book_id == k`, and no group is empty. */
  lemma GroupMembersShareKey(cs: seq<Chapter>, k: int)
    requires k in SortedGroups(cs)
    ensures forall c | c in SortedGroups(cs)[k] :: c.bookId == k && c in cs
    ensures SortedGroups(cs)[k] != []
  {
    var g := SortedGroups(cs)[k];
    forall c | c in g
      ensures c.bookId == k && c in cs
    {
      assert c in multiset(ChaptersOfBook(cs, k));
    }
    var c :| c in cs && c.bookId == k;
    ChaptersOfBookCount(cs, k, c);
    assert c in multiset(g);
  }

  /**
   * Grouping loses and duplicates nothing: a chapter occurs in the list shown
   * for its book as often as in the input (and, by the lemma above, in no other group).
   */
  lemma GroupingKeepsMultiplicity(cs: seq<Chapter>, c: Chapter)
    ensures multiset(ChaptersFor(SortedGroups(cs), c.bookId))[c] == multiset(cs)[c]
  {
    ChaptersOfBookCount(cs, c.bookId, c);
    if c.bookId !in BookIds(cs) {
      assert c !in cs;
    }
  }

  /** The key set is the set of book ids that occur, and every group is ordered by chapter number. */
  lemma GroupsSortedByChapterNumber(cs: seq<Chapter>)
    ensures SortedGroups(cs).Keys == BookIds(cs)
    ensures forall k | k in SortedGroups(cs) :: Sorting.SortedBy(SortedGroups(cs)[k], ChapterLeq)
  {
    assert Sorting.TotalPreorder(ChapterLeq);
    forall k | k in SortedGroups(cs)
      ensures Sorting.SortedBy(SortedGroups(cs)[k], ChapterLeq)
    {
      Sorting.SortSorted(ChaptersOfBook(cs, k), ChapterLeq);
    }
  }

  /**
   * The list the page shows for a book is that book's chapters sorted by
   * chapter number, and empty for a book that has no chapters.
   */
  lemma ChaptersForBook(cs: seq<Chapter>, id: int)
    ensures ChaptersFor(SortedGroups(cs), id) == SortChapters(ChaptersOfBook(cs, id))
    ensures id !in BookIds(cs) ==> ChaptersFor(SortedGroups(cs), id) == []
  {
    if id !in BookIds(cs) { ChaptersOfMissingBook(cs, id); }
  }

  /** A failed chapters response leaves every book without chapters. */
  lemma FailedChaptersLeaveNoGroups(chaptersRes: ApiResponse<Chapter>, id: int)
    requires !chaptersRes.ok
    ensures ChaptersFor(SortedGroups(DataOrEmpty(chaptersRes)), id) == []
  {
  }
}
