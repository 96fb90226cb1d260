/**
 * The public collection page: the query that turns the live snapshot of
 * artworks and the visitor's choices into the records on screen, and the
 * current-page state the page keeps between renders.
 *
 * The snapshot arrives ordered by date, newest first; the page filters it by
 * title and category, sorts it by one of three modes with JavaScript's stable
 * sort, and shows one window of twelve records.
 */
module Collection {
  import opened Text
  import opened Catalog

  /** The category filter value that means "every category". */
  const AllCategories: string := "Todos"

  const PriceAsc: string := "price-asc"
  const PriceDesc: string := "price-desc"

  const PageSize: nat := 12

  // ---------------------------------------------------------------------------
  // Filtering

  /** The filter callback: case-insensitive title substring, exact category. */
  predicate Matches(w: Artwork, term: string, category: string) {
    Includes(Lower(w.title), Lower(term)) && (category == AllCategories || w.category == category)
  }

  /**
   * A record matches exactly when the lower-cased search term occurs somewhere
   * in its lower-cased title and the category is "Todos" or the record's own
   * (exact, case-sensitive).
   */
  lemma MatchesSpec(w: Artwork, term: string, category: string)
    ensures Matches(w, term, category) <==>
      (exists i :: OccursAt(Lower(w.title), Lower(term), i))
      && (category == AllCategories || w.category == category)
  {
    IncludesSpec(Lower(w.title), Lower(term));
    assert Includes(Lower(w.title), Lower(term)) <==> exists i :: OccursAt(Lower(w.title), Lower(term), i);
  }

  /** `worksData.filter(...)`: every kept record matches, and nothing is added. */
  function FilterWorks(works: seq<Artwork>, term: string, category: string): (r: seq<Artwork>)
    ensures forall i :: 0 <= i < |r| ==> Matches(r[i], term, category)
    ensures |r| <= |works|
  {
    if works == [] then []
    else (if Matches(works[0], term, category) then [works[0]] else []) + FilterWorks(works[1..], term, category)
  }

  /**
   * A record is kept exactly as many times as it occurs in the snapshot when
   * it matches, and never otherwise: nothing is invented or duplicated.
   */
  lemma {:induction false} FilterCounts(works: seq<Artwork>, term: string, category: string)
    ensures forall w :: multiset(FilterWorks(works, term, category))[w]
                     == if Matches(w, term, category) then multiset(works)[w] else 0
  {
    if works != [] {
      FilterCounts(works[1..], term, category);
      assert works == [works[0]] + works[1..];
    }
  }

  /** Filtering keeps the snapshot's order: it distributes over concatenation. */
  lemma {:induction false} FilterAppend(a: seq<Artwork>, b: seq<Artwork>, term: string, category: string)
    ensures FilterWorks(a + b, term, category) == FilterWorks(a, term, category) + FilterWorks(b, term, category)
  {
    if a == [] {
      assert a + b == b;
    } else {
      assert (a + b)[1..] == a[1..] + b;
      FilterAppend(a[1..], b, term, category);
    }
  }

  /** Applying the same search term and category filter a second time changes nothing. */
  lemma {:induction false} FilterIdempotent(works: seq<Artwork>, term: string, category: string)
    ensures FilterWorks(FilterWorks(works, term, category), term, category) == FilterWorks(works, term, category)
  {
    if works != [] {
      var rest := FilterWorks(works[1..], term, category);
      FilterIdempotent(works[1..], term, category);
      if Matches(works[0], term, category) {
        var kept := [works[0]] + rest;
        assert FilterWorks(works, term, category) == kept;
        assert kept[0] == works[0] && kept[1..] == rest;
        assert FilterWorks(kept, term, category) == [works[0]] + FilterWorks(rest, term, category);
      } else {
        assert FilterWorks(works, term, category) == rest;
      }
    }
  }

  /** With an empty search and "Todos" every record of the snapshot is kept, in order. */
  lemma {:induction false} FilterKeepsAll(works: seq<Artwork>)
    ensures FilterWorks(works, "", AllCategories) == works
  {
    if works != [] {
      IncludesEmpty(Lower(works[0].title));
      FilterKeepsAll(works[1..]);
    }
  }

  // ---------------------------------------------------------------------------
  // Sorting

  /**
   * The sort key: `sort((a, b) => Rank(a) - Rank(b))` is exactly the page's
   * comparator, so records are placed in ascending rank. Any mode other than
   * the two price modes, "recent" included, sorts by date, newest first.
   */
  function Rank(sortBy: string, w: Artwork): real {
    if sortBy == PriceAsc then w.price
    else if sortBy == PriceDesc then -w.price
    else -(w.date as real)
  }

  /** The page's comparator as written: negative when `a` goes first. */
  function Comparator(sortBy: string, a: Artwork, b: Artwork): real {
    if sortBy == PriceAsc then a.price - b.price
    else if sortBy == PriceDesc then b.price - a.price
    else (b.date - a.date) as real
  }

  /** The comparator is the difference of the two ranks, so sorting by rank is sorting by it. */
  lemma ComparatorIsRankDifference(sortBy: string, a: Artwork, b: Artwork)
    ensures Comparator(sortBy, a, b) == Rank(sortBy, a) - Rank(sortBy, b)
    ensures Comparator(sortBy, a, b) < 0.0 <==> Rank(sortBy, a) < Rank(sortBy, b)
    ensures Comparator(sortBy, a, b) == 0.0 <==> Rank(sortBy, a) == Rank(sortBy, b)
  {
  }

  predicate SortedBy(sortBy: string, s: seq<Artwork>) {
    forall i, j :: 0 <= i < j < |s| ==> Rank(sortBy, s[i]) <= Rank(sortBy, s[j])
  }

  /** Puts `x` in front of the first record whose rank is not smaller (so in front of its equals). */
  function Insert(sortBy: string, x: Artwork, s: seq<Artwork>): (r: seq<Artwork>)
    requires SortedBy(sortBy, s)
    ensures SortedBy(sortBy, r)
    ensures multiset(r) == multiset(s) + multiset{x}
  {
    if s == [] || Rank(sortBy, x) <= Rank(sortBy, s[0]) then
      SortedCons(sortBy, x, s);
      [x] + s
    else
      var rest := Insert(sortBy, x, s[1..]);
      assert s == [s[0]] + s[1..];
      RestAbove(sortBy, x, s, rest);
      SortedCons(sortBy, s[0], rest);
      [s[0]] + rest
  }

  lemma SortedCons(sortBy: string, y: Artwork, t: seq<Artwork>)
    requires SortedBy(sortBy, t)
    requires forall j :: 0 <= j < |t| ==> Rank(sortBy, y) <= Rank(sortBy, t[j])
    ensures SortedBy(sortBy, [y] + t)
  {
    var u := [y] + t;
    forall i, j | 0 <= i < j < |u| ensures Rank(sortBy, u[i]) <= Rank(sortBy, u[j]) {
      if i > 0 {
        assert u[i] == t[i - 1] && u[j] == t[j - 1];
      }
    }
  }

  /** What is inserted past the head of a sorted list ranks no lower than that head. */
  lemma RestAbove(sortBy: string, x: Artwork, s: seq<Artwork>, rest: seq<Artwork>)
    requires SortedBy(sortBy, s) && s != [] && Rank(sortBy, s[0]) < Rank(sortBy, x)
    requires multiset(rest) == multiset(s[1..]) + multiset{x}
    ensures forall j :: 0 <= j < |rest| ==> Rank(sortBy, s[0]) <= Rank(sortBy, rest[j])
  {
    forall j | 0 <= j < |rest| ensures Rank(sortBy, s[0]) <= Rank(sortBy, rest[j]) {
      var y := rest[j];
      assert y in multiset(rest);
      if y != x {
        assert y in multiset(s[1..]);
        var m :| 0 <= m < |s[1..]| && s[1..][m] == y;
        assert s[m + 1] == y;
      }
    }
  }

  /** `Array.prototype.sort`: a stable sort into ascending rank. */
  function SortWorks(sortBy: string, s: seq<Artwork>): (r: seq<Artwork>)
    ensures SortedBy(sortBy, r)
    ensures multiset(r) == multiset(s)
  {
    if s == [] then []
    else
      assert s == [s[0]] + s[1..];
      Insert(sortBy, s[0], SortWorks(sortBy, s[1..]))
  }

  /** The records of `s` whose rank is `k`, in their order in `s`. */
  function WithRank(sortBy: string, s: seq<Artwork>, k: real): seq<Artwork> {
    if s == [] then []
    else (if Rank(sortBy, s[0]) == k then [s[0]] else []) + WithRank(sortBy, s[1..], k)
  }

  lemma {:induction false} InsertStable(sortBy: string, x: Artwork, s: seq<Artwork>, k: real)
    requires SortedBy(sortBy, s)
    ensures WithRank(sortBy, Insert(sortBy, x, s), k)
         == (if Rank(sortBy, x) == k then [x] else []) + WithRank(sortBy, s, k)
  {
    if s == [] || Rank(sortBy, x) <= Rank(sortBy, s[0]) {
      WithRankCons(sortBy, x, s, k);
    } else {
      SortedTail(sortBy, s);
      var rest := Insert(sortBy, x, s[1..]);
      assert Insert(sortBy, x, s) == [s[0]] + rest;
      InsertStable(sortBy, x, s[1..], k);
      InsertPast(sortBy, x, s, rest, k);
    }
  }

  lemma SortedTail(sortBy: string, s: seq<Artwork>)
    requires SortedBy(sortBy, s) && s != []
    ensures SortedBy(sortBy, s[1..])
  {
    forall i, j | 0 <= i < j < |s| - 1 ensures Rank(sortBy, s[1..][i]) <= Rank(sortBy, s[1..][j]) {
      assert s[1..][i] == s[i + 1] && s[1..][j] == s[j + 1];
    }
  }

  /** Passing a head of smaller rank: the head and `x` cannot both have rank `k`, so their order there does not matter. */
  lemma InsertPast(sortBy: string, x: Artwork, s: seq<Artwork>, rest: seq<Artwork>, k: real)
    requires s != [] && Rank(sortBy, s[0]) < Rank(sortBy, x)
    requires WithRank(sortBy, rest, k) == (if Rank(sortBy, x) == k then [x] else []) + WithRank(sortBy, s[1..], k)
    ensures WithRank(sortBy, [s[0]] + rest, k)
         == (if Rank(sortBy, x) == k then [x] else []) + WithRank(sortBy, s, k)
  {
    WithRankCons(sortBy, s[0], rest, k);
    assert s == [s[0]] + s[1..];
    WithRankCons(sortBy, s[0], s[1..], k);
  }

  lemma WithRankCons(sortBy: string, y: Artwork, t: seq<Artwork>, k: real)
    ensures WithRank(sortBy, [y] + t, k) == (if Rank(sortBy, y) == k then [y] else []) + WithRank(sortBy, t, k)
  {
    assert ([y] + t)[1..] == t;
  }

  /**
   * Stability: records with equal sort keys come out in the order they went in
   * (the date-descending order of the snapshot, once filtered).
   */
  lemma {:induction false} SortStable(sortBy: string, s: seq<Artwork>, k: real)
    ensures WithRank(sortBy, SortWorks(sortBy, s), k) == WithRank(sortBy, s, k)
  {
    if s != [] {
      SortStable(sortBy, s[1..], k);
      InsertStable(sortBy, s[0], SortWorks(sortBy, s[1..]), k);
    }
  }

  // ---------------------------------------------------------------------------
  // filteredWorks

  /**
   * `filteredWorks`: the snapshot filtered, then sorted; the result is in
   * comparator order and is a rearrangement of the matching records.
   */
  function Query(works: seq<Artwork>, term: string, category: string, sortBy: string): (r: seq<Artwork>)
    ensures SortedBy(sortBy, r)
    ensures multiset(r) == multiset(FilterWorks(works, term, category))
  {
    SortWorks(sortBy, FilterWorks(works, term, category))
  }

  /**
   * The order of `filteredWorks`: with "price-asc" prices never decrease, with
   * "price-desc" they never increase, with any other mode ("recent" among
   * them) dates never increase.
   */
  lemma QueryOrdered(works: seq<Artwork>, term: string, category: string, sortBy: string)
    ensures var r := Query(works, term, category, sortBy);
      && (sortBy == PriceAsc ==> forall i, j :: 0 <= i < j < |r| ==> r[i].price <= r[j].price)
      && (sortBy == PriceDesc ==> forall i, j :: 0 <= i < j < |r| ==> r[i].price >= r[j].price)
      && (sortBy != PriceAsc && sortBy != PriceDesc ==>
            forall i, j :: 0 <= i < j < |r| ==> r[i].date >= r[j].date)
  {
    var r := Query(works, term, category, sortBy);
    assert forall i, j :: 0 <= i < j < |r| ==> Rank(sortBy, r[i]) <= Rank(sortBy, r[j]);
  }

  /**
   * The contents of `filteredWorks`: each matching record of the snapshot as
   * often as the snapshot holds it and nothing else, so the result is a
   * permutation of the filtered snapshot.
   */
  lemma QueryContents(works: seq<Artwork>, term: string, category: string, sortBy: string)
    ensures var r := Query(works, term, category, sortBy);
      && multiset(r) == multiset(FilterWorks(works, term, category))
      && (forall w :: multiset(r)[w] == if Matches(w, term, category) then multiset(works)[w] else 0)
      && |r| <= |works|
  {
    var kept := FilterWorks(works, term, category);
    var r := SortWorks(sortBy, kept);
    FilterCounts(works, term, category);
    assert |r| == |multiset(r)| == |multiset(kept)| == |kept|;
  }

  /**
   * Two records of the same search that tie on the sort key keep their
   * relative order from the snapshot.
   */
  lemma QueryStable(works: seq<Artwork>, term: string, category: string, sortBy: string, k: real)
    ensures WithRank(sortBy, Query(works, term, category, sortBy), k)
         == WithRank(sortBy, FilterWorks(works, term, category), k)
  {
    SortStable(sortBy, FilterWorks(works, term, category), k);
  }

  /**
   * The two-record example: B is the newer and cheaper record, so the
   * date-descending snapshot is [B, A]; "price-asc" and "recent" give [B, A]
   * and "price-desc" gives [A, B].
   */
  lemma TwoRecordOrders(a: Artwork, b: Artwork)
    requires a.price == 50.0 && b.price == 20.0 && a.date < b.date
    ensures Query([b, a], "", AllCategories, PriceAsc) == [b, a]
    ensures Query([b, a], "", AllCategories, "recent") == [b, a]
    ensures Query([b, a], "", AllCategories, PriceDesc) == [a, b]
  {
    FilterKeepsAll([b, a]);
    assert [b, a][1..] == [a];
    SortPair(PriceAsc, b, a);
    SortPair("recent", b, a);
    SortPair(PriceDesc, b, a);
  }

  lemma SortPair(sortBy: string, x: Artwork, y: Artwork)
    ensures SortWorks(sortBy, [x, y]) == if Rank(sortBy, x) <= Rank(sortBy, y) then [x, y] else [y, x]
  {
    assert [x, y][1..] == [y];
    assert [y][1..] == [];
    assert SortWorks(sortBy, [y]) == [y];
  }

  // ---------------------------------------------------------------------------
  // Pagination

  /** `Math.ceil(count / 12)`: zero pages for an empty result. */
  function TotalPages(count: nat): (pages: nat)
    ensures count <= pages * PageSize
    ensures pages > 0 ==> (pages - 1) * PageSize < count
    ensures pages == 0 <==> count == 0
  {
    (count + PageSize - 1) / PageSize
  }

  /** The pagination controls are drawn only when there is more than one page. */
  predicate ShowPagination(count: nat) {
    TotalPages(count) > 1
  }

  lemma ShowPaginationIff(count: nat)
    ensures ShowPagination(count) <==> count > PageSize
  {
  }

  /**
   * `currentItems`: the window `[(page - 1) * 12, page * 12)` of the list,
   * clipped to its length. It never holds more than twelve records.
   */
  function PageItems<T>(s: seq<T>, page: int): (r: seq<T>)
    ensures |r| <= PageSize
    ensures page >= 1 ==> r == s[Min((page - 1) * PageSize, |s|)..Min(page * PageSize, |s|)]
  {
    Slice(s, (page - 1) * PageSize, page * PageSize)
  }

  /** A page from 1 on has records exactly when it is one of the `TotalPages` pages. */
  lemma PageNonEmpty<T>(s: seq<T>, page: int)
    requires page >= 1
    ensures PageItems(s, page) != [] <==> page <= TotalPages(|s|)
  {
    var n := TotalPages(|s|);
    if page <= n {
      assert (page - 1) * PageSize <= (n - 1) * PageSize < |s|;
    } else {
      assert (page - 1) * PageSize >= n * PageSize >= |s|;
    }
  }

  /** Pages 1 to `k`, one after the other. */
  function AllPages<T>(s: seq<T>, k: nat): seq<T> {
    if k == 0 then [] else AllPages(s, k - 1) + PageItems(s, k)
  }

  lemma {:induction false} AllPagesPrefix<T>(s: seq<T>, k: nat)
    ensures AllPages(s, k) == s[..Min(k * PageSize, |s|)]
  {
    if k > 0 {
      AllPagesPrefix(s, k - 1);
      var a, b := Min((k - 1) * PageSize, |s|), Min(k * PageSize, |s|);
      assert s[..a] + s[a..b] == s[..b];
    }
  }

  /** Concatenating pages 1 to `TotalPages` gives back the whole list. */
  lemma PagesReassemble<T>(s: seq<T>)
    ensures AllPages(s, TotalPages(|s|)) == s
  {
    AllPagesPrefix(s, TotalPages(|s|));
  }

  // ---------------------------------------------------------------------------
  // The page's state

  class CollectionPage {
    var works: seq<Artwork>
    var categories: seq<string>
    var loading: bool
    var searchTerm: string
    var category: string
    var sortBy: string
    var currentPage: int

    /** Every path that changes the page keeps it at 1 or more. */
    predicate Valid()
      reads this
    {
      currentPage >= 1
    }

    function Results(): seq<Artwork>
      reads this`works, this`searchTerm, this`category, this`sortBy
    {
      Query(works, searchTerm, category, sortBy)
    }

    /** `totalPages`: enough pages of twelve for every result, and none to spare. */
    function PageCount(): (n: nat)
      reads this`works, this`searchTerm, this`category, this`sortBy
      ensures |Results()| <= n * PageSize
      ensures n > 0 ==> (n - 1) * PageSize < |Results()|
    {
      TotalPages(|Results()|)
    }

    /** `currentItems`: at most twelve results, the window of the current page. */
    function CurrentItems(): (r: seq<Artwork>)
      reads this
      ensures |r| <= PageSize
      ensures currentPage >= 1 ==>
        r == Results()[Min((currentPage - 1) * PageSize, |Results()|)..Min(currentPage * PageSize, |Results()|)]
      ensures currentPage >= 1 ==> (r != [] <==> currentPage <= PageCount())
    {
      var res := Results();
      if currentPage >= 1 then
        PageNonEmpty(res, currentPage);
        PageItems(res, currentPage)
      else
        PageItems(res, currentPage)
    }

    /** The pagination controls are drawn exactly when there are more than twelve results. */
    predicate ShowsControls()
      reads this`works, this`searchTerm, this`category, this`sortBy
      ensures ShowsControls() <==> |Results()| > PageSize
    {
      PageCount() > 1
    }

    predicate PageInRange()
      reads this
    {
      1 <= currentPage <= Max(1, PageCount())
    }

    constructor ()
      ensures Valid() && PageInRange()
      ensures works == [] && categories == [] && loading
      ensures searchTerm == "" && category == AllCategories && sortBy == "recent" && currentPage == 1
    {
      works, categories, loading := [], [], true;
      searchTerm, category, sortBy := "", AllCategories, "recent";
      currentPage := 1;
    }

    /** A new artworks snapshot replaces the old one wholesale; the page number is kept. */
    method ReceiveWorks(snapshot: seq<Artwork>)
      modifies this`works, this`loading
      ensures works == snapshot && !loading
    {
      works := snapshot;
      loading := false;
    }

    /**
     * A categories snapshot: `list` is taken when the document exists (an
     * absent `list` reads as empty); a missing document leaves the list alone.
     */
    method ReceiveCategories(docExists: bool, list: seq<string>)
      modifies this`categories
      ensures categories == if docExists then list else old(categories)
    {
      if docExists {
        categories := list;
      }
    }

    /** Typing in the search box changes the term only. */
    method SetSearchTerm(text: string)
      modifies this`searchTerm
      ensures searchTerm == text
    {
      searchTerm := text;
    }

    /** The category select as written: the page number is not reset. */
    method SetCategory(c: string)
      modifies this`category
      ensures category == c
    {
      category := c;
    }

    /**
     * The category select as it is evidently meant to behave: it returns to
     * page 1, so the page is in range and shows records whenever any match.
     */
    method SelectCategory(c: string)
      modifies this`category, this`currentPage
      ensures category == c && currentPage == 1
      ensures Valid() && PageInRange()
      ensures Results() != [] ==> CurrentItems() != []
    {
      category := c;
      currentPage := 1;
      PageNonEmpty(Results(), 1);
    }

    /** The sort select changes the mode only. */
    method SetSortBy(mode: string)
      modifies this`sortBy
      ensures sortBy == mode
    {
      sortBy := mode;
    }

    /** `handleSearch`, run by the search button and by Enter: back to page 1. */
    method Search()
      modifies this`currentPage
      ensures currentPage == 1 && Valid() && PageInRange()
    {
      currentPage := 1;
    }

    /** The previous-page button; it is disabled on page 1 and absent with one page or none. */
    method Previous()
      requires Valid()
      modifies this`currentPage
      ensures Valid()
      ensures currentPage == if ShowsControls() && old(currentPage) != 1 then old(currentPage) - 1 else old(currentPage)
      ensures old(PageInRange()) ==> PageInRange()
    {
      if PageCount() > 1 && currentPage != 1 {
        currentPage := currentPage - 1;
      }
    }

    /** The next-page button; it is disabled on the last page and absent with one page or none. */
    method Next()
      requires Valid()
      modifies this`currentPage
      ensures Valid()
      ensures currentPage == if ShowsControls() && old(currentPage) != PageCount() then old(currentPage) + 1 else old(currentPage)
      ensures old(PageInRange()) ==> PageInRange()
    {
      var n := PageCount();
      if n > 1 && currentPage != n {
        currentPage := currentPage + 1;
      }
    }

    /** The number button with index `i` (labelled `i + 1`); buttons exist for `0 <= i < PageCount()`. */
    method GoToPage(i: int)
      requires Valid()
      modifies this`currentPage
      ensures Valid()
      ensures currentPage == if ShowsControls() && 0 <= i < PageCount() then i + 1 else old(currentPage)
      ensures ShowsControls() && 0 <= i < PageCount() ==> PageInRange()
    {
      var n := PageCount();
      if n > 1 && 0 <= i < n {
        currentPage := i + 1;
      }
    }
  }

  /**
   * What `SetCategory` leaves behind: on page 2 of a search with more than
   * twelve results in all categories, choosing a category with one to twelve
   * matches keeps page 2, which is now empty, and no controls are drawn to
   * leave it.
   */
  lemma CategoryChangeStrandsPage(works: seq<Artwork>, term: string, sortBy: string, category: string)
    requires |Query(works, term, AllCategories, sortBy)| > PageSize
    requires 0 < |Query(works, term, category, sortBy)| <= PageSize
    ensures PageItems(Query(works, term, AllCategories, sortBy), 2) != []
    ensures PageItems(Query(works, term, category, sortBy), 2) == []
    ensures !ShowPagination(|Query(works, term, category, sortBy)|)
  {
    PageNonEmpty(Query(works, term, AllCategories, sortBy), 2);
    PageNonEmpty(Query(works, term, category, sortBy), 2);
  }
}
