/**
 * The Search screen's state: the search term, the page cursor that Prev and Next
 * move, the last page of results, and the searches its effects start.
 */
module SearchScreen {
  import opened Option

  /** One page of movie search results: how many pages there are, and the movie ids on this one. */
  datatype ResultsPage = ResultsPage(totalPages: int, results: seq<int>)

  /** A call of `onSearch(searchTerm, page)`. */
  datatype SearchRequest = SearchRequest(term: string, page: int)

  /** Prev: `(page - 1).coerceAtLeast(1)`. */
  function Prev(page: int): (r: int)
    ensures r >= 1
    ensures r <= page || page < 1
    ensures page > 1 ==> r == page - 1
    ensures page <= 1 ==> r == 1
  {
    if page - 1 < 1 then 1 else page - 1
  }

  /** Next: `(page + 1).coerceAtMost(totalPages)`. */
  function Next(page: int, totalPages: int): (r: int)
    ensures r <= totalPages
    ensures r <= page + 1
    ensures page < totalPages ==> r == page + 1
    ensures page >= totalPages ==> r == totalPages
  {
    if page + 1 > totalPages then totalPages else page + 1
  }

  /** Prev stays put only on the first page; Next only on the last page (or past it). */
  lemma PrevNextFixedPoints(page: int, totalPages: int)
    requires page >= 1
    ensures Prev(page) == page <==> page == 1
    ensures Next(page, totalPages) == page <==> page == totalPages
  {
  }

  /** With at least one page, Prev and Next keep the cursor within `[1, totalPages]`. */
  lemma PrevNextStayInRange(page: int, totalPages: int)
    requires 1 <= page <= totalPages
    ensures 1 <= Prev(page) <= totalPages
    ensures 1 <= Next(page, totalPages) <= totalPages
  {
  }

  /** A results page claiming no pages at all sends Next to page 0. */
  lemma NextWithoutPages(page: int)
    requires page >= 0
    ensures Next(page, 0) == 0
  {
  }

  /** Away from the ends, Next undoes Prev and Prev undoes Next. */
  lemma PrevNextInverse(page: int, totalPages: int)
    requires 1 <= page <= totalPages
    ensures page > 1 ==> Next(Prev(page), totalPages) == page
    ensures page < totalPages ==> Prev(Next(page, totalPages)) == page
  {
  }

  /** The cursor after a run of clicks, `true` standing for Next and `false` for Prev. */
  function AfterClicks(page: int, totalPages: int, clicks: seq<bool>): int
    decreases |clicks|
  {
    if clicks == [] then page
    else AfterClicks(if clicks[0] then Next(page, totalPages) else Prev(page), totalPages, clicks[1..])
  }

  /** However the buttons are pressed, the cursor stays within `[1, totalPages]`. */
  lemma {:induction false} ClicksStayInRange(page: int, totalPages: int, clicks: seq<bool>)
    requires 1 <= page <= totalPages
    ensures 1 <= AfterClicks(page, totalPages, clicks) <= totalPages
    decreases |clicks|
  {
    if clicks != [] {
      PrevNextStayInRange(page, totalPages);
      ClicksStayInRange(if clicks[0] then Next(page, totalPages) else Prev(page), totalPages, clicks[1..]);
    }
  }

  /** Pressing Next at least as often as there are pages reaches the last page. */
  lemma {:induction false} EnoughNextsReachLastPage(page: int, totalPages: int, n: nat)
    requires 1 <= page <= totalPages && n >= totalPages - page
    ensures AfterClicks(page, totalPages, seq(n, _ => true)) == totalPages
    decreases n
  {
    var clicks := seq(n, _ => true);
    if n > 0 {
      assert clicks[1..] == seq(n - 1, _ => true);
      EnoughNextsReachLastPage(Next(page, totalPages), totalPages, n - 1);
    }
  }

  class SearchState {
    var searchTerm: string
    var currentPageIndex: int
    var movieResultsPage: Option<ResultsPage>

    /** The results and their page controls are on screen: there is a page, and a term to show it for. */
    predicate ShowsResults()
      reads this
    {
      movieResultsPage.Some? && searchTerm != ""
    }

    constructor()
      ensures searchTerm == "" && currentPageIndex == 1 && movieResultsPage == None
      ensures !ShowsResults()
    {
      searchTerm, currentPageIndex, movieResultsPage := "", 1, None;
    }

    /**
     * The search field's `onValueChange`.  The effect keyed on the term searches
     * again when the term changed and is not empty; the page-control effect, keyed on
     * the page, also runs when the controls come back on screen.  Either searches
     * for the new term at the current page, which the term does not reset.
     */
    method OnSearchTermChange(it: string) returns (requests: seq<SearchRequest>)
      modifies this`searchTerm
      ensures searchTerm == it
      ensures requests ==
        (if it != old(searchTerm) && it != "" then [SearchRequest(it, currentPageIndex)] else []) +
        (if !old(ShowsResults()) && ShowsResults() then [SearchRequest(it, currentPageIndex)] else [])
      ensures forall i :: 0 <= i < |requests| ==> requests[i] == SearchRequest(searchTerm, currentPageIndex)
      ensures forall i :: 0 <= i < |requests| ==> requests[i].term != ""
    {
      var wasShown := ShowsResults();
      var previous := searchTerm;
      searchTerm := it;
      requests := [];
      if it != previous && it != "" {
        requests := requests + [SearchRequest(it, currentPageIndex)];
      }
      if !wasShown && ShowsResults() {
        requests := requests + [SearchRequest(it, currentPageIndex)];
      }
    }

    /**
     * A search answered (possibly with no page).  When that brings the page controls
     * on screen, their effect runs and searches once more for the same term and page.
     */
    method OnSearchResult(page: Option<ResultsPage>) returns (requests: seq<SearchRequest>)
      modifies this`movieResultsPage
      ensures movieResultsPage == page
      ensures requests == if !old(ShowsResults()) && ShowsResults()
        then [SearchRequest(searchTerm, currentPageIndex)] else []
    {
      var wasShown := ShowsResults();
      movieResultsPage := page;
      requests := if !wasShown && ShowsResults() then [SearchRequest(searchTerm, currentPageIndex)] else [];
    }

    /**
     * Coming back to the screen: the term and the page are restored, the results
     * are not.  The term effect enters composition and searches when the term is
     * not empty; the page controls stay off screen until an answer arrives.
     */
    method Reenter() returns (requests: seq<SearchRequest>)
      modifies this`movieResultsPage
      ensures movieResultsPage == None && !ShowsResults()
      ensures requests == if searchTerm != "" then [SearchRequest(searchTerm, currentPageIndex)] else []
    {
      movieResultsPage := None;
      requests := if searchTerm != "" then [SearchRequest(searchTerm, currentPageIndex)] else [];
    }

    /**
     * The Prev button of either control row, on screen only with the results.
     * The page-control effect lives in the list's first item, beside the top row:
     * it searches for the new page when the cursor moved, but only while that item
     * is on screen (`firstItemOnScreen`); a click on the bottom row with the top
     * scrolled away starts no search.
     */
    method ClickPrev(firstItemOnScreen: bool) returns (requests: seq<SearchRequest>)
      requires ShowsResults()
      modifies this`currentPageIndex
      ensures currentPageIndex == Prev(old(currentPageIndex))
      ensures ShowsResults()
      ensures requests == if currentPageIndex != old(currentPageIndex) && firstItemOnScreen
        then [SearchRequest(searchTerm, currentPageIndex)] else []
      ensures 1 <= old(currentPageIndex) <= movieResultsPage.value.totalPages ==>
        1 <= currentPageIndex <= movieResultsPage.value.totalPages
    {
      var previous := currentPageIndex;
      currentPageIndex := Prev(currentPageIndex);
      requests := if currentPageIndex != previous && firstItemOnScreen
        then [SearchRequest(searchTerm, currentPageIndex)] else [];
      if 1 <= previous <= movieResultsPage.value.totalPages {
        PrevNextStayInRange(previous, movieResultsPage.value.totalPages);
      }
    }

    /**
     * The Next button of either control row, bounded by the total page count of
     * the results on screen; the search starts as for Prev.
     */
    method ClickNext(firstItemOnScreen: bool) returns (requests: seq<SearchRequest>)
      requires ShowsResults()
      modifies this`currentPageIndex
      ensures currentPageIndex == Next(old(currentPageIndex), movieResultsPage.value.totalPages)
      ensures ShowsResults()
      ensures requests == if currentPageIndex != old(currentPageIndex) && firstItemOnScreen
        then [SearchRequest(searchTerm, currentPageIndex)] else []
      ensures 1 <= old(currentPageIndex) <= movieResultsPage.value.totalPages ==>
        1 <= currentPageIndex <= movieResultsPage.value.totalPages
    {
      var previous := currentPageIndex;
      currentPageIndex := Next(currentPageIndex, movieResultsPage.value.totalPages);
      requests := if currentPageIndex != previous && firstItemOnScreen
        then [SearchRequest(searchTerm, currentPageIndex)] else [];
      if 1 <= previous <= movieResultsPage.value.totalPages {
        PrevNextStayInRange(previous, movieResultsPage.value.totalPages);
      }
    }

    /** What the screen lists: the results of the last page, when they are on screen. */
    method ShownResults() returns (shown: Option<seq<int>>)
      ensures shown.Some? <==> movieResultsPage.Some? && searchTerm != ""
      ensures shown.Some? ==> shown.value == movieResultsPage.value.results
    {
      if movieResultsPage == None || searchTerm == "" {
        return None;
      }
      shown := Some(movieResultsPage.value.results);
    }
  }
}
