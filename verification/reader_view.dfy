/**
 * The state of the reader component (epub-viewer-project): its `useState` hooks,
 * except the display-only `toc` and `bookMetadata`, are fields of `Reader`, as is
 * whether the rendition ref has been set (`hasRendition`); each event handler is a
 * method that updates those fields.
 * Everything the rendering library or the DOM answers (a location's CFI, a page
 * percentage, the content window's selection, a spine item's text nodes) arrives
 * as a parameter.
 */
module ReaderView {
  import opened JsValues
  import opened FontSize
  import opened Bookmarks
  import opened Search

  datatype Theme = Light | Dark

  /** The theme the theme button switches to. */
  function Other(t: Theme): (r: Theme)
    ensures r != t
  {
    if t == Light then Dark else Light
  }

  /** Switching the theme twice gives back the theme one started with. */
  lemma OtherInvolutive(t: Theme)
    ensures Other(Other(t)) == t
  {
  }

  /** The total the progress slider shows once locations exist: a percentage scale. */
  const PercentScale: int := 100

  /** A snapshot of every field of the component, used to say what a handler leaves alone. */
  datatype ReaderState = ReaderState(
    hasBook: bool,
    hasRendition: bool,
    currentLocation: Option<Cfi>,
    currentPage: int,
    totalPages: int,
    showToc: bool,
    fontSize: int,
    theme: Theme,
    bookmarks: seq<Bookmark>,
    searchQuery: string,
    searchResults: seq<SearchResult>,
    showSearchResults: bool,
    isLoading: bool,
    locationsReady: bool,
    showControls: bool)

  /** The state right after mounting, before any book is opened. */
  const Initial: ReaderState := ReaderState(
    hasBook := false,
    hasRendition := false,
    currentLocation := None,
    currentPage := 0,
    totalPages := 0,
    showToc := false,
    fontSize := DefaultFontSize,
    theme := Light,
    bookmarks := [],
    searchQuery := "",
    searchResults := [],
    showSearchResults := false,
    isLoading := true,
    locationsReady := false,
    showControls := true)

  /** The page percentage the handlers store: `Math.round(percentage * 100)`. */
  function PagePercent(percentage: real): (r: int)
    ensures r as real - 0.5 <= percentage * 100.0 < r as real + 0.5
    ensures 0.0 <= percentage <= 1.0 ==> 0 <= r <= PercentScale
  {
    Round(percentage * 100.0)
  }

  /**
   * The spine pass of `handleSearch`: `loads` lists the spine items' loads in the
   * order they complete (the item's text nodes, or `None` when its load fails). Each
   * completion pushes that item's results and counts it; `completed` tells whether
   * the count reached the number of items, which is when the results are published.
   */
  method SearchSpine(loads: seq<Option<seq<TextNode>>>, query: string)
    returns (results: seq<SearchResult>, completed: bool)
    ensures results == SpineResults(loads, query)
    ensures completed <==> |loads| > 0
    ensures forall r :: r in results ==> r.query == query && Contains(Lower(r.context), query)
  {
    results := [];
    completed := false;
    var searchCompleted := 0;
    while searchCompleted < |loads|
      invariant 0 <= searchCompleted <= |loads|
      invariant results == SpineResults(loads[..searchCompleted], query)
      invariant completed <==> 0 < searchCompleted == |loads|
    {
      assert loads[..searchCompleted + 1][..searchCompleted] == loads[..searchCompleted];
      var load := loads[searchCompleted];
      if load.Some? {
        results := SearchDocument(load.value, query, results);
      }
      searchCompleted := searchCompleted + 1;
      if searchCompleted >= |loads| {
        completed := true;
      }
    }
    assert loads[..searchCompleted] == loads;
    SpineResultsShowMatch(loads, query);
  }

  class Reader {
    var hasBook: bool
    var hasRendition: bool
    var currentLocation: Option<Cfi>
    var currentPage: int
    var totalPages: int
    var showToc: bool
    var fontSize: int
    var theme: Theme
    var bookmarks: seq<Bookmark>
    var searchQuery: string
    var searchResults: seq<SearchResult>
    var showSearchResults: bool
    var isLoading: bool
    var locationsReady: bool
    var showControls: bool

    function State(): ReaderState
      reads this
    {
      ReaderState(hasBook, hasRendition, currentLocation, currentPage, totalPages, showToc,
                  fontSize, theme, bookmarks, searchQuery, searchResults, showSearchResults,
                  isLoading, locationsReady, showControls)
    }

    /**
     * The invariant every handler keeps: the font size is within its limits, the
     * bookmark list is well formed, the slider total is 0 or the percentage scale,
     * and every search result shows the query it was found for.
     */
    predicate Valid()
      reads this
    {
      && InRange(fontSize)
      && WellFormed(bookmarks)
      && (totalPages == 0 || totalPages == PercentScale)
      && (forall r :: r in searchResults ==> Contains(Lower(r.context), r.query))
    }

    /** Mounting: every hook holds its initial value. */
    constructor()
      ensures State() == Initial
      ensures Valid()
    {
      hasBook, hasRendition := false, false;
      currentLocation, currentPage, totalPages := None, 0, 0;
      showToc, fontSize, theme := false, DefaultFontSize, Light;
      bookmarks := [];
      searchQuery, searchResults, showSearchResults := "", [], false;
      isLoading, locationsReady, showControls := true, false, true;
    }

    /** The mount effect opens the book: loading starts and the book is set. */
    method OpenBook()
      requires Valid()
      modifies this
      ensures Valid()
      ensures State() == old(State()).(hasBook := true, isLoading := true)
    {
      isLoading := true;
      hasBook := true;
    }

    /** The book is ready and has been rendered into the viewer element. */
    method Rendered()
      requires Valid()
      modifies this
      ensures Valid()
      ensures State() == old(State()).(hasRendition := true)
    {
      hasRendition := true;
    }

    /**
     * The `locationChanged` handler. `readySeen` is the value of `locationsReady` the
     * handler sees; `percentage` is the library's answer for the new CFI, `None` when
     * that call throws.
     */
    method OnLocationChanged(start: Cfi, readySeen: bool, percentage: Option<real>)
      requires Valid()
      modifies this
      ensures Valid()
      ensures State() == old(State()).(
        currentLocation := Some(start),
        currentPage := if readySeen && percentage.Some? then PagePercent(percentage.value)
                       else old(currentPage))
    {
      currentLocation := Some(start);
      if readySeen && percentage.Some? {
        currentPage := PagePercent(percentage.value);
      }
    }

    /**
     * Locations were generated: they are ready, loading ends and the slider counts
     * percent. `locationSeen` is the current location the handler sees; `percentage`
     * is the library's answer for it, `None` when that call throws.
     */
    method OnLocationsGenerated(locationSeen: Option<Cfi>, percentage: Option<real>)
      requires Valid()
      modifies this
      ensures Valid()
      ensures State() == old(State()).(
        locationsReady := true,
        isLoading := false,
        totalPages := PercentScale,
        currentPage := if Truthy(locationSeen) && percentage.Some? then PagePercent(percentage.value)
                       else old(currentPage))
    {
      locationsReady := true;
      isLoading := false;
      totalPages := PercentScale;
      if Truthy(locationSeen) && percentage.Some? {
        currentPage := PagePercent(percentage.value);
      }
    }

    /** Generating locations failed: loading ends and the book stays readable. */
    method OnLocationsFailed()
      requires Valid()
      modifies this
      ensures Valid()
      ensures State() == old(State()).(isLoading := false)
    {
      isLoading := false;
    }

    /** `isCurrentLocationBookmarked`: some entry's CFI equals the current location. */
    function IsCurrentLocationBookmarked(): (r: bool)
      reads this
      ensures r <==> currentLocation.Some? && exists i :: 0 <= i < |bookmarks| && bookmarks[i].cfi == currentLocation.value
    {
      currentLocation.Some? && Bookmarked(bookmarks, currentLocation.value)
    }

    /**
     * `toggleBookmark`. `access` is what the content window offers; without a
     * rendition the handler takes the no-window branch whatever it is.
     */
    method ToggleBookmark(access: PageAccess, date: string)
      requires Valid()
      modifies this
      ensures Valid()
      ensures State() == old(State()).(bookmarks := Toggle(old(bookmarks), old(currentLocation),
        if old(hasRendition) then access else NoWindow, old(currentPage), date))
      ensures Truthy(currentLocation) ==> IsCurrentLocationBookmarked() == !old(IsCurrentLocationBookmarked())
      ensures !Truthy(currentLocation) ==> bookmarks == old(bookmarks)
    {
      var reached := if hasRendition then access else NoWindow;
      ToggleWellFormed(bookmarks, currentLocation, reached, currentPage, date);
      if Truthy(currentLocation) {
        ToggleFlips(bookmarks, currentLocation.value, reached, currentPage, date);
      }
      bookmarks := Toggle(bookmarks, currentLocation, reached, currentPage, date);
    }

    /** The remove button of one bookmark entry: drop every entry with its CFI. */
    method RemoveBookmark(cfi: Cfi)
      requires Valid()
      modifies this
      ensures Valid()
      ensures State() == old(State()).(bookmarks := Without(old(bookmarks), cfi))
      ensures !Bookmarked(bookmarks, cfi)
      ensures forall b :: b in old(bookmarks) && b.cfi != cfi ==> b in bookmarks
    {
      WithoutWellFormed(bookmarks, cfi);
      bookmarks := Without(bookmarks, cfi);
    }

    /** `changeFontSize(delta)`: add `delta`, then clamp into [50, 200]. */
    method ChangeFontSize(delta: int)
      requires Valid()
      modifies this
      ensures Valid()
      ensures State() == old(State()).(fontSize := FontSize.ChangeFontSize(old(fontSize), delta))
    {
      fontSize := FontSize.ChangeFontSize(fontSize, delta);
    }

    /** The theme button. */
    method ToggleTheme()
      requires Valid()
      modifies this
      ensures Valid()
      ensures State() == old(State()).(theme := Other(old(theme)))
    {
      theme := Other(theme);
    }

    /** The table-of-contents button and the `t` key. */
    method ToggleToc()
      requires Valid()
      modifies this
      ensures Valid()
      ensures State() == old(State()).(showToc := !old(showToc))
    {
      showToc := !showToc;
    }

    /** A click on the viewer shows or hides the control bars. */
    method ToggleControls()
      requires Valid()
      modifies this
      ensures Valid()
      ensures State() == old(State()).(showControls := !old(showControls))
    {
      showControls := !showControls;
    }

    /** The two sidebar tabs: the search tab when `search` holds, the contents tab otherwise. */
    method SelectTab(search: bool)
      requires Valid()
      modifies this
      ensures Valid()
      ensures State() == old(State()).(showSearchResults := search)
    {
      showSearchResults := search;
    }

    /** Typing into the search box. */
    method SetSearchQuery(query: string)
      requires Valid()
      modifies this
      ensures Valid()
      ensures State() == old(State()).(searchQuery := query)
    {
      searchQuery := query;
    }

    /**
     * `goToLocation` and `goToTocItem`: with a rendition the target is displayed and
     * the sidebar closes; without one nothing happens.
     */
    method GoTo(target: string)
      requires Valid()
      modifies this
      ensures Valid()
      ensures State() == old(State()).(showToc := if old(hasRendition) then false else old(showToc))
    {
      if hasRendition {
        showToc := false;
      }
    }

    /**
     * `handleSearch`. `loads` lists the spine items' loads in the order they complete:
     * the item's text nodes, or `None` when its load fails. Results are published once
     * every item has completed; with an empty spine that never happens and loading
     * stays on.
     */
    method HandleSearch(loads: seq<Option<seq<TextNode>>>)
      requires Valid()
      modifies this
      ensures Valid()
      ensures !old(hasBook) || IsBlank(old(searchQuery)) ==> State() == old(State())
      ensures old(hasBook) && !IsBlank(old(searchQuery)) ==> State() == old(State()).(
        searchResults := if |loads| > 0 then SpineResults(loads, Lower(old(searchQuery))) else [],
        showSearchResults := true,
        isLoading := |loads| == 0)
    {
      if !hasBook || IsBlank(searchQuery) {
        return;
      }
      searchResults := [];
      showSearchResults := true;
      isLoading := true;
      var query := Lower(searchQuery);
      var results, completed := SearchSpine(loads, query);
      if completed {
        searchResults := results;
        isLoading := false;
      }
      SpineResultsShowMatch(loads, query);
    }

    /**
     * The search's five-second timeout: it ends loading when the `isLoading` value it
     * sees, `loadingSeen`, is set.
     */
    method SearchTimeout(loadingSeen: bool)
      requires Valid()
      modifies this
      ensures Valid()
      ensures State() == old(State()).(isLoading := if loadingSeen then false else old(isLoading))
    {
      if loadingSeen {
        isLoading := false;
      }
    }
  }
}
