/**
 * The state of the book viewer (src/EpubViewer.jsx), which shows the book chosen in
 * the book selector: each `useState` hook and the page-counter ref is a field of
 * `BookViewer`, and each effect step or handler is a method. The rendering library's
 * answers (`locations.total`, `locationFromCfi`'s index for a CFI, the table of
 * contents) arrive as parameters.
 */
module BookView {
  import opened JsValues
  import opened FontSize
  import opened Bookmarks
  import opened Pagination

  /** One table-of-contents entry (`caption` stands for the library's `label`). */
  datatype TocItem = TocItem(href: string, caption: string)

  /** A page counter is never below one: NaN, +Infinity, or a whole number of at least 1. */
  predicate PageCountValid(n: Number) {
    n != NegInfinity && (n.Finite? ==> IsWhole(n) && 1.0 <= n.v)
  }

  /** A snapshot of every field of the component. */
  datatype BookViewState = BookViewState(
    hasBook: bool,
    hasRendition: bool,
    fontSize: int,
    currentPage: Number,
    totalPages: int,
    progress: Number,
    currentCfi: Option<Cfi>,
    toc: seq<TocItem>,
    showToc: bool,
    pageCount: Number)

  /** The state right after mounting. */
  const Initial: BookViewState := BookViewState(
    hasBook := false,
    hasRendition := false,
    fontSize := DefaultFontSize,
    currentPage := Finite(0.0),
    totalPages := 0,
    progress := Finite(0.0),
    currentCfi := None,
    toc := [],
    showToc := false,
    pageCount := Finite(1.0))

  /**
   * The values a new book starts from: page 1, no page total, no progress, no CFI,
   * an empty table of contents and the page counter at 1. Everything else is kept.
   */
  function Reset(s: BookViewState): (r: BookViewState)
    ensures r.currentPage == Finite(1.0) && r.totalPages == 0 && r.progress == Finite(0.0)
    ensures r.currentCfi == None && r.toc == [] && r.pageCount == Finite(1.0)
    ensures r.hasBook == s.hasBook && r.hasRendition == s.hasRendition
    ensures r.fontSize == s.fontSize && r.showToc == s.showToc
  {
    s.(currentPage := Finite(1.0), totalPages := 0, progress := Finite(0.0),
       currentCfi := None, toc := [], pageCount := Finite(1.0))
  }

  /** Resetting an already reset state changes nothing. */
  lemma ResetIdempotent(s: BookViewState)
    ensures Reset(Reset(s)) == Reset(s)
  {
  }

  /** Two states that differ only in the fields a reset overwrites reset to the same state. */
  lemma ResetForgetsReading(s: BookViewState, t: BookViewState)
    requires s.hasBook == t.hasBook && s.hasRendition == t.hasRendition
    requires s.fontSize == t.fontSize && s.showToc == t.showToc
    ensures Reset(s) == Reset(t)
  {
  }

  class BookViewer {
    var hasBook: bool
    var hasRendition: bool
    var fontSize: int
    var currentPage: Number
    var totalPages: int
    var progress: Number
    var currentCfi: Option<Cfi>
    var toc: seq<TocItem>
    var showToc: bool
    /** `pageCountRef.current`. */
    var pageCount: Number

    function State(): BookViewState
      reads this
    {
      BookViewState(hasBook, hasRendition, fontSize, currentPage, totalPages, progress,
                    currentCfi, toc, showToc, pageCount)
    }

    /**
     * The invariant every step keeps: the font size is within its limits, the page
     * total is not negative, the page counter is never below one, and the page shown
     * is the page counter except before the first book (page 0, counter 1).
     */
    predicate Valid()
      reads this
    {
      && InRange(fontSize)
      && 0 <= totalPages
      && PageCountValid(pageCount)
      && (currentPage == pageCount || (currentPage == Finite(0.0) && pageCount == Finite(1.0)))
    }

    /** Mounting: every hook and the ref hold their initial values. */
    constructor()
      ensures State() == Initial
      ensures Valid()
    {
      hasBook, hasRendition := false, false;
      fontSize := DefaultFontSize;
      currentPage, totalPages, progress := Finite(0.0), 0, Finite(0.0);
      currentCfi, toc, showToc := None, [], false;
      pageCount := Finite(1.0);
    }

    /** The book-change effect: a selected path (a non-empty string) resets the reading state. */
    method SelectBook(path: Option<string>)
      requires Valid()
      modifies this
      ensures Valid()
      ensures Truthy(path) ==> State() == Reset(old(State()))
      ensures !Truthy(path) ==> State() == old(State())
    {
      if Truthy(path) {
        currentPage := Finite(1.0);
        totalPages := 0;
        progress := Finite(0.0);
        currentCfi := None;
        toc := [];
        pageCount := Finite(1.0);
      }
    }

    /** The loading effect has created the new book. */
    method BookOpened()
      requires Valid()
      modifies this
      ensures Valid()
      ensures State() == old(State()).(hasBook := true)
    {
      hasBook := true;
    }

    /** The book's navigation has loaded: its table of contents is stored. */
    method NavigationLoaded(items: seq<TocItem>)
      requires Valid()
      modifies this
      ensures Valid()
      ensures State() == old(State()).(toc := items)
    {
      toc := items;
    }

    /**
     * The book has been rendered and its `locations.total` is `total`: the rendition
     * is set and the page total becomes the estimate `ceil(total * 1.2)`, never less
     * than `total`.
     */
    method Rendered(total: nat)
      requires Valid()
      modifies this
      ensures Valid()
      ensures State() == old(State()).(hasRendition := true, totalPages := EstimatedTotalPages(total))
      ensures totalPages >= total
    {
      hasRendition := true;
      totalPages := EstimatedTotalPages(total);
    }

    /**
     * The `relocated` handler. `start` is the new location's start CFI (`None` when the
     * event has no location or no start); `index` is `locationFromCfi`'s answer for it
     * and `total` is `locations.total`.
     */
    method OnRelocated(start: Option<Cfi>, index: int, total: nat)
      requires Valid()
      modifies this
      ensures Valid()
      ensures start.None? ==> State() == old(State())
      ensures start.Some? ==> State() == old(State()).(
        currentCfi := start,
        pageCount := EstimatedPage(index, total),
        currentPage := EstimatedPage(index, total),
        progress := Progress(index, total))
      ensures start.Some? && 1 <= total && 0 <= index <= total ==>
        currentPage.Finite? && 1.0 <= currentPage.v <= EstimatedTotalPages(total) as real
      ensures start.Some? && 2 <= total && 0 <= index <= total - 1 ==>
        progress.Finite? && 0.0 <= progress.v <= 100.0
    {
      if start.Some? {
        currentCfi := start;
        EstimatedPageAtLeastOne(index, total);
        if 1 <= total && 0 <= index <= total {
          EstimatedPageBounds(index, total);
        }
        if 2 <= total && 0 <= index <= total - 1 {
          ProgressBounds(index, total);
        }
        pageCount := EstimatedPage(index, total);
        currentPage := pageCount;
        progress := Progress(index, total);
      }
    }

    /** `handleFontSizeChange(value)`: the size becomes `value` clamped into [50, 200]. */
    method HandleFontSizeChange(value: int)
      requires Valid()
      modifies this
      ensures Valid()
      ensures State() == old(State()).(fontSize := ClampFontSize(value))
    {
      fontSize := ClampFontSize(value);
    }

    /** `toggleToc`. */
    method ToggleToc()
      requires Valid()
      modifies this
      ensures Valid()
      ensures State() == old(State()).(showToc := !old(showToc))
    {
      showToc := !showToc;
    }

    /**
     * `navigateToChapter`: with both a book and a rendition the table of contents
     * closes (and the chapter is displayed); otherwise nothing changes.
     */
    method NavigateToChapter(href: string)
      requires Valid()
      modifies this
      ensures Valid()
      ensures hasBook && hasRendition ==> State() == old(State()).(showToc := false)
      ensures !(hasBook && hasRendition) ==> State() == old(State())
    {
      if hasBook && hasRendition {
        showToc := false;
      }
    }
  }
}
