# EPUB viewer bookkeeping, modelled in Dafny

The repository holds two React EPUB viewers built on the `epubjs` rendering
library.

- The reader component `epub-viewer-project/src/components/EpubViewer.js` keeps:
  - a bookmark list keyed by CFI (the EPUB position string);
  - a font size in percent and a light/dark theme;
  - a table-of-contents sidebar;
  - a full-text search that builds a context snippet around each match.
- The book viewer `src/EpubViewer.jsx` shows the book picked in a book selector. It:
  - resets its reading state when the book changes;
  - estimates a page count, a current page and a progress percentage from the
    library's `locations.total` and `locationFromCfi`;
  - clamps the font size and opens or closes its table of contents.

The model keeps each component's own logic. Every library or DOM answer becomes a
parameter: a CFI, `locationFromCfi`'s index, `locations.total`, a selection,
the text nodes of a loaded document. CFIs are opaque strings that are only compared
for equality.

The modules:

- `JsValues` (`js_values.dfy`) holds the JavaScript semantics the components rely on:
  - nullable values (`Option`) and string truthiness;
  - numbers with `NaN` and the infinities, where finite values are exact rationals;
  - `Math.ceil` and `Math.round`, and division by zero;
  - `toLowerCase`, `indexOf`, `includes`, `substring`, `trim` and decimal printing.
- `FontSize` (`font_size.dfy`) has the two clamps, one for each viewer.
- `Bookmarks` (`bookmarks.dfy`) has the bookmark list operations and the label of a
  new bookmark.
- `Search` (`search.dfy`) has the text-node filter, the snippet and the result list
  of one search. The tree-walker loop and the per-document push loop are methods
  proved against these functions.
- `ReaderView` (`reader_view.dfy`) has class `Reader`. Its fields are the reader's
  `useState` hooks, except the display-only `toc` and `bookMetadata`, plus
  `hasRendition`, which records whether the rendition ref is set. Each handler is a
  method that states the whole new state through `State()`.
- `Pagination` (`pagination.dfy`) has the page-count, current-page and progress
  formulas of the book viewer.
- `BookView` (`book_view.dfy`) has class `BookViewer`. Its fields are the book
  viewer's hooks plus the page-counter ref.

### Handlers registered once

Some handlers of the reader are registered once, when the component mounts, so they
see the component's state as it was at that moment:

- The `locationChanged` handler reads `locationsReady`.
- The handler run when locations have been generated reads `currentLocation`.
- The search timeout reads `isLoading` as it was when the search started.

The model does not fix which values these handlers see. `OnLocationChanged`,
`OnLocationsGenerated` and `SearchTimeout` take that value as a parameter
(`readySeen`, `locationSeen` and `loadingSeen`). With the mount-time values:

- `readySeen` is always false, so a location change never updates the page.
- `locationSeen` is always `None`, so generating locations never updates the page.

## Model

| member | source | states |
|---|---|---|
| JsValues.Ceil | src/EpubViewer.jsx:87-89 | `Math.ceil`: the least integer not below its argument |
| JsValues.Round | src/EpubViewer.jsx:96-98 | `Math.round`: the integer within half a unit, halves rounding up |
| JsValues.Divide | src/EpubViewer.jsx:88 | a quotient is finite exactly when the divisor is non-zero, and then times the divisor gives the dividend; dividing by zero gives +Infinity or -Infinity by the dividend's sign, and NaN for 0 / 0 |
| JsValues.Times | src/EpubViewer.jsx:87-88 | a product is finite exactly when the number is, with the value scaled by the factor; an infinity times zero, and NaN times anything, is NaN; an infinity times a non-zero factor is the infinity of the product's sign |
| JsValues.CeilNumber | src/EpubViewer.jsx:87-89 | `Math.ceil` of a number: finite ones become the whole number within one unit above, non-finite ones pass through |
| JsValues.RoundNumber | src/EpubViewer.jsx:96-98 | `Math.round` of a number: finite ones become the whole number within half a unit, non-finite ones pass through |
| JsValues.MaxNumber | src/EpubViewer.jsx:92 | `Math.max(m, n)` is NaN exactly when n is, +Infinity when n is, never -Infinity, and when finite at least both arguments and one of them |
| JsValues.Truthy | epub-viewer-project/src/components/EpubViewer.js:194 | a string is falsy exactly when it is null or empty |
| JsValues.Lower | epub-viewer-project/src/components/EpubViewer.js:276 | `toLowerCase` keeps the length and maps each character on its own |
| JsValues.LowerSlice | epub-viewer-project/src/components/EpubViewer.js:276 | lower-casing commutes with slicing |
| JsValues.LowerAppend | epub-viewer-project/src/components/EpubViewer.js:276 | lower-casing distributes over concatenation |
| JsValues.IndexOf | epub-viewer-project/src/components/EpubViewer.js:276 | `indexOf` is -1 exactly when there is no occurrence; otherwise it is the first occurrence |
| JsValues.Contains | epub-viewer-project/src/components/EpubViewer.js:337 | `includes` holds exactly when the query occurs somewhere, which needs it to be no longer than the text |
| JsValues.Trim | epub-viewer-project/src/components/EpubViewer.js:251 | `s.trim()` is a slice of `s` with only white space outside it, and it neither starts nor ends with white space |
| JsValues.TrimStartSuffix | epub-viewer-project/src/components/EpubViewer.js:251 | trimming the front leaves a suffix, and everything it drops is white space |
| JsValues.TrimEndPrefix | epub-viewer-project/src/components/EpubViewer.js:251 | trimming the back leaves a prefix that does not end in white space, and everything it drops is white space |
| JsValues.TrimStartEmpty | epub-viewer-project/src/components/EpubViewer.js:251 | the front trim is empty exactly when every character is white space |
| JsValues.TrimEndEmpty | epub-viewer-project/src/components/EpubViewer.js:251 | the back trim is empty exactly when every character is white space |
| JsValues.TrimStartHead | epub-viewer-project/src/components/EpubViewer.js:251 | what the front trim leaves starts with a character that is not white space |
| JsValues.TrimEmpty | epub-viewer-project/src/components/EpubViewer.js:251 | `s.trim()` is empty exactly when every character is white space |
| JsValues.IsBlank | epub-viewer-project/src/components/EpubViewer.js:251 | a query of white space only is exactly one whose trim is empty, so `!searchQuery.trim()` holds |
| JsValues.Substring | epub-viewer-project/src/components/EpubViewer.js:278-281 | `substring` of in-range ordered bounds is that slice, and is never longer than the string |
| JsValues.Digits | epub-viewer-project/src/components/EpubViewer.js:230 | `String(n)` of a natural number is a non-empty string of decimal digits with no leading zero: a string starting with "0" is exactly "0", for 0 |
| JsValues.DigitsRoundTrip | epub-viewer-project/src/components/EpubViewer.js:230 | reading the printed digits back gives the number |
| JsValues.IntToString | epub-viewer-project/src/components/EpubViewer.js:210 | `String(i)` starts with a minus sign exactly when `i` is negative; the rest is decimal digits with no leading zero (0 is written "0") that read back as the absolute value of `i` |
| FontSize.ChangeFontSize | epub-viewer-project/src/components/EpubViewer.js:359-364 | the new size is in [50, 200]; it equals `prev + delta` exactly when that sum is in range; otherwise it is the nearer bound |
| FontSize.ClampFontSize | src/EpubViewer.jsx:157-159 | the size is in [50, 200]; a value in range passes unchanged; otherwise it is the nearer bound |
| FontSize.ClampIdempotent | src/EpubViewer.jsx:158 | clamping twice is clamping once |
| FontSize.ChangeIsClampOfSum | epub-viewer-project/src/components/EpubViewer.js:362 | the reader's min-of-max clamp agrees with the book viewer's max-of-min clamp |
| Bookmarks.Bookmarked | epub-viewer-project/src/components/EpubViewer.js:395-397 | `some` is true exactly when some entry carries the CFI |
| Bookmarks.Without | epub-viewer-project/src/components/EpubViewer.js:546-549 | `filter` keeps exactly the entries whose CFI differs, and never lengthens the list |
| Bookmarks.WellFormed | epub-viewer-project/src/components/EpubViewer.js:193-247 | the list invariant: no CFI is empty (so the empty string is never bookmarked) and no CFI appears again later in the list |
| Bookmarks.WellFormedTail | epub-viewer-project/src/components/EpubViewer.js:193-247 | the tail of a well-formed list is well formed and does not repeat the head's CFI |
| Bookmarks.WellFormedCons | epub-viewer-project/src/components/EpubViewer.js:216-244 | a fresh, non-empty CFI put in front of a well-formed list keeps it well formed |
| Bookmarks.WithoutAbsent | epub-viewer-project/src/components/EpubViewer.js:546-549 | removing a CFI that is not bookmarked returns the same list |
| Bookmarks.WithoutAppend | epub-viewer-project/src/components/EpubViewer.js:546-549 | the filter works entry by entry and keeps the order: it distributes over concatenation |
| Bookmarks.WithoutIdempotent | epub-viewer-project/src/components/EpubViewer.js:546-549 | removing the same CFI twice is removing it once |
| Bookmarks.WithoutCommutes | epub-viewer-project/src/components/EpubViewer.js:546-549 | removals at two CFIs can be done in either order |
| Bookmarks.WithoutWellFormed | epub-viewer-project/src/components/EpubViewer.js:546-549 | removal keeps CFIs distinct and non-empty |
| Bookmarks.WithoutRemovesOne | epub-viewer-project/src/components/EpubViewer.js:546-549 | in a well-formed list, removing a bookmarked CFI drops exactly one entry |
| Bookmarks.NewLabel | epub-viewer-project/src/components/EpubViewer.js:210-241 | a new label is never empty, and a selection label is at most 30 characters plus "..." |
| Bookmarks.Toggle | epub-viewer-project/src/components/EpubViewer.js:193-247 | no change without a truthy location; otherwise bookmarked status flips, the list grows by at most one, every entry at another CFI stays, and any new entry is at the location with the given date |
| Bookmarks.SelectionLabel | epub-viewer-project/src/components/EpubViewer.js:212-213 | with a selection, the label is its first 30 characters (fewer if shorter) followed by "..." |
| Bookmarks.PageLabel | epub-viewer-project/src/components/EpubViewer.js:210 | with a window and no selection, the label is "페이지 " and then "?" for page 0, or the page number without a leading zero, whose digits read back as the page |
| Bookmarks.FallbackLabel | epub-viewer-project/src/components/EpubViewer.js:226-233 | without a content window, the label is "북마크 " and then the list length plus one, without a leading zero, whose digits read back as that number |
| Bookmarks.ToggleWithoutLocation | epub-viewer-project/src/components/EpubViewer.js:194 | with a null or empty location, the list is unchanged |
| Bookmarks.ToggleRemoves | epub-viewer-project/src/components/EpubViewer.js:196-198 | at a bookmarked location, every entry there is removed, all other entries stay, and the location is then unbookmarked |
| Bookmarks.ToggleAdds | epub-viewer-project/src/components/EpubViewer.js:216-244 | at an unbookmarked location, the old list stays as a prefix and exactly one entry for the location, with the new label and date, is appended |
| Bookmarks.ToggleFlips | epub-viewer-project/src/components/EpubViewer.js:193-247 | a toggle flips whether the location is bookmarked |
| Bookmarks.ToggleKeepsOthers | epub-viewer-project/src/components/EpubViewer.js:193-247 | leaving out the current location, the list is the same before and after a toggle |
| Bookmarks.ToggleTwiceRestores | epub-viewer-project/src/components/EpubViewer.js:193-247 | adding and then toggling again at the same location restores the original list, whatever the labels and dates |
| Bookmarks.ToggleWellFormed | epub-viewer-project/src/components/EpubViewer.js:193-247 | a toggle keeps CFIs distinct and non-empty |
| Search.Matching | epub-viewer-project/src/components/EpubViewer.js:334-342 | the walker keeps exactly the non-empty nodes whose lower-cased text includes the query |
| Search.Accepts | epub-viewer-project/src/components/EpubViewer.js:334-342 | an accepted node has a first match at an index where the whole query fits in its text |
| Search.MatchingAppend | epub-viewer-project/src/components/EpubViewer.js:347-350 | the filter works node by node and keeps document order: it distributes over concatenation |
| Search.FindTextNodesContaining | epub-viewer-project/src/components/EpubViewer.js:325-356 | the walker loop collects exactly the accepted nodes, in document order |
| Search.SearchDocument | epub-viewer-project/src/components/EpubViewer.js:265-295 | one document's pass appends one result per matched node that has a CFI, in order |
| Search.SnippetAround | epub-viewer-project/src/components/EpubViewer.js:278-285 | the snippet is at most the text plus two ellipses long, and at most the query plus 80 plus two ellipses when there is a match |
| Search.Snippet | epub-viewer-project/src/components/EpubViewer.js:276-285 | the snippet is at most the text plus two ellipses long, and shows the query whenever the text contains it |
| Search.DocumentResults | epub-viewer-project/src/components/EpubViewer.js:269-291 | at most one result per node; each carries the query, the CFI of a found node and that node's snippet |
| Search.SpineResults | epub-viewer-project/src/components/EpubViewer.js:261-314 | every result of a whole search carries the query it was run with |
| Search.SnippetAroundShape | epub-viewer-project/src/components/EpubViewer.js:278-285 | around an occurrence at `i`: the slice [max(0, i-40), min(len, i+q+40)), with "..." in front iff i > 0 and "..." behind iff i+q+40 < len |
| Search.SnippetShape | epub-viewer-project/src/components/EpubViewer.js:276-285 | for an accepted node, the snippet has that shape around the first match |
| Search.SnippetLength | epub-viewer-project/src/components/EpubViewer.js:278-285 | a snippet is at most the query length plus 80 plus two ellipses long |
| Search.SnippetAroundShowsMatch | epub-viewer-project/src/components/EpubViewer.js:278-285 | the snippet around an occurrence still contains the query, lower-cased |
| Search.SnippetShowsMatch | epub-viewer-project/src/components/EpubViewer.js:276-285 | an accepted node's snippet contains the query, lower-cased |
| Search.ResultsShowMatch | epub-viewer-project/src/components/EpubViewer.js:267-291 | every result of a document carries the query, and its context contains it |
| Search.ResultsOfAcceptedShowMatch | epub-viewer-project/src/components/EpubViewer.js:269-291 | the same, for any list of nodes the filter accepts |
| Search.SpineResultsShowMatch | epub-viewer-project/src/components/EpubViewer.js:261-314 | every result of a whole search carries the query, and its context contains it |
| Search.DocumentResultsAppend | epub-viewer-project/src/components/EpubViewer.js:269-295 | the results of two runs of nodes are the results of each run, in order |
| Search.NodeResults | epub-viewer-project/src/components/EpubViewer.js:269-295 | a node whose `cfiFromRange` throws is skipped and the other nodes' results are unchanged; a node with a CFI gives its own result in its place |
| Search.OneResultPerNode | epub-viewer-project/src/components/EpubViewer.js:269-291 | matched nodes with CFIs give exactly one result each, in walker order, with that node's CFI and snippet |
| Pagination.EstimatedTotalPages | src/EpubViewer.jsx:74 | the integer estimate r satisfies 6·total ≤ 5r < 6·total + 5, so it is at least `total` |
| Pagination.EstimatedPage | src/EpubViewer.jsx:87-92 | NaN when total is 0; otherwise a whole page of at least 1 |
| Pagination.PageOf | src/EpubViewer.jsx:87-92 | `max(1, ceil(index / total * pages))` is never -Infinity, is whole and at least 1 when finite, and is finite whenever total ≥ 1 |
| Pagination.Progress | src/EpubViewer.jsx:96-98 | `round(index / (total - 1) * 100)` is non-finite when total is 1 and a whole number otherwise |
| Pagination.EstimatedTotalPagesIsCeiling | src/EpubViewer.jsx:74 | the estimate is exactly `ceil(total * 1.2)` |
| Pagination.EstimatedPageAtLeastOne | src/EpubViewer.jsx:87-92 | the page is never -Infinity, and when finite it is a whole number of at least 1 |
| Pagination.EstimatedPageWithoutLocations | src/EpubViewer.jsx:87-92 | with total 0 the page is NaN |
| Pagination.PageOfFinite | src/EpubViewer.jsx:87-92 | with total ≥ 1, the page is `max(1, ceil(index / total * pages))` over rationals |
| Pagination.PageOfBounds | src/EpubViewer.jsx:87-92 | for 0 ≤ index ≤ total, the page is a whole number in [1, pages] |
| Pagination.EstimatedPageBounds | src/EpubViewer.jsx:84-93 | for 0 ≤ index ≤ total, the page is a whole number in [1, estimated total] |
| Pagination.EstimatedPageMonotone | src/EpubViewer.jsx:84-93 | a larger index never gives an earlier page |
| Pagination.ProgressFinite | src/EpubViewer.jsx:96-98 | with total ≥ 2, progress is `round(index / (total - 1) * 100)` over rationals |
| Pagination.ProgressBounds | src/EpubViewer.jsx:96-98 | for 0 ≤ index ≤ total - 1, progress is a whole percentage in [0, 100] |
| Pagination.ProgressMonotone | src/EpubViewer.jsx:96-98 | progress never decreases as the index grows |
| Pagination.ProgressEnds | src/EpubViewer.jsx:96-98 | progress is 0 at index 0 and 100 at index total − 1 |
| Pagination.ProgressPastLastLocation | src/EpubViewer.jsx:96-98 | at index total, which the page bounds admit, progress is at least 100, and 200 when total is 2 |
| Pagination.ProgressSingleLocation | src/EpubViewer.jsx:96-98 | with total 1, progress divides by zero: NaN at index 0, and ±Infinity elsewhere |
| ReaderView.Other | epub-viewer-project/src/components/EpubViewer.js:438 | the theme button always switches to the other theme |
| ReaderView.OtherInvolutive | epub-viewer-project/src/components/EpubViewer.js:438 | switching twice restores the theme |
| ReaderView.PagePercent | epub-viewer-project/src/components/EpubViewer.js:70 | the page is `Math.round(percentage * 100)`: within half a unit of `percentage * 100`, rounding halves up; a percentage in [0, 1] gives a page in [0, 100] |
| ReaderView.Reader.constructor | epub-viewer-project/src/components/EpubViewer.js:8-23 | every hook starts at its initial value, and the invariant holds |
| ReaderView.Reader.OpenBook | epub-viewer-project/src/components/EpubViewer.js:29-31 | loading starts and a book is present; nothing else changes |
| ReaderView.Reader.Rendered | epub-viewer-project/src/components/EpubViewer.js:50-58 | a rendition is present; nothing else changes |
| ReaderView.Reader.OnLocationChanged | epub-viewer-project/src/components/EpubViewer.js:61-75 | the location becomes the new start CFI; the page is updated only when the handler sees locations as ready and the percentage is known |
| ReaderView.Reader.OnLocationsGenerated | epub-viewer-project/src/components/EpubViewer.js:87-102 | locations are ready, loading ends, the slider total is 100; the page is updated only for a truthy location the handler sees |
| ReaderView.Reader.OnLocationsFailed | epub-viewer-project/src/components/EpubViewer.js:103-111 | loading ends and nothing else changes |
| ReaderView.Reader.IsCurrentLocationBookmarked | epub-viewer-project/src/components/EpubViewer.js:395-397 | true exactly when some entry's CFI equals the current location |
| ReaderView.Reader.ToggleBookmark | epub-viewer-project/src/components/EpubViewer.js:193-247 | the list becomes the toggle of the old list; with a truthy location the bookmarked status flips; without one nothing changes; the invariant holds |
| ReaderView.Reader.RemoveBookmark | epub-viewer-project/src/components/EpubViewer.js:546-549 | the CFI's entries are gone, every other entry stays, and nothing else changes |
| ReaderView.Reader.ChangeFontSize | epub-viewer-project/src/components/EpubViewer.js:359-364 | the size becomes the clamped sum; nothing else changes |
| ReaderView.Reader.ToggleTheme | epub-viewer-project/src/components/EpubViewer.js:438 | the theme becomes the other one; nothing else changes |
| ReaderView.Reader.ToggleToc | epub-viewer-project/src/components/EpubViewer.js:421 | the sidebar flag is negated; nothing else changes |
| ReaderView.Reader.ToggleControls | epub-viewer-project/src/components/EpubViewer.js:567 | the control-bar flag is negated; nothing else changes |
| ReaderView.Reader.SelectTab | epub-viewer-project/src/components/EpubViewer.js:451-462 | the tab flag becomes the chosen tab; nothing else changes |
| ReaderView.Reader.SetSearchQuery | epub-viewer-project/src/components/EpubViewer.js:471 | the query becomes the typed text; nothing else changes |
| ReaderView.Reader.GoTo | epub-viewer-project/src/components/EpubViewer.js:177-190 | with a rendition the sidebar closes, and without one nothing changes |
| ReaderView.SearchSpine | epub-viewer-project/src/components/EpubViewer.js:257-314 | the completion loop pushes exactly the whole search's results, every one showing the query, and reaches the item count exactly when the spine is not empty |
| ReaderView.Reader.HandleSearch | epub-viewer-project/src/components/EpubViewer.js:250-315 | with no book or a blank query nothing changes; otherwise the search tab opens and, once all spine items complete, the results are those of every loaded item and loading ends; an empty spine leaves loading on with no results |
| ReaderView.Reader.SearchTimeout | epub-viewer-project/src/components/EpubViewer.js:317-321 | loading ends only when the value the timeout sees says it is on |
| BookView.Reset | src/EpubViewer.jsx:20-30 | a reset sets page 1, total 0, progress 0, no CFI, an empty contents list and the counter at 1, and keeps the other fields |
| BookView.ResetIdempotent | src/EpubViewer.jsx:20-30 | resetting twice is resetting once |
| BookView.ResetForgetsReading | src/EpubViewer.jsx:20-30 | states that differ only in reading position reset to the same state |
| BookView.BookViewer.constructor | src/EpubViewer.jsx:5-17 | every hook and the ref start at their initial values, and the invariant holds |
| BookView.BookViewer.SelectBook | src/EpubViewer.jsx:20-30 | a truthy path resets the state; a null or empty path changes nothing |
| BookView.BookViewer.BookOpened | src/EpubViewer.jsx:50-51 | a book is present; nothing else changes |
| BookView.BookViewer.NavigationLoaded | src/EpubViewer.jsx:58-60 | the contents list becomes the navigation's; nothing else changes |
| BookView.BookViewer.Rendered | src/EpubViewer.jsx:62-75 | a rendition is present and the page total is the estimate, at least `total` |
| BookView.BookViewer.OnRelocated | src/EpubViewer.jsx:78-101 | without a start nothing changes; otherwise the CFI, counter, page and progress are updated; the page stays within [1, estimate] and progress within [0, 100] for in-range indexes |
| BookView.BookViewer.HandleFontSizeChange | src/EpubViewer.jsx:157-163 | the size becomes the clamped value; nothing else changes |
| BookView.BookViewer.ToggleToc | src/EpubViewer.jsx:176-178 | the contents flag is negated; nothing else changes |
| BookView.BookViewer.NavigateToChapter | src/EpubViewer.jsx:147-155 | with a book and a rendition the contents close; otherwise nothing changes |

## Left out

- Every `epubjs` call is left out; its answers are parameters. This covers:
  - `ePub`, `renderTo`, `display`, `next`/`prev`, `destroy`;
  - `locations.generate`, `percentageFromCfi`, `locationFromCfi`, `cfiFromPercentage`, `cfiFromRange`;
  - `themes.register`/`select`/`fontSize`, `loaded.metadata` and `loaded.navigation`.
  The effects that only forward the theme or the font size to the library have no
  state of their own to model.
- DOM work is left out: the tree walker itself, `createRange`, `getSelection`, the
  fullscreen API and the viewer element. A document's text nodes are a parameter,
  and so is a failed CFI lookup (a node without a CFI). A missing tree walker is the
  empty node list.
- Event ordering is left out: promise chains, the effect lifecycle, `setTimeout`
  scheduling, and keyboard and window listeners. `HandleSearch` takes the spine
  items' loads in the order they complete.
- The `b` key handler is re-registered only when the location changes, so it may
  see an older bookmark list. `ReaderView.Reader.ToggleBookmark` toggles the current list.
- JSX rendering is left out, including the regular-expression highlight of results
  and the `|| 0` display fallbacks.
- The slider handler `handleSliderChange`, the page-turn functions and
  `toggleFullscreen` are left out: they only call the library or the browser.
- The book metadata (title) and the reader's table of contents are only displayed,
  so they are left out.
- `Date.toLocaleString` is left out; the date string is a parameter.
- JsValues.Lower: lower-cases ASCII letters only, because Unicode case mapping is not
  modelled. It keeps the length-preserving, per-character shape the snippet relies on.
- JsValues.Round, JsValues.Ceil, JsValues.Divide: finite numbers are exact rationals,
  so floating-point rounding (for example of `total * 1.2`) and signed zeros are not
  modelled.
- Strings are sequences of code points rather than UTF-16 code units. `substring`
  offsets and the 30-character selection cut differ from JavaScript only for
  characters outside the Basic Multilingual Plane.
- ReaderView.PagePercent: the page is kept as an integer. The library's percentage
  is assumed to be a finite number.
- BookView.BookViewer.OnRelocated: the estimate is recomputed from `total` rather
  than captured when rendering. The two are equal because the locations are
  generated once, before the rendition exists.
- Pagination: `total` is the library's `locations.total` and `index` is
  `locationFromCfi`'s answer, taken as given. `total` is taken as non-negative
  (a `nat`). A book with no locations, for which a last-index reading of
  `locations.total` would give -1, is not modelled. The model does not fix
  whether `locations.total` counts the locations or is the last index. Its lemmas cover
  every index from 0 to total, and ProgressPastLastLocation shows what progress
  does at index total.
