/**
 * The bookmark list of the reader component: a list of entries keyed by the CFI of
 * the position they mark. A CFI is an opaque string here; entries are only ever
 * compared by CFI equality.
 */
module Bookmarks {
  import opened JsValues

  type Cfi = string

  /** One saved position, with its display label (`caption` stands for the source's `label`, a reserved word here) and the time it was saved. */
  datatype Bookmark = Bookmark(cfi: Cfi, caption: string, date: string)

  /**
   * What `toggleBookmark` can reach of the page on screen: either no content window
   * (no rendition, no `getContents`, no contents, or a content without `window`),
   * or the window's current text selection (empty when there is none).
   */
  datatype PageAccess = NoWindow | Window(selection: string)

  /** Number of characters of a selection kept in a label. */
  const SelectionLabelLength: nat := 30
  const PagePrefix: string := "페이지 "
  const BookmarkPrefix: string := "북마크 "
  const Ellipsis: string := "..."

  /** `bookmarks.some((b) => b.cfi === cfi)`. */
  function Bookmarked(bs: seq<Bookmark>, cfi: Cfi): (r: bool)
    ensures r <==> exists i :: 0 <= i < |bs| && bs[i].cfi == cfi
  {
    if bs == [] then false
    else bs[0].cfi == cfi || Bookmarked(bs[1..], cfi)
  }

  /** `bookmarks.filter((b) => b.cfi !== cfi)`. */
  function Without(bs: seq<Bookmark>, cfi: Cfi): (r: seq<Bookmark>)
    ensures |r| <= |bs|
    ensures forall b :: b in r <==> b in bs && b.cfi != cfi
  {
    if bs == [] then []
    else if bs[0].cfi == cfi then Without(bs[1..], cfi)
    else [bs[0]] + Without(bs[1..], cfi)
  }

  /** No CFI is bookmarked twice, and none is empty. */
  predicate WellFormed(bs: seq<Bookmark>)
    ensures WellFormed(bs) ==> !Bookmarked(bs, "")
    ensures WellFormed(bs) ==> forall i :: 0 <= i < |bs| ==> !Bookmarked(bs[i + 1..], bs[i].cfi)
  {
    && (forall i :: 0 <= i < |bs| ==> bs[i].cfi != "")
    && (forall i, j :: 0 <= i < j < |bs| ==> bs[i].cfi != bs[j].cfi)
  }

  /** The label of a new bookmark. */
  function NewLabel(access: PageAccess, currentPage: int, count: nat): (r: string)
    ensures |r| > 0
    ensures access.Window? && access.selection != "" ==> |r| <= SelectionLabelLength + |Ellipsis|
  {
    match access
    case NoWindow => BookmarkPrefix + IntToString(count + 1)
    case Window(selection) =>
      if |selection| > 0 then
        selection[..if |selection| < SelectionLabelLength then |selection| else SelectionLabelLength] + Ellipsis
      else
        PagePrefix + (if currentPage == 0 then "?" else IntToString(currentPage))
  }

  /**
   * `toggleBookmark`: nothing without a current location; otherwise remove every
   * entry at the current location, or append one new entry there when there is none.
   */
  function Toggle(bs: seq<Bookmark>, location: Option<Cfi>, access: PageAccess, currentPage: int, date: string)
    : (r: seq<Bookmark>)
    ensures !Truthy(location) ==> r == bs
    ensures Truthy(location) ==> Bookmarked(r, location.value) == !Bookmarked(bs, location.value)
    ensures |r| <= |bs| + 1
    ensures forall b :: b in bs && !(Truthy(location) && b.cfi == location.value) ==> b in r
    ensures forall b :: b in r && b !in bs ==> Truthy(location) && b.cfi == location.value && b.date == date
  {
    if !Truthy(location) then bs
    else if Bookmarked(bs, location.value) then Without(bs, location.value)
    else
      var added := Bookmark(location.value, NewLabel(access, currentPage, |bs|), date);
      assert (bs + [added])[|bs|] == added;
      bs + [added]
  }

  // ---------------------------------------------------------------------------
  // Filtering by CFI
  // ---------------------------------------------------------------------------

  /** Removing a CFI that is not bookmarked changes nothing. */
  lemma {:induction false} WithoutAbsent(bs: seq<Bookmark>, cfi: Cfi)
    requires !Bookmarked(bs, cfi)
    ensures Without(bs, cfi) == bs
  {
    if bs != [] {
      assert !Bookmarked(bs[1..], cfi);
      WithoutAbsent(bs[1..], cfi);
    }
  }

  /** Filtering distributes over concatenation: kept entries keep their order. */
  lemma {:induction false} WithoutAppend(bs: seq<Bookmark>, cs: seq<Bookmark>, cfi: Cfi)
    ensures Without(bs + cs, cfi) == Without(bs, cfi) + Without(cs, cfi)
  {
    if bs != [] {
      assert (bs + cs)[1..] == bs[1..] + cs;
      WithoutAppend(bs[1..], cs, cfi);
    } else {
      assert bs + cs == cs;
    }
  }

  /** Removing twice is removing once. */
  lemma WithoutIdempotent(bs: seq<Bookmark>, cfi: Cfi)
    ensures Without(Without(bs, cfi), cfi) == Without(bs, cfi)
  {
    WithoutAbsent(Without(bs, cfi), cfi);
  }

  /** Removing one CFI leaves the entries of every other CFI as they were. */
  lemma {:induction false} WithoutCommutes(bs: seq<Bookmark>, c: Cfi, d: Cfi)
    ensures Without(Without(bs, c), d) == Without(Without(bs, d), c)
  {
    if bs != [] {
      WithoutCommutes(bs[1..], c, d);
    }
  }

  /** The tail of a well-formed list is well formed and does not repeat the head's CFI. */
  lemma WellFormedTail(bs: seq<Bookmark>)
    requires WellFormed(bs) && bs != []
    ensures WellFormed(bs[1..])
    ensures forall b :: b in bs[1..] ==> b.cfi != bs[0].cfi
  {
    forall i, j | 0 <= i < j < |bs[1..]| ensures bs[1..][i].cfi != bs[1..][j].cfi {
      assert bs[1..][i] == bs[i + 1] && bs[1..][j] == bs[j + 1];
    }
    forall b | b in bs[1..] ensures b.cfi != bs[0].cfi {
      var k :| 0 <= k < |bs[1..]| && bs[1..][k] == b;
      assert bs[k + 1] == b;
    }
  }

  /** Putting an entry with a fresh, non-empty CFI in front of a well-formed list keeps it well formed. */
  lemma WellFormedCons(b: Bookmark, rest: seq<Bookmark>)
    requires WellFormed(rest) && b.cfi != ""
    requires forall x :: x in rest ==> x.cfi != b.cfi
    ensures WellFormed([b] + rest)
  {
    var r := [b] + rest;
    forall i, j | 0 <= i < j < |r| ensures r[i].cfi != r[j].cfi {
      if i == 0 {
        assert r[j] in rest;
      } else {
        assert r[i] == rest[i - 1] && r[j] == rest[j - 1];
      }
    }
  }

  /** Filtering keeps the list well formed. */
  lemma {:induction false} WithoutWellFormed(bs: seq<Bookmark>, cfi: Cfi)
    requires WellFormed(bs)
    ensures WellFormed(Without(bs, cfi))
  {
    if bs != [] {
      WellFormedTail(bs);
      WithoutWellFormed(bs[1..], cfi);
      if bs[0].cfi != cfi {
        WellFormedCons(bs[0], Without(bs[1..], cfi));
      }
    }
  }

  /** In a well-formed list the filter removes exactly one entry of a bookmarked CFI. */
  lemma {:induction false} WithoutRemovesOne(bs: seq<Bookmark>, cfi: Cfi)
    requires WellFormed(bs) && Bookmarked(bs, cfi)
    ensures |Without(bs, cfi)| == |bs| - 1
  {
    WellFormedTail(bs);
    if bs[0].cfi == cfi {
      assert !Bookmarked(bs[1..], cfi) by {
        forall i | 0 <= i < |bs[1..]| ensures bs[1..][i].cfi != cfi {
          assert bs[1..][i] in bs[1..];
        }
      }
      WithoutAbsent(bs[1..], cfi);
    } else {
      WithoutRemovesOne(bs[1..], cfi);
    }
  }

  // ---------------------------------------------------------------------------
  // Labels
  // ---------------------------------------------------------------------------

  /** A non-empty selection gives its first 30 characters followed by "...". */
  lemma SelectionLabel(selection: string, currentPage: int, count: nat)
    requires |selection| > 0
    ensures var text := NewLabel(Window(selection), currentPage, count);
      && |text| == 3 + (if |selection| < SelectionLabelLength then |selection| else SelectionLabelLength)
      && text[..|text| - 3] <= selection
      && text[|text| - 3..] == Ellipsis
  {
  }

  /**
   * With a window and no selection the label is "페이지 " and the page number
   * without leading zeros, or "?" for page 0.
   */
  lemma PageLabel(currentPage: int, count: nat)
    ensures var text := NewLabel(Window(""), currentPage, count);
      && text[..|PagePrefix|] == PagePrefix
      && (currentPage == 0 ==> text[|PagePrefix|..] == "?")
      && (currentPage > 0 ==> ParseDigits(text[|PagePrefix|..]) == currentPage)
      && (currentPage != 0 ==> |text| > |PagePrefix| && text[|PagePrefix|] != '0')
  {
    var text := NewLabel(Window(""), currentPage, count);
    if currentPage > 0 {
      assert text[|PagePrefix|..] == Digits(currentPage);
      DigitsRoundTrip(currentPage);
    }
  }

  /**
   * Without a window the label is "북마크 " and the entry's 1-based position,
   * without leading zeros.
   */
  lemma FallbackLabel(currentPage: int, count: nat)
    ensures var text := NewLabel(NoWindow, currentPage, count);
      && text[..|BookmarkPrefix|] == BookmarkPrefix
      && ParseDigits(text[|BookmarkPrefix|..]) == count + 1
      && |text| > |BookmarkPrefix| && text[|BookmarkPrefix|] != '0'
  {
    var text := NewLabel(NoWindow, currentPage, count);
    assert text[|BookmarkPrefix|..] == Digits(count + 1);
    DigitsRoundTrip(count + 1);
  }

  // ---------------------------------------------------------------------------
  // Toggling
  // ---------------------------------------------------------------------------

  /** Without a current location (null or empty) the list is left unchanged. */
  lemma ToggleWithoutLocation(bs: seq<Bookmark>, location: Option<Cfi>, access: PageAccess, page: int, date: string)
    requires !Truthy(location)
    ensures Toggle(bs, location, access, page, date) == bs
  {
  }

  /**
   * A toggle at a bookmarked location removes every entry there, keeps every other
   * entry in order, and leaves the location unbookmarked.
   */
  lemma ToggleRemoves(bs: seq<Bookmark>, cfi: Cfi, access: PageAccess, page: int, date: string)
    requires cfi != "" && Bookmarked(bs, cfi)
    ensures var r := Toggle(bs, Some(cfi), access, page, date);
      && r == Without(bs, cfi)
      && !Bookmarked(r, cfi)
      && forall b :: b in bs && b.cfi != cfi ==> b in r
  {
  }

  /**
   * A toggle at a location that is not bookmarked keeps the old list as a prefix and
   * appends exactly one entry for that location, after which it is bookmarked.
   */
  lemma ToggleAdds(bs: seq<Bookmark>, cfi: Cfi, access: PageAccess, page: int, date: string)
    requires cfi != "" && !Bookmarked(bs, cfi)
    ensures var r := Toggle(bs, Some(cfi), access, page, date);
      && |r| == |bs| + 1
      && r[..|bs|] == bs
      && r[|bs|] == Bookmark(cfi, NewLabel(access, page, |bs|), date)
      && Bookmarked(r, cfi)
  {
  }

  /** A toggle flips whether the current location is bookmarked. */
  lemma ToggleFlips(bs: seq<Bookmark>, cfi: Cfi, access: PageAccess, page: int, date: string)
    requires cfi != ""
    ensures Bookmarked(Toggle(bs, Some(cfi), access, page, date), cfi) == !Bookmarked(bs, cfi)
  {
    if !Bookmarked(bs, cfi) {
      assert Toggle(bs, Some(cfi), access, page, date)[|bs|].cfi == cfi;
    }
  }

  /** A toggle only touches entries at the current location. */
  lemma {:induction false} ToggleKeepsOthers(bs: seq<Bookmark>, cfi: Cfi, access: PageAccess, page: int, date: string)
    requires cfi != ""
    ensures Without(Toggle(bs, Some(cfi), access, page, date), cfi) == Without(bs, cfi)
  {
    if Bookmarked(bs, cfi) {
      WithoutIdempotent(bs, cfi);
    } else {
      var added := Bookmark(cfi, NewLabel(access, page, |bs|), date);
      WithoutAppend(bs, [added], cfi);
      assert Without([added], cfi) == [];
    }
  }

  /** Adding and then removing at the same location restores the original list. */
  lemma {:induction false} ToggleTwiceRestores(bs: seq<Bookmark>, cfi: Cfi, access: PageAccess, page: int, date: string,
                                              access': PageAccess, page': int, date': string)
    requires cfi != "" && !Bookmarked(bs, cfi)
    ensures Toggle(Toggle(bs, Some(cfi), access, page, date), Some(cfi), access', page', date') == bs
  {
    var added := Bookmark(cfi, NewLabel(access, page, |bs|), date);
    var once := bs + [added];
    assert Bookmarked(once, cfi) by { assert once[|bs|] == added; }
    WithoutAppend(bs, [added], cfi);
    assert Without([added], cfi) == [];
    WithoutAbsent(bs, cfi);
  }

  /** A toggle keeps the list well formed. */
  lemma ToggleWellFormed(bs: seq<Bookmark>, location: Option<Cfi>, access: PageAccess, page: int, date: string)
    requires WellFormed(bs)
    ensures WellFormed(Toggle(bs, location, access, page, date))
  {
    if Truthy(location) {
      if Bookmarked(bs, location.value) {
        WithoutWellFormed(bs, location.value);
      }
    }
  }
}
