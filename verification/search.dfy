/**
 * Full-text search of the reader component: which text nodes of a loaded spine
 * document match a query, and the context snippet shown for each match.
 */
module Search {
  import opened JsValues
  import opened Bookmarks

  /** Characters of context kept on either side of a match. */
  const ContextRadius: nat := 40

  /**
   * A text node of a loaded document, in document order, with the CFI the library's
   * `cfiFromRange` gives for it (`None` when that call throws).
   */
  datatype TextNode = TextNode(text: string, cfi: Option<Cfi>)

  /** One search hit as the result list shows it. */
  datatype SearchResult = SearchResult(cfi: Cfi, context: string, query: string)

  /** The tree walker's filter: a non-empty node whose lower-cased text includes the query. */
  predicate Accepts(node: TextNode, query: string)
    ensures Accepts(node, query) ==> 0 <= IndexOf(Lower(node.text), query) <= |node.text| - |query|
  {
    |node.text| > 0 && Contains(Lower(node.text), query)
  }

  /** The nodes a document's walker yields for `query`, in document order. */
  function Matching(nodes: seq<TextNode>, query: string): (r: seq<TextNode>)
    ensures |r| <= |nodes|
    ensures forall n :: n in r <==> n in nodes && Accepts(n, query)
  {
    if nodes == [] then []
    else
      var last := nodes[|nodes| - 1];
      assert forall n :: n in nodes <==> n in nodes[..|nodes| - 1] || n == last;
      Matching(nodes[..|nodes| - 1], query) + (if Accepts(last, query) then [last] else [])
  }

  /**
   * The context snippet for one node: up to 40 characters either side of the first
   * match, with "..." in front when the match is not at the start and "..." behind
   * when text was cut off after the window.
   */
  function Snippet(text: string, query: string): (r: string)
    ensures |r| <= |text| + 2 * |Ellipsis|
    ensures Contains(Lower(text), query) ==> Contains(Lower(r), query)
  {
    var index := IndexOf(Lower(text), query);
    if 0 <= index then
      SnippetAroundShowsMatch(text, query, index);
      SnippetAround(text, query, index)
    else
      SnippetAround(text, query, index)
  }

  /** The snippet for a match at `index` (-1 when there is none). */
  function SnippetAround(text: string, query: string, index: int): (r: string)
    ensures |r| <= |text| + 2 * |Ellipsis|
    ensures 0 <= index ==> |r| <= |query| + 2 * ContextRadius + 2 * |Ellipsis|
  {
    var start := if 0 < index - ContextRadius then index - ContextRadius else 0;
    var end := if |text| < index + |query| + ContextRadius then |text| else index + |query| + ContextRadius;
    var window := Substring(text, start, end);
    var front := if index > 0 then Ellipsis + window else window;
    if index + |query| + ContextRadius < |text| then front + Ellipsis else front
  }

  /** The results of the matched nodes of one document; a node whose CFI throws is skipped. */
  function DocumentResults(found: seq<TextNode>, query: string): (r: seq<SearchResult>)
    ensures |r| <= |found|
    ensures forall x :: x in r ==>
      && x.query == query
      && exists n :: n in found && n.cfi == Some(x.cfi) && x.context == Snippet(n.text, query)
  {
    if found == [] then []
    else
      var last := found[|found| - 1];
      assert forall n :: n in found[..|found| - 1] ==> n in found;
      DocumentResults(found[..|found| - 1], query)
      + (if last.cfi.Some? then [SearchResult(last.cfi.value, Snippet(last.text, query), query)] else [])
  }

  /**
   * The results of a whole search, spine item by spine item in the order their loads
   * complete; an item whose load fails (`None`) contributes nothing.
   */
  function SpineResults(loads: seq<Option<seq<TextNode>>>, query: string): (r: seq<SearchResult>)
    ensures forall x :: x in r ==> x.query == query
  {
    if loads == [] then []
    else
      var last := loads[|loads| - 1];
      SpineResults(loads[..|loads| - 1], query)
      + (if last.Some? then DocumentResults(Matching(last.value, query), query) else [])
  }

  /** The filter works node by node and keeps document order: it distributes over concatenation. */
  lemma {:induction false} MatchingAppend(xs: seq<TextNode>, ys: seq<TextNode>, query: string)
    ensures Matching(xs + ys, query) == Matching(xs, query) + Matching(ys, query)
  {
    if ys == [] {
      assert xs + ys == xs;
    } else {
      var init := ys[..|ys| - 1];
      assert (xs + ys)[..|xs + ys| - 1] == xs + init;
      MatchingAppend(xs, init, query);
    }
  }

  /**
   * `findTextNodesContaining`: walks the document's text nodes and collects those the
   * filter accepts.
   */
  method FindTextNodesContaining(nodes: seq<TextNode>, query: string) returns (textNodes: seq<TextNode>)
    ensures textNodes == Matching(nodes, query)
  {
    textNodes := [];
    var k := 0;
    while k < |nodes|
      invariant 0 <= k <= |nodes|
      invariant textNodes == Matching(nodes[..k], query)
    {
      assert nodes[..k + 1][..k] == nodes[..k];
      if Accepts(nodes[k], query) {
        textNodes := textNodes + [nodes[k]];
      }
      k := k + 1;
    }
    assert nodes[..k] == nodes;
  }

  /**
   * The body of one spine item's search: find the matching nodes and push one result
   * per node onto `results`.
   */
  method SearchDocument(nodes: seq<TextNode>, query: string, results: seq<SearchResult>)
    returns (results': seq<SearchResult>)
    ensures results' == results + DocumentResults(Matching(nodes, query), query)
  {
    var found := FindTextNodesContaining(nodes, query);
    results' := results;
    var k := 0;
    while k < |found|
      invariant 0 <= k <= |found|
      invariant results' == results + DocumentResults(found[..k], query)
    {
      assert found[..k + 1][..k] == found[..k];
      var node := found[k];
      ghost var pushed := if node.cfi.Some? then [SearchResult(node.cfi.value, Snippet(node.text, query), query)] else [];
      assert DocumentResults(found[..k + 1], query) == DocumentResults(found[..k], query) + pushed;
      if node.cfi.Some? {
        results' := results' + [SearchResult(node.cfi.value, Snippet(node.text, query), query)];
      }
      assert results' == results + DocumentResults(found[..k], query) + pushed;
      k := k + 1;
    }
    assert found[..k] == found;
  }

  // ---------------------------------------------------------------------------
  // Properties of the snippet
  // ---------------------------------------------------------------------------

  /** The snippet around an occurrence at `i`: the window with the ellipses it needs. */
  lemma SnippetAroundShape(text: string, query: string, i: int)
    requires OccursAt(Lower(text), query, i)
    ensures var start := if i < ContextRadius then 0 else i - ContextRadius;
      var end := if |text| < i + |query| + ContextRadius then |text| else i + |query| + ContextRadius;
      && 0 <= start <= i <= i + |query| <= end <= |text|
      && SnippetAround(text, query, i)
         == (if i > 0 then Ellipsis else "") + text[start..end]
            + (if i + |query| + ContextRadius < |text| then Ellipsis else "")
  {
  }

  /**
   * For a node the walker accepted, the snippet is the slice
   * [max(0, i - 40), min(|text|, i + |query| + 40)) around the first match `i`,
   * with "..." in front iff i > 0 and "..." behind iff text follows the slice.
   */
  lemma SnippetShape(text: string, query: string)
    requires Contains(Lower(text), query)
    ensures var i := IndexOf(Lower(text), query);
      var start := if i < ContextRadius then 0 else i - ContextRadius;
      var end := if |text| < i + |query| + ContextRadius then |text| else i + |query| + ContextRadius;
      && 0 <= start <= i <= i + |query| <= end <= |text|
      && Snippet(text, query)
         == (if i > 0 then Ellipsis else "") + text[start..end]
            + (if i + |query| + ContextRadius < |text| then Ellipsis else "")
  {
    SnippetAroundShape(text, query, IndexOf(Lower(text), query));
  }

  /** A snippet is never longer than the query, both margins and both ellipses. */
  lemma SnippetLength(text: string, query: string)
    requires Contains(Lower(text), query)
    ensures |Snippet(text, query)| <= |query| + 2 * ContextRadius + 2 * |Ellipsis|
  {
    SnippetShape(text, query);
  }

  /** An occurrence inside the middle part is an occurrence in the whole, lower-cased. */
  lemma OccursInMiddle(pre: string, mid: string, post: string, query: string, p: int)
    requires OccursAt(Lower(mid), query, p)
    ensures Contains(Lower(pre + mid + post), query)
  {
    var whole := Lower(pre + mid + post);
    forall k | 0 <= k < |query| ensures whole[|pre| + p + k] == query[k] {
      assert (pre + mid + post)[|pre| + p + k] == mid[p + k];
      assert Lower(mid)[p..p + |query|][k] == query[k];
    }
    assert |whole| == |pre| + |mid| + |post|;
    assert whole[|pre| + p..|pre| + p + |query|] == query;
    assert OccursAt(whole, query, |pre| + p);
  }

  /** An occurrence inside a window of the text is an occurrence in the lower-cased window. */
  lemma MatchInWindow(text: string, query: string, i: nat, start: nat, end: nat)
    requires OccursAt(Lower(text), query, i)
    requires start <= i && i + |query| <= end <= |text|
    ensures OccursAt(Lower(text[start..end]), query, i - start)
  {
    var window := Lower(text[start..end]);
    forall k | 0 <= k < |query| ensures window[i - start + k] == query[k] {
      assert Lower(text)[i..i + |query|][k] == query[k];
    }
    assert window[i - start..i - start + |query|] == query;
  }

  /** The snippet around an occurrence shows that occurrence. */
  lemma SnippetAroundShowsMatch(text: string, query: string, i: int)
    requires OccursAt(Lower(text), query, i)
    ensures Contains(Lower(SnippetAround(text, query, i)), query)
  {
    var start := if i < ContextRadius then 0 else i - ContextRadius;
    var end := if |text| < i + |query| + ContextRadius then |text| else i + |query| + ContextRadius;
    var pre: string := if i > 0 then Ellipsis else "";
    var post: string := if i + |query| + ContextRadius < |text| then Ellipsis else "";
    MatchInWindow(text, query, i, start, end);
    OccursInMiddle(pre, text[start..end], post, query, i - start);
    SnippetAroundShape(text, query, i);
  }

  /** A snippet shows the matched occurrence: its lower-cased text contains the query. */
  lemma SnippetShowsMatch(text: string, query: string)
    requires Contains(Lower(text), query)
    ensures Contains(Lower(Snippet(text, query)), query)
  {
    SnippetAroundShowsMatch(text, query, IndexOf(Lower(text), query));
  }

  /** Every search result's context shows the query it was found for. */
  lemma {:induction false} ResultsShowMatch(nodes: seq<TextNode>, query: string)
    ensures forall r :: r in DocumentResults(Matching(nodes, query), query) ==>
      r.query == query && Contains(Lower(r.context), query)
  {
    ResultsOfAcceptedShowMatch(Matching(nodes, query), query);
  }

  lemma {:induction false} ResultsOfAcceptedShowMatch(found: seq<TextNode>, query: string)
    requires forall n :: n in found ==> Accepts(n, query)
    ensures forall r :: r in DocumentResults(found, query) ==>
      r.query == query && Contains(Lower(r.context), query)
  {
    if found != [] {
      var last := found[|found| - 1];
      assert last in found;
      ResultsOfAcceptedShowMatch(found[..|found| - 1], query);
      SnippetShowsMatch(last.text, query);
    }
  }

  /** Every result of a whole search shows the query it was found for. */
  lemma {:induction false} SpineResultsShowMatch(loads: seq<Option<seq<TextNode>>>, query: string)
    ensures forall r :: r in SpineResults(loads, query) ==>
      r.query == query && Contains(Lower(r.context), query)
  {
    if loads != [] {
      var last := loads[|loads| - 1];
      SpineResultsShowMatch(loads[..|loads| - 1], query);
      if last.Some? {
        ResultsShowMatch(last.value, query);
      }
    }
  }

  /** The results of two runs of matched nodes are the results of each, in order. */
  lemma {:induction false} DocumentResultsAppend(xs: seq<TextNode>, ys: seq<TextNode>, query: string)
    ensures DocumentResults(xs + ys, query) == DocumentResults(xs, query) + DocumentResults(ys, query)
  {
    if ys == [] {
      assert xs + ys == xs;
    } else {
      var init := ys[..|ys| - 1];
      assert (xs + ys)[..|xs + ys| - 1] == xs + init;
      DocumentResultsAppend(xs, init, query);
    }
  }

  /**
   * A node whose CFI lookup throws is skipped: the nodes around it give the same
   * results as if it were absent, and a node with a CFI gives its own result in place.
   */
  lemma NodeResults(xs: seq<TextNode>, n: TextNode, ys: seq<TextNode>, query: string)
    ensures n.cfi.None? ==> DocumentResults(xs + [n] + ys, query) == DocumentResults(xs + ys, query)
    ensures n.cfi.Some? ==>
      DocumentResults(xs + [n] + ys, query) ==
      DocumentResults(xs, query) + [SearchResult(n.cfi.value, Snippet(n.text, query), query)] + DocumentResults(ys, query)
  {
    DocumentResultsAppend(xs + [n], ys, query);
    DocumentResultsAppend(xs, [n], query);
    DocumentResultsAppend(xs, ys, query);
    assert [n][..0] == [];
  }

  /** Each matched node with a CFI yields exactly one result, in walker order. */
  lemma {:induction false} OneResultPerNode(found: seq<TextNode>, query: string)
    requires forall n :: n in found ==> n.cfi.Some?
    ensures |DocumentResults(found, query)| == |found|
    ensures forall k :: 0 <= k < |found| ==>
      DocumentResults(found, query)[k] == SearchResult(found[k].cfi.value, Snippet(found[k].text, query), query)
  {
    if found != [] {
      var init := found[..|found| - 1];
      var last := found[|found| - 1];
      assert forall n :: n in init ==> n in found;
      assert last in found;
      OneResultPerNode(init, query);
      var r := DocumentResults(found, query);
      assert r == DocumentResults(init, query) + [SearchResult(last.cfi.value, Snippet(last.text, query), query)];
      forall k | 0 <= k < |found|
        ensures r[k] == SearchResult(found[k].cfi.value, Snippet(found[k].text, query), query)
      {
        if k < |init| {
          assert found[k] == init[k];
        }
      }
    }
  }
}
