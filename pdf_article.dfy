/**
 * The highlight-synchronisation logic of the PDF article view: the event
 * handlers that keep the annotation surface, the local highlight cache and
 * the remote store in step. Remote calls are recorded in a log; what the
 * store answers, the surface's fresh annotation ids and the generated
 * highlight ids are inputs of the handlers.
 */
module PdfArticle {
  import opened Base
  import opened Quote
  import opened Annotations
  import opened Surface
  import opened Geometry
  import opened HighlightCache

  /** The article attributes the view reads. */
  datatype Article = Article(id: string, readingProgressPercent: real, highlights: seq<Highlight>)

  /** The argument of `createHighlightMutation`, and with the merged ids that of `mergeHighlightMutation`. */
  datatype HighlightInput = HighlightInput(
    id: string,
    shortId: string,
    quote: string,
    articleId: string,
    prefix: string,
    suffix: string,
    patch: Annotation,
    highlightPositionPercent: real,
    highlightPositionAnchorIndex: nat)

  /** One call to the remote store. */
  datatype RemoteCall =
    | CreateHighlight(input: HighlightInput)
    | MergeHighlight(input: HighlightInput, overlapHighlightIdList: seq<string>)
    | DeleteHighlight(highlightId: string)
    | ArticleReadingProgress(articleId: string, readingProgressPercent: real, readingProgressAnchorIndex: int)

  /** `event.reason` of `annotations.willChange`. */
  datatype WillChangeReason = DeleteEnd | OtherReason

  /** `annotations.create` events the handler returns from at once. */
  predicate IgnoredCreate(created: Option<Annotation>)
  {
    created.None? || created.value.kind != HighlightKind || created.value.omnivore.Some?
  }

  /** The `customData.omnivoreHighlight` the create handler attaches. */
  function NewMeta(id: string, shortId: string, markupText: string, articleId: string): HighlightMeta
  {
    HighlightMeta(id, NormalizeQuote(markupText), shortId, "", "", articleId, None)
  }

  /** A surface id for a new annotation: unused on the drawn annotation's page and not the drawn one's. */
  predicate FreshKey(key: nat, drawn: Annotation, pages: Pages)
  {
    key != drawn.key && forall x :: x in AnnotationsOn(pages, drawn.pageIndex) ==> x.key != key
  }

  /**
   * The single highlight annotation the merge branch creates: the drawn
   * rects followed by the overlapping annotations' rects, with the bounding
   * box of their union (the rects are never empty there, see
   * `MergeRectsNonEmpty`).
   */
  function MergedAnnotation(drawn: Annotation, overlapping: seq<Annotation>, meta: HighlightMeta, key: nat): Annotation
  {
    var rects := drawn.rects + AllRects(overlapping);
    Annotation(key, HighlightKind, drawn.pageIndex, rects, if rects == [] then drawn.top else UnionTop(rects), Some(meta))
  }

  lemma MergeRectsNonEmpty(existing: seq<Annotation>, drawn: Annotation, overlap: OverlapTest)
    requires FindOverlapping(existing, drawn, overlap) != []
    ensures drawn.rects + AllRects(FindOverlapping(existing, drawn, overlap)) != []
  {
    var os := FindOverlapping(existing, drawn, overlap);
    FindOverlappingSpec(existing, drawn, overlap);
    AllRectsHas(os, 0);
    assert os[0] in os;
    assert RectsOverlap(os[0], drawn, overlap);
  }

  /**
   * When the drawn annotation sits at index `i` of its page and the page's
   * surface ids are distinct, tagging it with the new metadata and updating
   * puts the tagged annotation in its place and changes nothing else.
   */
  lemma TaggedReplacesDrawn(pages: Pages, drawn: Annotation, meta: HighlightMeta, i: nat)
    requires drawn.pageIndex < |pages| && i < |pages[drawn.pageIndex]| && pages[drawn.pageIndex][i] == drawn
    requires UniqueKeys(pages[drawn.pageIndex])
    ensures var tagged := drawn.(omnivore := Some(meta));
      Update(pages, tagged) == pages[drawn.pageIndex := pages[drawn.pageIndex][i := tagged]]
  {
    UpdateReplacesAt(pages, drawn.(omnivore := Some(meta)), i);
  }

  /**
   * The surface after the merge branch: the merged annotation is created,
   * then the overlapping annotations are deleted, then the drawn one.
   */
  function MergeOnSurface(pages: Pages, tagged: Annotation, merged: Annotation, overlapping: seq<Annotation>): Pages
  {
    var created := Create(Update(pages, tagged), merged);
    var withoutOverlapping := Delete(created, merged.pageIndex, KeysOf(overlapping));
    Delete(withoutOverlapping, tagged.pageIndex, {tagged.key})
  }

  /**
   * After the merge the drawn page holds the merged annotation, nothing
   * with the drawn or an overlapping annotation's id, and every other
   * annotation it held before; the other pages are untouched.
   */
  lemma MergeOnSurfaceEffect(pages: Pages, tagged: Annotation, merged: Annotation, overlapping: seq<Annotation>)
    requires WellPlaced(pages) && tagged.pageIndex < |pages|
    requires merged.pageIndex == tagged.pageIndex
    requires FreshKey(merged.key, tagged, pages)
    requires forall i :: 0 <= i < |overlapping| ==> overlapping[i] in pages[tagged.pageIndex]
    ensures var after := MergeOnSurface(pages, tagged, merged, overlapping);
      && |after| == |pages| && WellPlaced(after)
      && merged in after[tagged.pageIndex]
      && (forall x :: x in after[tagged.pageIndex] ==>
            x == merged || (x in pages[tagged.pageIndex] && x.key != tagged.key && x.key !in KeysOf(overlapping)))
      && (forall x :: x in pages[tagged.pageIndex] && x.key != tagged.key && x.key !in KeysOf(overlapping) ==>
            x in after[tagged.pageIndex])
      && (forall q :: 0 <= q < |pages| && q != tagged.pageIndex ==> after[q] == pages[q])
  {
    var p := tagged.pageIndex;
    var ks := KeysOf(overlapping);
    var updated := Update(pages, tagged);
    assert updated[p] == ReplaceByKey(pages[p], tagged);
    var created := Create(updated, merged);
    assert created[p] == ReplaceByKey(pages[p], tagged) + [merged];
    var after := MergeOnSurface(pages, tagged, merged, overlapping);
    assert after[p] == RemoveKeys(RemoveKeys(ReplaceByKey(pages[p], tagged) + [merged], ks), {tagged.key});
    assert merged.key !in ks by {
      forall i | 0 <= i < |overlapping| ensures overlapping[i].key != merged.key {
        assert overlapping[i] in pages[p];
      }
    }
    MergedPage(pages[p], tagged, merged, ks);
    assert WellPlaced(after) by {
      UpdateKeepsPlacement(pages, tagged);
      CreateKeepsPlacement(updated, merged);
      DeleteKeepsPlacement(created, p, ks);
      DeleteKeepsPlacement(Delete(created, p, ks), p, {tagged.key});
    }
  }

  /**
   * The drawn page through the merge: updating the drawn annotation,
   * appending the merged one and deleting the keys `ks` and then the drawn
   * key leaves the merged annotation and exactly the page's annotations
   * with neither key.
   */
  lemma MergedPage(page: seq<Annotation>, tagged: Annotation, merged: Annotation, ks: set<nat>)
    requires merged.key !in ks && merged.key != tagged.key
    ensures var final := RemoveKeys(RemoveKeys(ReplaceByKey(page, tagged) + [merged], ks), {tagged.key});
      && merged in final
      && (forall x :: x in final ==> x == merged || (x in page && x.key != tagged.key && x.key !in ks))
      && (forall x :: x in page && x.key != tagged.key && x.key !in ks ==> x in final)
  {
    var replaced := ReplaceByKey(page, tagged);
    var step := RemoveKeys(replaced + [merged], ks);
    var final := RemoveKeys(step, {tagged.key});
    RemoveKeysMembers(replaced + [merged], ks);
    RemoveKeysMembers(step, {tagged.key});
    assert merged in step by {
      assert (replaced + [merged])[|replaced|] == merged;
    }
    forall x | x in final
      ensures x == merged || (x in page && x.key != tagged.key && x.key !in ks)
    {
      assert x in replaced + [merged];
      if x != merged {
        var i :| 0 <= i < |replaced| && replaced[i] == x;
        assert x == page[i] || x == tagged;
      }
    }
    forall x | x in page && x.key != tagged.key && x.key !in ks
      ensures x in final
    {
      var i :| 0 <= i < |page| && page[i] == x;
      assert (replaced + [merged])[i] == x;
    }
  }

  /** The surface after the load-time replay: each accepted highlight's patch is created, in order. */
  function Replay(pages: Pages, hs: seq<Highlight>, accepted: seq<bool>): (r: Pages)
    requires |accepted| == |hs|
    ensures |r| == |pages|
    ensures WellPlaced(pages) ==> WellPlaced(r)
    decreases |hs|
  {
    if hs == [] then pages
    else
      var n := |hs| - 1;
      var before := Replay(pages, hs[..n], accepted[..n]);
      if accepted[n] then Create(before, hs[n].patch) else before
  }

  /** A highlight the surface accepts appears on its page whatever happens to the others. */
  lemma {:induction false} ReplayKeepsAccepted(pages: Pages, hs: seq<Highlight>, accepted: seq<bool>, i: nat)
    requires |accepted| == |hs| && i < |hs| && accepted[i] && hs[i].patch.pageIndex < |pages|
    ensures hs[i].patch in Replay(pages, hs, accepted)[hs[i].patch.pageIndex]
    decreases |hs|
  {
    var n := |hs| - 1;
    var p := hs[i].patch.pageIndex;
    var before := Replay(pages, hs[..n], accepted[..n]);
    if i < n {
      assert hs[..n][i] == hs[i] && accepted[..n][i];
      ReplayKeepsAccepted(pages, hs[..n], accepted[..n], i);
      if accepted[n] {
        ReplayKeepsOnCreate(before, hs[n].patch, p, hs[i].patch);
      }
    } else {
      assert Create(before, hs[n].patch)[p] == before[p] + [hs[n].patch];
    }
  }

  lemma ReplayKeepsOnCreate(pages: Pages, a: Annotation, p: nat, x: Annotation)
    requires p < |pages| && x in pages[p]
    ensures x in Create(pages, a)[p]
  {
  }

  /** The replay adds nothing but annotations of accepted highlights, and removes nothing. */
  lemma {:induction false} ReplayOnlyAccepted(pages: Pages, hs: seq<Highlight>, accepted: seq<bool>, p: nat, x: Annotation)
    requires |accepted| == |hs| && p < |pages|
    ensures x in pages[p] ==> x in Replay(pages, hs, accepted)[p]
    ensures x in Replay(pages, hs, accepted)[p] ==>
      x in pages[p] || exists i :: 0 <= i < |hs| && accepted[i] && hs[i].patch == x
    decreases |hs|
  {
    if hs != [] {
      var n := |hs| - 1;
      var before := Replay(pages, hs[..n], accepted[..n]);
      ReplayOnlyAccepted(pages, hs[..n], accepted[..n], p, x);
      if x in before[p] && !(x in pages[p]) {
        var i :| 0 <= i < n && accepted[..n][i] && hs[..n][i].patch == x;
        assert accepted[i] && hs[i].patch == x;
      }
    }
  }

  /** `annotationOmnivoreId(annotation) == id`. */
  predicate Carries(a: Annotation, id: string)
  {
    OmnivoreId(a) == Some(id)
  }

  /** The surface keys of the annotations among the first `n` of `s` that carry `id`. */
  function KeysCarrying(s: seq<Annotation>, id: string, n: nat): set<nat>
    requires n <= |s|
  {
    set i | 0 <= i < n && Carries(s[i], id) :: s[i].key
  }

  /** The number of annotations among the first `n` of `s` that carry `id`. */
  function CountCarrying(s: seq<Annotation>, id: string, n: nat): nat
    requires n <= |s|
  {
    if n == 0 then 0 else CountCarrying(s, id, n - 1) + if Carries(s[n - 1], id) then 1 else 0
  }

  /** The number of annotations on the first `n` pages that carry `id`. */
  function PagesCountCarrying(pages: Pages, id: string, n: nat): nat
    requires n <= |pages|
  {
    if n == 0 then 0 else PagesCountCarrying(pages, id, n - 1) + CountCarrying(pages[n - 1], id, |pages[n - 1]|)
  }

  /** The surface once every annotation carrying `id` has been deleted from its page. */
  function DeleteCarrying(pages: Pages, id: string): (r: Pages)
    ensures |r| == |pages|
  {
    seq(|pages|, p requires 0 <= p < |pages| => RemoveKeys(pages[p], KeysCarrying(pages[p], id, |pages[p]|)))
  }

  /** Page `p` with its annotations carrying `id` deleted, the other pages as they are. */
  function PageScanned(pages: Pages, p: nat, id: string): (r: Pages)
    requires p < |pages|
    ensures |r| == |pages|
  {
    pages[p := RemoveKeys(pages[p], KeysCarrying(pages[p], id, |pages[p]|))]
  }

  /** The number of annotations on page `p` that carry `id`. */
  function PageCount(pages: Pages, p: nat, id: string): nat
    requires p < |pages|
  {
    CountCarrying(pages[p], id, |pages[p]|)
  }

  /** The surface once the first `n` pages have been scanned, one page after the other. */
  function DeleteCarryingUpTo(pages: Pages, id: string, n: nat): (r: Pages)
    requires n <= |pages|
    ensures |r| == |pages|
  {
    if n == 0 then pages else PageScanned(DeleteCarryingUpTo(pages, id, n - 1), n - 1, id)
  }

  /** After `n` pages are scanned, those pages have lost their annotations carrying `id` and the others are untouched. */
  lemma {:induction false} DeleteCarryingUpToPages(pages: Pages, id: string, n: nat)
    requires n <= |pages|
    ensures forall p :: 0 <= p < n ==>
      DeleteCarryingUpTo(pages, id, n)[p] == RemoveKeys(pages[p], KeysCarrying(pages[p], id, |pages[p]|))
    ensures forall p :: n <= p < |pages| ==> DeleteCarryingUpTo(pages, id, n)[p] == pages[p]
  {
    if n > 0 {
      DeleteCarryingUpToPages(pages, id, n - 1);
    }
  }

  /** The next page to scan is still as it was, and scanning it adds its count to the running count. */
  lemma ScanStep(pages0: Pages, id: string, n: nat)
    requires n < |pages0|
    ensures DeleteCarryingUpTo(pages0, id, n)[n] == pages0[n]
    ensures PagesCountCarrying(pages0, id, n + 1) == PagesCountCarrying(pages0, id, n) + PageCount(DeleteCarryingUpTo(pages0, id, n), n, id)
  {
    DeleteCarryingUpToPages(pages0, id, n);
  }

  /** Scanning every page one after the other is `DeleteCarrying`. */
  lemma DeleteCarryingUpToAll(pages: Pages, id: string)
    ensures DeleteCarryingUpTo(pages, id, |pages|) == DeleteCarrying(pages, id)
  {
    DeleteCarryingUpToPages(pages, id, |pages|);
  }

  /** `n` delete calls for `id`. */
  function DeleteCalls(id: string, n: nat): (r: seq<RemoteCall>)
    ensures |r| == n && forall i :: 0 <= i < n ==> r[i] == DeleteHighlight(id)
  {
    seq(n, _ => DeleteHighlight(id))
  }

  /**
   * On one page: what is left carries no `id`, and when the surface ids on
   * the page are distinct, every annotation not carrying `id` is left.
   */
  lemma DeletePageCarrying(s: seq<Annotation>, id: string)
    ensures forall x :: x in RemoveKeys(s, KeysCarrying(s, id, |s|)) ==> x in s && !Carries(x, id)
    ensures UniqueKeys(s) ==> forall x :: x in s && !Carries(x, id) ==> x in RemoveKeys(s, KeysCarrying(s, id, |s|))
  {
    var ks := KeysCarrying(s, id, |s|);
    RemoveKeysMembers(s, ks);
    forall x | x in s && Carries(x, id) ensures x.key in ks {
      var i :| 0 <= i < |s| && s[i] == x;
    }
    if UniqueKeys(s) {
      forall x | x in s && !Carries(x, id) ensures x.key !in ks {
        var i :| 0 <= i < |s| && s[i] == x;
        forall j | 0 <= j < |s| && Carries(s[j], id) ensures s[j].key != x.key {
          assert j != i;
        }
      }
    }
  }

  /** The deletion by id keeps every annotation on its own page. */
  lemma DeleteCarryingPlacement(pages: Pages, id: string)
    requires WellPlaced(pages)
    ensures WellPlaced(DeleteCarrying(pages, id))
  {
    var r: seq<seq<Annotation>> := DeleteCarrying(pages, id);
    forall p: nat, i: nat | p < |r| && i < |r[p]| ensures r[p][i].pageIndex == p {
      RemoveKeysMembers(pages[p], KeysCarrying(pages[p], id, |pages[p]|));
      assert r[p][i] in r[p];
    }
  }

  /**
   * After the deletion by id no annotation carries the id; when the surface
   * ids on each page are distinct, every other annotation is kept.
   */
  lemma DeleteCarryingEffect(pages: Pages, id: string)
    requires WellPlaced(pages)
    ensures WellPlaced(DeleteCarrying(pages, id))
    ensures forall p, x :: 0 <= p < |pages| && x in DeleteCarrying(pages, id)[p] ==> x in pages[p] && !Carries(x, id)
    ensures forall p, x :: 0 <= p < |pages| && UniqueKeys(pages[p]) && x in pages[p] && !Carries(x, id) ==>
      x in DeleteCarrying(pages, id)[p]
  {
    var r: seq<seq<Annotation>> := DeleteCarrying(pages, id);
    forall p | 0 <= p < |pages|
      ensures forall x :: x in r[p] ==> x in pages[p] && !Carries(x, id)
      ensures UniqueKeys(pages[p]) ==> forall x :: x in pages[p] && !Carries(x, id) ==> x in r[p]
    {
      assert r[p] == RemoveKeys(pages[p], KeysCarrying(pages[p], id, |pages[p]|));
      DeletePageCarrying(pages[p], id);
    }
    forall p: nat, i: nat | p < |r| && i < |r[p]| ensures r[p][i].pageIndex == p {
      assert r[p][i] in r[p];
    }
  }

  lemma KeysCarryingExtend(s: seq<Annotation>, j: nat, id: string)
    requires j < |s|
    ensures KeysCarrying(s, id, j + 1) == KeysCarrying(s, id, j) + if Carries(s[j], id) then {s[j].key} else {}
  {
  }

  /** A page after the scan of its first `j` annotations: each one carrying `id` is deleted by its key, in order. */
  function RemovedUpTo(s: seq<Annotation>, id: string, j: nat): seq<Annotation>
    requires j <= |s|
  {
    if j == 0 then s
    else
      var before := RemovedUpTo(s, id, j - 1);
      if Carries(s[j - 1], id) then RemoveKeys(before, {s[j - 1].key}) else before
  }

  /** Deleting the carrying annotations one at a time is deleting all their keys at once. */
  lemma {:induction false} RemovedUpToKeys(s: seq<Annotation>, id: string, j: nat)
    requires j <= |s|
    ensures RemovedUpTo(s, id, j) == RemoveKeys(s, KeysCarrying(s, id, j))
  {
    if j == 0 {
      assert KeysCarrying(s, id, 0) == {};
      RemoveAbsentKeys(s, {});
    } else {
      RemovedUpToKeys(s, id, j - 1);
      var before := KeysCarrying(s, id, j - 1);
      KeysCarryingExtend(s, j - 1, id);
      if Carries(s[j - 1], id) {
        calc {
          RemovedUpTo(s, id, j);
          RemoveKeys(RemovedUpTo(s, id, j - 1), {s[j - 1].key});
          RemoveKeys(RemoveKeys(s, before), {s[j - 1].key});
          { RemoveKeysTwice(s, before, {s[j - 1].key}); }
          RemoveKeys(s, before + {s[j - 1].key});
        }
      } else {
        assert KeysCarrying(s, id, j) == before;
      }
    }
  }

  lemma DeleteCallsExtend(id: string, n: nat)
    ensures DeleteCalls(id, n) + [DeleteHighlight(id)] == DeleteCalls(id, n + 1)
  {
  }

  lemma {:induction false} DeleteCallsAdd(id: string, m: nat, n: nat)
    ensures DeleteCalls(id, m) + DeleteCalls(id, n) == DeleteCalls(id, m + n)
  {
  }

  /** The overlap query only returns annotations of the page it was asked about. */
  lemma OverlappingOnPage(pages: Pages, drawn: Annotation, overlap: OverlapTest)
    ensures var os := FindOverlapping(AnnotationsOn(pages, drawn.pageIndex), drawn, overlap);
      forall i :: 0 <= i < |os| ==> os[i] in AnnotationsOn(pages, drawn.pageIndex)
  {
    var existing := AnnotationsOn(pages, drawn.pageIndex);
    var os := FindOverlapping(existing, drawn, overlap);
    FindOverlappingSpec(existing, drawn, overlap);
    forall i | 0 <= i < |os| ensures os[i] in existing {
      assert os[i] in os;
    }
  }

  /** The merge keeps every annotation on its own page. */
  lemma MergeKeepsPlacement(pages: Pages, tagged: Annotation, merged: Annotation, overlapping: seq<Annotation>)
    requires WellPlaced(pages) && merged.pageIndex == tagged.pageIndex
    ensures WellPlaced(MergeOnSurface(pages, tagged, merged, overlapping))
  {
    var updated := Update(pages, tagged);
    var created := Create(updated, merged);
    UpdateKeepsPlacement(pages, tagged);
    CreateKeepsPlacement(updated, merged);
    DeleteKeepsPlacement(created, merged.pageIndex, KeysOf(overlapping));
    DeleteKeepsPlacement(Delete(created, merged.pageIndex, KeysOf(overlapping)), tagged.pageIndex, {tagged.key});
  }

  /**
   * The PDF article view: the annotations on the surface's pages, the
   * highlight cache (`highlightsRef.current`), the log of remote calls and
   * the key that forces the notebook to reload (a counter here).
   */
  class PdfArticleContainer {
    const article: Article
    /** `pageInfoForIndex(i)?.height`; the document has `|heights|` pages. */
    const heights: seq<Option<real>>
    var pages: Pages
    var highlights: seq<Highlight>
    var calls: seq<RemoteCall>
    var notebookKey: nat
    /** The highlight the note dialog is open on (`noteTarget`), and its page (`noteTargetPageIndex`). */
    var noteTarget: Option<HighlightMeta>
    var noteTargetPageIndex: Option<nat>

    ghost predicate Valid()
      reads this`pages
    {
      |pages| == |heights| && WellPlaced(pages)
    }

    /** The surface right after load: one empty list of annotations per page. */
    constructor (article: Article, heights: seq<Option<real>>)
      ensures Valid()
      ensures this.article == article && this.heights == heights
      ensures |pages| == |heights| && forall p :: 0 <= p < |pages| ==> pages[p] == []
      ensures highlights == [] && calls == [] && notebookKey == 0
      ensures noteTarget == None && noteTargetPageIndex == None
    {
      this.article := article;
      this.heights := heights;
      pages := seq(|heights|, _ => []);
      highlights := [];
      calls := [];
      notebookKey := 0;
      noteTarget := None;
      noteTargetPageIndex := None;
    }

    /**
     * The load step: the cache becomes the article's highlights and each
     * highlight's patch is created on the surface; `accepted[i]` says
     * whether the surface accepted the i-th one, and a refusal is skipped.
     */
    method LoadHighlights(accepted: seq<bool>)
      requires Valid() && |accepted| == |article.highlights|
      modifies this`pages, this`highlights
      ensures Valid()
      ensures highlights == article.highlights
      ensures pages == Replay(old(pages), article.highlights, accepted)
    {
      highlights := article.highlights;
      ghost var pages0 := pages;
      for i := 0 to |article.highlights|
        invariant highlights == article.highlights
        invariant pages == Replay(pages0, article.highlights[..i], accepted[..i])
      {
        var annotation := article.highlights[i].patch;
        if accepted[i] {
          pages := Create(pages, annotation);
        }
        assert article.highlights[..i + 1][..i] == article.highlights[..i];
        assert accepted[..i + 1][..i] == accepted[..i];
      }
      assert article.highlights[..|article.highlights|] == article.highlights;
      assert accepted[..|accepted|] == accepted;
    }

    /** `positionPercentForAnnotation`: the two accumulating loops compute `Position`. */
    method PositionPercent(annotation: Annotation) returns (r: real)
      requires TotalHeight(heights) > 0.0
      ensures r == Position(heights, annotation.pageIndex, annotation.top)
    {
      var totalSize := 0.0;
      var sizeBefore := 0.0;
      for idx := 0 to annotation.pageIndex
        invariant sizeBefore == SumHeights(heights, idx)
      {
        sizeBefore := sizeBefore + HeightAt(heights, idx);
      }
      for idx := 0 to |heights|
        invariant totalSize == SumHeights(heights, idx)
      {
        totalSize := totalSize + HeightAt(heights, idx);
      }
      r := (sizeBefore + annotation.top) / totalSize;
    }

    /**
     * `annotations.create`. An event without a highlight annotation, or
     * whose annotation already carries highlight metadata, changes nothing.
     * Otherwise the drawn annotation is tagged with the new metadata; with
     * no overlap one create call is issued, with overlap the surface is
     * merged and one merge call is issued. In both cases the patch sent is
     * the tagged drawn annotation, and the store's answer `result`, when
     * there is one, is appended to the cache and nothing is removed from it.
     */
    method OnAnnotationsCreate(created: Option<Annotation>, overlap: OverlapTest, id: string, shortId: string,
                               markupText: string, mergedKey: nat, result: Option<Highlight>)
      requires Valid() && TotalHeight(heights) > 0.0
      modifies this`pages, this`highlights, this`calls
      ensures Valid()
      ensures IgnoredCreate(created) ==> pages == old(pages) && highlights == old(highlights) && calls == old(calls)
      ensures !IgnoredCreate(created) ==>
        var drawn := created.value;
        var meta := NewMeta(id, shortId, markupText, article.id);
        var tagged := drawn.(omnivore := Some(meta));
        var overlapping := FindOverlapping(AnnotationsOn(old(pages), drawn.pageIndex), drawn, overlap);
        && highlights == old(highlights) + OptionToSeq(result)
        && (overlapping == [] ==>
              && pages == Update(old(pages), tagged)
              && calls == old(calls) + [CreateHighlight(HighlightInput(meta.id, meta.shortId, meta.quote, article.id, "", "", tagged,
                                          Percent(Position(heights, tagged.pageIndex, tagged.top)), tagged.pageIndex))])
        && (overlapping != [] ==>
              var merged := MergedAnnotation(drawn, overlapping, meta, mergedKey);
              && pages == MergeOnSurface(old(pages), tagged, merged, overlapping)
              && calls == old(calls) + [MergeHighlight(HighlightInput(meta.id, meta.shortId, meta.quote, article.id, "", "", tagged,
                                          Percent(Position(heights, merged.pageIndex, merged.top)), merged.pageIndex),
                                        MergedIds(overlapping))])
    {
      if IgnoredCreate(created) {
        return;
      }
      var highlightAnnotation := created.value;
      var overlapping := FindOverlapping(AnnotationsOn(pages, highlightAnnotation.pageIndex), highlightAnnotation, overlap);
      var meta := NewMeta(id, shortId, markupText, article.id);
      var annotation := highlightAnnotation.(omnivore := Some(meta));
      if |overlapping| == 0 {
        CreateBranch(annotation, meta);
      } else {
        var merged := MergedAnnotation(highlightAnnotation, overlapping, meta, mergedKey);
        MergeBranch(annotation, merged, meta, overlapping);
      }
      if result.Some? {
        highlights := highlights + [result.value];
      }
    }

    /** The branch without overlap: the drawn annotation is updated to the tagged one and a create call is issued. */
    method CreateBranch(tagged: Annotation, meta: HighlightMeta)
      requires Valid() && TotalHeight(heights) > 0.0
      modifies this`pages, this`calls
      ensures Valid()
      ensures pages == Update(old(pages), tagged)
      ensures calls == old(calls) + [CreateHighlight(HighlightInput(meta.id, meta.shortId, meta.quote, article.id, "", "", tagged,
                                       Percent(Position(heights, tagged.pageIndex, tagged.top)), tagged.pageIndex))]
    {
      UpdateKeepsPlacement(pages, tagged);
      pages := Update(pages, tagged);
      var positionPercent := PositionPercent(tagged);
      calls := calls + [CreateHighlight(HighlightInput(meta.id, meta.shortId, meta.quote, article.id, "", "", tagged,
                                                       Percent(positionPercent), tagged.pageIndex))];
    }

    /**
     * The merge branch: the drawn annotation is updated to the tagged one,
     * the merged annotation is created, the overlapping ones and then the
     * drawn one are deleted, and a merge call is issued with the tagged
     * drawn annotation as patch and the merged annotation's position.
     */
    method MergeBranch(tagged: Annotation, merged: Annotation, meta: HighlightMeta, overlapping: seq<Annotation>)
      requires Valid() && TotalHeight(heights) > 0.0 && merged.pageIndex == tagged.pageIndex
      modifies this`pages, this`calls
      ensures Valid()
      ensures pages == MergeOnSurface(old(pages), tagged, merged, overlapping)
      ensures calls == old(calls) + [MergeHighlight(HighlightInput(meta.id, meta.shortId, meta.quote, article.id, "", "", tagged,
                                       Percent(Position(heights, merged.pageIndex, merged.top)), merged.pageIndex),
                                     MergedIds(overlapping))]
    {
      MergeKeepsPlacement(pages, tagged, merged, overlapping);
      pages := Update(pages, tagged);
      pages := Create(pages, merged);
      pages := Delete(pages, merged.pageIndex, KeysOf(overlapping));
      pages := Delete(pages, tagged.pageIndex, {tagged.key});
      var mergedIds := MergedIds(overlapping);
      var positionPercent := PositionPercent(merged);
      calls := calls + [MergeHighlight(HighlightInput(meta.id, meta.shortId, meta.quote, article.id, "", "", tagged,
                                                      Percent(positionPercent), merged.pageIndex), mergedIds)];
    }

    /**
     * `viewState.currentPageIndex.change`: a progress call with the clamped
     * percent and the page as anchor, only when the percent is above the
     * article's progress as loaded.
     */
    method OnPageChange(pageIndex: int)
      requires Valid() && |pages| > 0
      modifies this`calls
      ensures calls == old(calls) +
        match ProgressUpdate(article.readingProgressPercent, pageIndex, |pages|)
        case None => []
        case Some(percent) => [ArticleReadingProgress(article.id, percent, pageIndex)]
    {
      var percent := ProgressPercent(pageIndex, |pages|);
      if percent <= article.readingProgressPercent {
        return;
      }
      calls := calls + [ArticleReadingProgress(article.id, percent, pageIndex)];
    }

    /**
     * `annotations.willChange`: for a DELETE_END event whose first
     * annotation carries a highlight id, one delete call; the cache is left
     * as it is.
     */
    method OnAnnotationsWillChange(first: Option<Annotation>, reason: WillChangeReason)
      modifies this`calls
      ensures calls == old(calls) +
        if first.Some? && reason == DeleteEnd && OmnivoreId(first.value).Some?
        then [DeleteHighlight(OmnivoreId(first.value).value)] else []
    {
      if first.None? || reason != DeleteEnd {
        return;
      }
      var annotationId := OmnivoreId(first.value);
      if annotationId.Some? {
        calls := calls + [DeleteHighlight(annotationId.value)];
      }
    }

    /**
     * The tooltip's Remove item: the annotation is deleted from the surface
     * and, once that succeeded (`surfaceDeleted`), a delete call is issued
     * when it carries a highlight id; the cache is left as it is.
     */
    method OnTooltipRemove(annotation: Annotation, surfaceDeleted: bool)
      requires Valid()
      modifies this`pages, this`calls
      ensures Valid()
      ensures pages == if surfaceDeleted then Delete(old(pages), annotation.pageIndex, {annotation.key}) else old(pages)
      ensures calls == old(calls) +
        if surfaceDeleted && OmnivoreId(annotation).Some? then [DeleteHighlight(OmnivoreId(annotation).value)] else []
    {
      if !surfaceDeleted {
        return;
      }
      DeleteKeepsPlacement(pages, annotation.pageIndex, {annotation.key});
      pages := Delete(pages, annotation.pageIndex, {annotation.key});
      var annotationId := OmnivoreId(annotation);
      if annotationId.Some? {
        calls := calls + [DeleteHighlight(annotationId.value)];
      }
    }

    /**
     * The `deleteHighlightbyId` listener: every page is scanned, and for
     * each annotation carrying the id the annotation is deleted from the
     * surface, one delete call is issued, the first cache record with the
     * id is removed and the notebook key changes.
     */
    method OnDeleteHighlightById(annotationId: string)
      requires Valid()
      modifies this`pages, this`calls, this`highlights, this`notebookKey
      ensures Valid()
      ensures pages == DeleteCarrying(old(pages), annotationId)
      ensures calls == old(calls) + DeleteCalls(annotationId, PagesCountCarrying(old(pages), annotationId, |old(pages)|))
      ensures highlights == RemoveFirstN(old(highlights), annotationId, PagesCountCarrying(old(pages), annotationId, |old(pages)|))
      ensures notebookKey == old(notebookKey) + PagesCountCarrying(old(pages), annotationId, |old(pages)|)
    {
      ghost var pages0, calls0, highlights0, key0 := pages, calls, highlights, notebookKey;
      ghost var done := 0;
      var pageIdx := 0;
      while pageIdx < |pages|
        invariant 0 <= pageIdx <= |pages| == |pages0|
        invariant pages == DeleteCarryingUpTo(pages0, annotationId, pageIdx)
        invariant done == PagesCountCarrying(pages0, annotationId, pageIdx)
        invariant calls == calls0 + DeleteCalls(annotationId, done)
        invariant highlights == RemoveFirstN(highlights0, annotationId, done)
        invariant notebookKey == key0 + done
      {
        ghost var here := PageCount(pages, pageIdx, annotationId);
        ScanStep(pages0, annotationId, pageIdx);
        DeleteCallsAdd(annotationId, done, here);
        RemoveFirstNAdd(highlights0, annotationId, done, here);
        ScanPage(pageIdx, annotationId);
        done := done + here;
        pageIdx := pageIdx + 1;
      }
      DeleteCarryingUpToAll(pages0, annotationId);
      DeleteCarryingPlacement(pages0, annotationId);
    }

    /**
     * The inner loop of the `deleteHighlightbyId` listener over the
     * annotations `getAnnotations(pageIdx)` returned: each one carrying the
     * id is deleted, with its delete call, cache removal and key change.
     */
    method ScanPage(pageIdx: nat, annotationId: string)
      requires pageIdx < |pages|
      requires forall i :: 0 <= i < |pages[pageIdx]| ==> pages[pageIdx][i].pageIndex == pageIdx
      modifies this`pages, this`calls, this`highlights, this`notebookKey
      ensures pages == PageScanned(old(pages), pageIdx, annotationId)
      ensures calls == old(calls) + DeleteCalls(annotationId, PageCount(old(pages), pageIdx, annotationId))
      ensures highlights == RemoveFirstN(old(highlights), annotationId, PageCount(old(pages), pageIdx, annotationId))
      ensures notebookKey == old(notebookKey) + PageCount(old(pages), pageIdx, annotationId)
    {
      ghost var pages0, calls0, highlights0, key0 := pages, calls, highlights, notebookKey;
      var annotations := pages[pageIdx];
      var annIdx := 0;
      assert pages0[pageIdx := annotations] == pages0;
      while annIdx < |annotations|
        invariant 0 <= annIdx <= |annotations|
        invariant pages == pages0[pageIdx := RemovedUpTo(annotations, annotationId, annIdx)]
        invariant calls == calls0 + DeleteCalls(annotationId, CountCarrying(annotations, annotationId, annIdx))
        invariant highlights == RemoveFirstN(highlights0, annotationId, CountCarrying(annotations, annotationId, annIdx))
        invariant notebookKey == key0 + CountCarrying(annotations, annotationId, annIdx)
      {
        var annotation := annotations[annIdx];
        var storedId := OmnivoreId(annotation);
        if storedId == Some(annotationId) {
          DeleteCallsExtend(annotationId, CountCarrying(annotations, annotationId, annIdx));
          pages := Delete(pages, annotation.pageIndex, {annotation.key});
          calls := calls + [DeleteHighlight(annotationId)];
          highlights := RemoveFirst(highlights, annotationId);
          notebookKey := notebookKey + 1;
        }
        annIdx := annIdx + 1;
      }
      RemovedUpToKeys(annotations, annotationId, |annotations|);
    }

    /**
     * The tooltip's Note item: for an annotation whose highlight metadata has
     * a non-empty short id, the note dialog opens on that metadata with the
     * note `SavedNote` picks, on the annotation's page; otherwise nothing
     * changes.
     */
    method OnTooltipNote(annotation: Annotation)
      modifies this`noteTarget, this`noteTargetPageIndex
      ensures if annotation.omnivore.Some? && annotation.omnivore.value.shortId != "" then
          && noteTarget == Some(annotation.omnivore.value.(annotation := SavedNote(highlights, annotation.omnivore.value)))
          && noteTargetPageIndex == Some(annotation.pageIndex)
        else noteTarget == old(noteTarget) && noteTargetPageIndex == old(noteTargetPageIndex)
    {
      if annotation.omnivore.Some? && annotation.omnivore.value.shortId != "" {
        var data := annotation.omnivore.value;
        data := data.(annotation := SavedNote(highlights, data));
        noteTargetPageIndex := Some(annotation.pageIndex);
        noteTarget := Some(data);
      }
    }

    /** The note dialog's `onUpdate`: the cache becomes `WithNote` of the record's id and note. */
    method OnNoteUpdate(highlight: Highlight)
      modifies this`highlights
      ensures highlights == WithNote(old(highlights), highlight.id, highlight.annotation)
    {
      var savedIndex := FirstIndex(highlights, highlight.id);
      if savedIndex.Some? {
        var savedHighlight := highlights[savedIndex.value];
        highlights := highlights[savedIndex.value := savedHighlight.(annotation := highlight.annotation)];
      }
    }
  }
}
