/**
 * The part of an annotation that the highlight logic reads or writes, the
 * identity extraction `annotationOmnivoreId` and the overlap query
 * `findOverlappingHighlights`.
 */
module Annotations {
  import opened Base

  /** A rectangle in page coordinates, as the annotation surface reports it. */
  datatype Rect = Rect(left: real, top: real, width: real, height: real)

  /**
   * The `customData.omnivoreHighlight` object a highlight annotation
   * carries; `annotation` is the optional free-text note it may hold.
   */
  datatype HighlightMeta = HighlightMeta(
    id: string,
    quote: string,
    shortId: string,
    prefix: string,
    suffix: string,
    articleId: string,
    annotation: Option<string>)

  /** Whether the annotation is an instance of the surface's highlight annotation class. */
  datatype AnnotationKind = HighlightKind | OtherKind

  /**
   * An annotation on the surface. `key` is the surface's own annotation id
   * (what its `update` and `delete` locate the annotation by), `top` is
   * `boundingBox.top`, and `omnivore` is `customData.omnivoreHighlight`
   * (present or absent).
   */
  datatype Annotation = Annotation(
    key: nat,
    kind: AnnotationKind,
    pageIndex: nat,
    rects: seq<Rect>,
    top: real,
    omnivore: Option<HighlightMeta>)

  /** The foreign `Rect.isRectOverlapping` test, left abstract. */
  type OverlapTest = (Rect, Rect) -> bool

  /**
   * `annotationOmnivoreId`: the highlight id carried by the annotation,
   * present only when the metadata exists and its id is a non-empty
   * (truthy) string.
   */
  function OmnivoreId(a: Annotation): (r: Option<string>)
    ensures r.Some? <==> a.omnivore.Some? && a.omnivore.value.id != ""
    ensures r.Some? ==> r.value == a.omnivore.value.id
  {
    if a.omnivore.Some? && a.omnivore.value.id != "" then Some(a.omnivore.value.id) else None
  }

  /** Attaching metadata with a non-empty id makes exactly that id readable again. */
  lemma OmnivoreIdOfTagged(a: Annotation, meta: HighlightMeta)
    requires meta.id != ""
    ensures OmnivoreId(a.(omnivore := Some(meta))) == Some(meta.id)
  {
  }

  /** A highlight annotation carrying highlight metadata (the first `filter`). */
  predicate IsOmnivoreHighlight(a: Annotation)
  {
    a.kind == HighlightKind && a.omnivore.Some?
  }

  /** Some rect of `a` overlaps some rect of `drawn` (the two nested `some` calls). */
  predicate RectsOverlap(a: Annotation, drawn: Annotation, overlap: OverlapTest)
  {
    exists i, j :: 0 <= i < |a.rects| && 0 <= j < |drawn.rects| && overlap(a.rects[i], drawn.rects[j])
  }

  /**
   * `findOverlappingHighlights`: of the annotations on the drawn
   * annotation's page, the omnivore highlights with a rect overlapping one
   * of the drawn rects, in their original order. The two successive
   * `filter` calls are one filter by the conjunction.
   */
  function FindOverlapping(existing: seq<Annotation>, drawn: Annotation, overlap: OverlapTest): seq<Annotation>
  {
    if existing == [] then []
    else if IsOmnivoreHighlight(existing[0]) && RectsOverlap(existing[0], drawn, overlap) then
      [existing[0]] + FindOverlapping(existing[1..], drawn, overlap)
    else FindOverlapping(existing[1..], drawn, overlap)
  }

  /**
   * The overlap query keeps the original order, returns only overlapping
   * omnivore highlights, and misses none of them.
   */
  lemma {:induction false} FindOverlappingSpec(existing: seq<Annotation>, drawn: Annotation, overlap: OverlapTest)
    ensures IsSubsequence(FindOverlapping(existing, drawn, overlap), existing)
    ensures forall x :: x in FindOverlapping(existing, drawn, overlap) <==>
      x in existing && IsOmnivoreHighlight(x) && RectsOverlap(x, drawn, overlap)
  {
    if existing != [] {
      FindOverlappingSpec(existing[1..], drawn, overlap);
      var rest := FindOverlapping(existing[1..], drawn, overlap);
      assert existing == [existing[0]] + existing[1..];
      if IsOmnivoreHighlight(existing[0]) && RectsOverlap(existing[0], drawn, overlap) {
        assert ([existing[0]] + rest)[1..] == rest;
      }
    }
  }

  /** `flatMap` of the rects of each annotation, in order. */
  function AllRects(os: seq<Annotation>): seq<Rect>
  {
    if os == [] then [] else os[0].rects + AllRects(os[1..])
  }

  /** The rects of the `k`-th annotation all appear in the flattened list, which is at least as long. */
  lemma {:induction false} AllRectsHas(os: seq<Annotation>, k: nat)
    requires k < |os|
    ensures |os[k].rects| <= |AllRects(os)|
    ensures forall i :: 0 <= i < |os[k].rects| ==> os[k].rects[i] in AllRects(os)
  {
    if k > 0 {
      AllRectsHas(os[1..], k - 1);
      assert os[1..][k - 1] == os[k];
    }
  }

  /** Every rect of every annotation is in the flattened list. */
  lemma AllRectsContains(os: seq<Annotation>)
    ensures forall k, i :: 0 <= k < |os| && 0 <= i < |os[k].rects| ==> os[k].rects[i] in AllRects(os)
  {
    forall k, i | 0 <= k < |os| && 0 <= i < |os[k].rects| ensures os[k].rects[i] in AllRects(os) {
      AllRectsHas(os, k);
    }
  }

  /** The top of `Rect.union(rects)`: the smallest top among the rects. */
  function UnionTop(rects: seq<Rect>): real
    requires rects != []
  {
    if |rects| == 1 then rects[0].top
    else
      var rest := UnionTop(rects[1..]);
      if rects[0].top <= rest then rects[0].top else rest
  }

  /** The top of the union is a lower bound of the tops that one of the rects attains. */
  lemma {:induction false} UnionTopIsMin(rects: seq<Rect>)
    requires rects != []
    ensures forall i :: 0 <= i < |rects| ==> UnionTop(rects) <= rects[i].top
    ensures exists i :: 0 <= i < |rects| && UnionTop(rects) == rects[i].top
  {
    if |rects| > 1 {
      UnionTopIsMin(rects[1..]);
      var rest := UnionTop(rects[1..]);
      var j :| 0 <= j < |rects[1..]| && rest == rects[1..][j].top;
      if rects[0].top <= rest {
        assert UnionTop(rects) == rects[0].top;
      } else {
        assert UnionTop(rects) == rects[j + 1].top;
      }
      forall i | 0 <= i < |rects| ensures UnionTop(rects) <= rects[i].top {
        if i > 0 {
          assert rects[i] == rects[1..][i - 1];
        }
      }
    } else {
      assert UnionTop(rects) == rects[0].top;
    }
  }

  /** The ids `overlapping.map(ha => ha.customData.omnivoreHighlight.id)`, in order. */
  function MergedIds(os: seq<Annotation>): seq<string>
  {
    if os == [] then []
    else [if os[0].omnivore.Some? then os[0].omnivore.value.id else ""] + MergedIds(os[1..])
  }

  /** One id per overlapping annotation, position by position. */
  lemma {:induction false} MergedIdsSpec(os: seq<Annotation>)
    ensures |MergedIds(os)| == |os|
    ensures forall i :: 0 <= i < |os| && os[i].omnivore.Some? ==> MergedIds(os)[i] == os[i].omnivore.value.id
  {
    if os != [] {
      MergedIdsSpec(os[1..]);
      forall i | 0 <= i < |os| && os[i].omnivore.Some? ensures MergedIds(os)[i] == os[i].omnivore.value.id {
        if i > 0 {
          assert os[i] == os[1..][i - 1];
        }
      }
    }
  }

  /** The surface keys of a list of annotations. */
  function KeysOf(os: seq<Annotation>): set<nat>
  {
    set i | 0 <= i < |os| :: os[i].key
  }
}
