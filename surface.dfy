/**
 * The annotation surface as the highlight logic sees it: the list of
 * annotations on each page, and the surface's `create`, `update` and
 * `delete` commands.
 */
module Surface {
  import opened Base
  import opened Annotations

  /** `pages[p]` is what `getAnnotations(p)` returns. */
  type Pages = seq<seq<Annotation>>

  /** `getAnnotations(p)`; a page that does not exist has no annotations. */
  function AnnotationsOn(pages: Pages, p: nat): seq<Annotation>
  {
    if p < |pages| then pages[p] else []
  }

  /** Every annotation sits on the page its `pageIndex` names. */
  predicate WellPlaced(pages: Pages)
  {
    forall p, i :: 0 <= p < |pages| && 0 <= i < |pages[p]| ==> pages[p][i].pageIndex == p
  }

  /** No two annotations on one page share a surface key. */
  predicate UniqueKeys(s: seq<Annotation>)
  {
    forall i, j :: 0 <= i < j < |s| ==> s[i].key != s[j].key
  }

  /** Replace every annotation whose key is `a.key` by `a`. */
  function ReplaceByKey(s: seq<Annotation>, a: Annotation): (r: seq<Annotation>)
    ensures |r| == |s|
  {
    seq(|s|, i requires 0 <= i < |s| => if s[i].key == a.key then a else s[i])
  }

  /** Drop the annotations whose key is in `ks`, keeping the others in order. */
  function RemoveKeys(s: seq<Annotation>, ks: set<nat>): seq<Annotation>
  {
    if s == [] then []
    else if s[0].key in ks then RemoveKeys(s[1..], ks)
    else [s[0]] + RemoveKeys(s[1..], ks)
  }

  /**
   * What is left is a subsequence of `s`; it holds an annotation exactly
   * when `s` does and its key is not in `ks`.
   */
  lemma {:induction false} RemoveKeysMembers(s: seq<Annotation>, ks: set<nat>)
    ensures IsSubsequence(RemoveKeys(s, ks), s)
    ensures forall x :: x in RemoveKeys(s, ks) <==> x in s && x.key !in ks
  {
    if s != [] {
      RemoveKeysMembers(s[1..], ks);
      assert s == [s[0]] + s[1..];
      if s[0].key !in ks {
        assert ([s[0]] + RemoveKeys(s[1..], ks))[1..] == RemoveKeys(s[1..], ks);
      }
    }
  }

  /** Removing two key sets one after the other is removing their union. */
  lemma {:induction false} RemoveKeysTwice(s: seq<Annotation>, a: set<nat>, b: set<nat>)
    ensures RemoveKeys(RemoveKeys(s, a), b) == RemoveKeys(s, a + b)
  {
    if s != [] {
      RemoveKeysTwice(s[1..], a, b);
    }
  }

  /** Removing keys that no annotation has changes nothing. */
  lemma {:induction false} RemoveAbsentKeys(s: seq<Annotation>, ks: set<nat>)
    requires forall i :: 0 <= i < |s| ==> s[i].key !in ks
    ensures RemoveKeys(s, ks) == s
  {
    if s != [] {
      RemoveAbsentKeys(s[1..], ks);
    }
  }

  /** `instance.update(a)`: the annotation with `a`'s key on `a`'s page becomes `a`. */
  function Update(pages: Pages, a: Annotation): (r: Pages)
    ensures |r| == |pages|
  {
    if a.pageIndex < |pages| then pages[a.pageIndex := ReplaceByKey(pages[a.pageIndex], a)] else pages
  }

  /** `instance.create(a)`: `a` is added to the end of its page's list. */
  function Create(pages: Pages, a: Annotation): (r: Pages)
    ensures |r| == |pages|
  {
    if a.pageIndex < |pages| then pages[a.pageIndex := pages[a.pageIndex] + [a]] else pages
  }

  /** `instance.delete(...)` of the annotations with keys `ks` on page `p`. */
  function Delete(pages: Pages, p: nat, ks: set<nat>): (r: Pages)
    ensures |r| == |pages|
  {
    if p < |pages| then pages[p := RemoveKeys(pages[p], ks)] else pages
  }

  /**
   * On a page with distinct surface ids, updating to an annotation with the
   * key of the one at index `i` puts it at index `i` and leaves the rest of
   * the surface as it was.
   */
  lemma UpdateReplacesAt(pages: Pages, a: Annotation, i: nat)
    requires a.pageIndex < |pages| && i < |pages[a.pageIndex]|
    requires UniqueKeys(pages[a.pageIndex]) && pages[a.pageIndex][i].key == a.key
    ensures Update(pages, a) == pages[a.pageIndex := pages[a.pageIndex][i := a]]
  {
    var page := pages[a.pageIndex];
    assert ReplaceByKey(page, a) == page[i := a] by {
      forall j | 0 <= j < |page| ensures ReplaceByKey(page, a)[j] == page[i := a][j] {
        if j < i {
          assert page[j].key != page[i].key;
        } else if j > i {
          assert page[i].key != page[j].key;
        }
      }
    }
  }

  lemma UpdateKeepsPlacement(pages: Pages, a: Annotation)
    requires WellPlaced(pages)
    ensures WellPlaced(Update(pages, a))
  {
  }

  lemma CreateKeepsPlacement(pages: Pages, a: Annotation)
    requires WellPlaced(pages)
    ensures WellPlaced(Create(pages, a))
  {
  }

  lemma DeleteKeepsPlacement(pages: Pages, p: nat, ks: set<nat>)
    requires WellPlaced(pages)
    ensures WellPlaced(Delete(pages, p, ks))
  {
    if p < |pages| {
      var r: seq<seq<Annotation>> := Delete(pages, p, ks);
      RemoveKeysMembers(pages[p], ks);
      forall q: nat, i: nat | q < |r| && i < |r[q]| ensures r[q][i].pageIndex == q {
        if q == p {
          assert r[q][i] in pages[p];
        }
      }
    }
  }
}
