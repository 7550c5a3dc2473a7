/**
 * The local highlight cache, `highlightsRef.current`: a list of highlight
 * records searched by id with `find` / `findIndex` and shortened with
 * `splice`.
 */
module HighlightCache {
  import opened Base
  import opened Annotations

  /**
   * A highlight record as the store returns it. `patch` is the serialised
   * annotation it is drawn from (kept verbatim; serialisation is taken as
   * the identity), and `annotation` is the optional free-text note.
   */
  datatype Highlight = Highlight(
    id: string,
    shortId: string,
    quote: string,
    prefix: string,
    suffix: string,
    patch: Annotation,
    positionPercent: real,
    positionAnchorIndex: int,
    annotation: Option<string>)

  /** No two records share an id. */
  predicate UniqueIds(cache: seq<Highlight>)
  {
    forall i, j :: 0 <= i < j < |cache| ==> cache[i].id != cache[j].id
  }

  /** `findIndex(value => value.id == id)`, with `None` for -1. */
  function FirstIndex(cache: seq<Highlight>, id: string): (r: Option<nat>)
    ensures r.Some? ==> r.value < |cache| && cache[r.value].id == id
  {
    if cache == [] then None
    else if cache[0].id == id then Some(0)
    else match FirstIndex(cache[1..], id)
      case None => None
      case Some(k) => Some(k + 1)
  }

  /** The index found is the first with `id`, and `None` means no record has `id`. */
  lemma {:induction false} FirstIndexIsFirst(cache: seq<Highlight>, id: string)
    ensures FirstIndex(cache, id).Some? ==> forall k :: 0 <= k < FirstIndex(cache, id).value ==> cache[k].id != id
    ensures FirstIndex(cache, id).None? ==> forall k :: 0 <= k < |cache| ==> cache[k].id != id
  {
    if cache != [] && cache[0].id != id {
      FirstIndexIsFirst(cache[1..], id);
      forall k | 1 <= k < |cache| ensures cache[k] == cache[1..][k - 1] {
      }
    }
  }

  /** `splice(findIndex(...), 1)` when the index is not -1: the first record with `id` is removed. */
  function RemoveFirst(cache: seq<Highlight>, id: string): seq<Highlight>
  {
    if cache == [] then []
    else if cache[0].id == id then cache[1..]
    else [cache[0]] + RemoveFirst(cache[1..], id)
  }

  /**
   * With no record carrying `id` the cache is unchanged; otherwise exactly
   * the record at the first index with `id` is cut out.
   */
  lemma {:induction false} RemoveFirstAt(cache: seq<Highlight>, id: string)
    ensures FirstIndex(cache, id).None? ==> RemoveFirst(cache, id) == cache
    ensures FirstIndex(cache, id).Some? ==>
      RemoveFirst(cache, id) == cache[..FirstIndex(cache, id).value] + cache[FirstIndex(cache, id).value + 1..]
  {
    if cache != [] && cache[0].id != id {
      var tail := cache[1..];
      RemoveFirstAt(tail, id);
      match FirstIndex(tail, id)
      case None =>
        assert cache == [cache[0]] + tail;
      case Some(k) =>
        CutAfterHead(cache, k);
    }
  }

  /** Cutting index `k + 1` out of `s` is keeping its head and cutting index `k` out of its tail. */
  lemma CutAfterHead<T>(s: seq<T>, k: nat)
    requires k + 1 < |s|
    ensures [s[0]] + (s[1..][..k] + s[1..][k + 1..]) == s[..k + 1] + s[k + 2..]
  {
    assert s[..k + 1] == [s[0]] + s[1..][..k];
    assert s[k + 2..] == s[1..][k + 1..];
  }

  /** What is left of the cache keeps its order and is never longer. */
  lemma {:induction false} RemoveFirstSubsequence(cache: seq<Highlight>, id: string)
    ensures IsSubsequence(RemoveFirst(cache, id), cache)
    ensures |RemoveFirst(cache, id)| <= |cache|
  {
    if cache != [] {
      if cache[0].id == id {
        SubsequenceSelf(cache[1..]);
      } else {
        var rest := RemoveFirst(cache[1..], id);
        RemoveFirstSubsequence(cache[1..], id);
        assert ([cache[0]] + rest)[1..] == rest;
      }
    }
  }

  /**
   * The splice semantics in terms of contents: one record fewer exactly when
   * some record carries `id`, and the multiset drops that one record.
   */
  lemma {:induction false} RemoveFirstSpec(cache: seq<Highlight>, id: string)
    ensures FirstIndex(cache, id).None? ==> RemoveFirst(cache, id) == cache
    ensures FirstIndex(cache, id).Some? ==>
      && |RemoveFirst(cache, id)| == |cache| - 1
      && multiset(RemoveFirst(cache, id)) == multiset(cache) - multiset{cache[FirstIndex(cache, id).value]}
  {
    if cache != [] {
      var tail := cache[1..];
      assert cache == [cache[0]] + tail;
      if cache[0].id != id {
        RemoveFirstSpec(tail, id);
        match FirstIndex(tail, id)
        case None =>
        case Some(k) =>
          assert cache[k + 1] == tail[k];
      }
    }
  }

  /** `RemoveFirst` applied `n` times. */
  function RemoveFirstN(cache: seq<Highlight>, id: string, n: nat): seq<Highlight>
  {
    if n == 0 then cache else RemoveFirst(RemoveFirstN(cache, id, n - 1), id)
  }

  /** Repeated removal keeps the rest of the cache in order and never grows it. */
  lemma {:induction false} RemoveFirstNSubsequence(cache: seq<Highlight>, id: string, n: nat)
    ensures IsSubsequence(RemoveFirstN(cache, id, n), cache)
    ensures |RemoveFirstN(cache, id, n)| <= |cache|
  {
    if n == 0 {
      SubsequenceSelf(cache);
    } else {
      var prev := RemoveFirstN(cache, id, n - 1);
      RemoveFirstNSubsequence(cache, id, n - 1);
      RemoveFirstSubsequence(prev, id);
      SubsequenceTransitive(RemoveFirst(prev, id), prev, cache);
    }
  }

  /** Removing `m` times and then `n` times is removing `m + n` times. */
  lemma {:induction false} RemoveFirstNAdd(cache: seq<Highlight>, id: string, m: nat, n: nat)
    ensures RemoveFirstN(RemoveFirstN(cache, id, m), id, n) == RemoveFirstN(cache, id, m + n)
  {
    if n > 0 {
      RemoveFirstNAdd(cache, id, m, n - 1);
      var prev := RemoveFirstN(cache, id, m + n - 1);
      assert RemoveFirstN(RemoveFirstN(cache, id, m), id, n) == RemoveFirst(prev, id);
      assert RemoveFirstN(cache, id, m + n) == RemoveFirst(prev, id);
    }
  }

  /** In a cache with unique ids, removing the first record with `id` removes every record with it. */
  lemma {:induction false} RemoveFirstUnique(cache: seq<Highlight>, id: string)
    requires UniqueIds(cache)
    ensures UniqueIds(RemoveFirst(cache, id))
    ensures forall i :: 0 <= i < |RemoveFirst(cache, id)| ==> RemoveFirst(cache, id)[i].id != id
  {
    if cache != [] {
      var tail := cache[1..];
      assert UniqueIds(tail) by {
        forall i, j | 0 <= i < j < |tail| ensures tail[i].id != tail[j].id {
          assert tail[i] == cache[i + 1] && tail[j] == cache[j + 1];
        }
      }
      if cache[0].id == id {
        forall i | 0 <= i < |tail| ensures tail[i].id != id {
          assert tail[i] == cache[i + 1];
        }
      } else {
        RemoveFirstUnique(tail, id);
        var rest := RemoveFirst(tail, id);
        RemoveFirstSubsequence(tail, id);
        forall i | 0 <= i < |rest| ensures rest[i].id != cache[0].id {
          SubsequenceMember(rest, tail, i);
          var j :| 0 <= j < |tail| && tail[j] == rest[i];
          assert tail[j] == cache[j + 1];
        }
        var r := [cache[0]] + rest;
        assert r == RemoveFirst(cache, id);
        assert forall i :: 1 <= i < |r| ==> r[i] == rest[i - 1];
      }
    }
  }

  /** In a cache with unique ids, one or more removals leave no record with `id`. */
  lemma {:induction false} RemoveFirstNRemovesAll(cache: seq<Highlight>, id: string, n: nat)
    requires UniqueIds(cache) && n >= 1
    ensures UniqueIds(RemoveFirstN(cache, id, n))
    ensures forall i :: 0 <= i < |RemoveFirstN(cache, id, n)| ==> RemoveFirstN(cache, id, n)[i].id != id
  {
    if n == 1 {
      RemoveFirstUnique(cache, id);
    } else {
      RemoveFirstNRemovesAll(cache, id, n - 1);
      var prev := RemoveFirstN(cache, id, n - 1);
      assert FirstIndex(prev, id).None?;
      RemoveFirstSpec(prev, id);
    }
  }

  /** Records with other ids are untouched by `RemoveFirst`. */
  lemma RemoveFirstKeepsOthers(cache: seq<Highlight>, id: string, h: Highlight)
    requires h.id != id
    ensures multiset(RemoveFirst(cache, id))[h] == multiset(cache)[h]
  {
    RemoveFirstSpec(cache, id);
  }

  /** Records with other ids are untouched by any number of splices: each keeps its count. */
  lemma {:induction false} RemoveFirstNKeepsOthers(cache: seq<Highlight>, id: string, n: nat, h: Highlight)
    requires h.id != id
    ensures multiset(RemoveFirstN(cache, id, n))[h] == multiset(cache)[h]
  {
    if n > 0 {
      RemoveFirstNKeepsOthers(cache, id, n - 1, h);
      RemoveFirstKeepsOthers(RemoveFirstN(cache, id, n - 1), id, h);
    }
  }

  /** Two caches whose records carry the same ids position by position answer every id lookup alike. */
  lemma {:induction false} FirstIndexSameIds(a: seq<Highlight>, b: seq<Highlight>, id: string)
    requires |a| == |b| && forall i :: 0 <= i < |a| ==> a[i].id == b[i].id
    ensures FirstIndex(a, id) == FirstIndex(b, id)
  {
    if a != [] && a[0].id != id {
      FirstIndexSameIds(a[1..], b[1..], id);
    }
  }

  /**
   * The note dialog's `onUpdate`: the first record with `id`, when there is
   * one, gets `note`; nothing else changes.
   */
  function WithNote(cache: seq<Highlight>, id: string, note: Option<string>): (r: seq<Highlight>)
    ensures |r| == |cache|
  {
    match FirstIndex(cache, id)
    case None => cache
    case Some(k) => cache[k := cache[k].(annotation := note)]
  }

  /**
   * Editing a note changes only the note of the first record with the id:
   * every record keeps its id, every other record is unchanged, and id
   * lookups give the same answers as before.
   */
  lemma WithNoteSpec(cache: seq<Highlight>, id: string, note: Option<string>, other: string)
    ensures forall i :: 0 <= i < |cache| ==> WithNote(cache, id, note)[i].id == cache[i].id
    ensures forall i :: 0 <= i < |cache| && Some(i) != FirstIndex(cache, id) ==> WithNote(cache, id, note)[i] == cache[i]
    ensures FirstIndex(cache, id).Some? ==>
      WithNote(cache, id, note)[FirstIndex(cache, id).value] == cache[FirstIndex(cache, id).value].(annotation := note)
    ensures FirstIndex(WithNote(cache, id, note), other) == FirstIndex(cache, other)
  {
    FirstIndexSameIds(WithNote(cache, id, note), cache, other);
  }

  /**
   * `savedHighlight?.annotation ?? data.annotation`: the note the note
   * dialog opens with. It is the note of the first cached record with the
   * annotation's id when that record exists and has a note, and otherwise
   * the note the annotation's own metadata carries.
   */
  function SavedNote(cache: seq<Highlight>, meta: HighlightMeta): (r: Option<string>)
    ensures FirstIndex(cache, meta.id).Some? && cache[FirstIndex(cache, meta.id).value].annotation.Some? ==>
      r == cache[FirstIndex(cache, meta.id).value].annotation
    ensures FirstIndex(cache, meta.id).Some? && cache[FirstIndex(cache, meta.id).value].annotation.None? ==>
      r == meta.annotation
    ensures FirstIndex(cache, meta.id).None? ==> r == meta.annotation
    ensures r.None? ==> meta.annotation.None?
  {
    match FirstIndex(cache, meta.id)
    case Some(k) =>
      if cache[k].annotation.Some? then cache[k].annotation else meta.annotation
    case None => meta.annotation
  }

  /**
   * Saving a note and opening the note dialog on the same highlight again
   * shows the saved note when the highlight is in the cache; when it is not,
   * the save is lost and the dialog shows the annotation's own note.
   */
  lemma NoteRoundTrip(cache: seq<Highlight>, meta: HighlightMeta, note: string)
    ensures FirstIndex(cache, meta.id).Some? ==> SavedNote(WithNote(cache, meta.id, Some(note)), meta) == Some(note)
    ensures FirstIndex(cache, meta.id).None? ==> SavedNote(WithNote(cache, meta.id, Some(note)), meta) == meta.annotation
  {
    WithNoteSpec(cache, meta.id, Some(note), meta.id);
  }
}
