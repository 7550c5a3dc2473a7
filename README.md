# Highlight synchronisation and newsletter subscriptions, modelled in Dafny

This project models two pieces of the Omnivore read-it-later application.

**The PDF article view's highlight logic**
(`packages/web/components/templates/article/PdfArticleContainer.tsx`).
The view keeps three things in step:

- the annotations on each page of the PDF annotation surface;
- the local highlight cache (`highlightsRef.current`);
- the remote highlight store, which the log of remote calls stands for.

The class `PdfArticle.PdfArticleContainer` holds that state, one method per event handler:

- the load-time replay of the article's highlights;
- `annotations.create`, with its create and merge branches;
- `annotations.willChange`;
- the tooltip's Remove and Note items;
- the `deleteHighlightbyId` listener, with its nested page and annotation loops;
- the page-change progress handler;
- the note dialog's `onUpdate`.

The pure parts are functions with lemmas, one module each:

- the highlight id of an annotation, and the overlap query (`Annotations`);
- the surface's create, update and delete commands (`Surface`);
- quote normalisation (`Quote`);
- the position and the progress percent (`Geometry`);
- the cache operations `find`, `findIndex` and `splice` (`HighlightCache`).

**The subscription service** (`packages/api/src/services/subscriptions.ts`).
The class `Subscriptions.SubscriptionService` holds:

- the repository, as a map from (user id, newsletter name) to the record;
- an outbox of the e-mails and HTTP requests sent.

Its methods are `saveSubscription` (an upsert), `unsubscribe` (e-mail first, then HTTP, otherwise an error) and `unsubscribeAll` (a batch with per-record failure isolation). Each method is proved against a function of the old state: `Upserted`/`SaveInto`, `UnsubscribeOutcome`/`Attempt`, and `AfterUnsubscribeAll`. The properties the service promises are lemmas about those functions.

Whatever the environment supplies becomes a parameter of the handler that uses it:

- what the remote store answers;
- whether the surface accepted a replayed annotation;
- whether the surface's delete of the annotation behind the tooltip succeeded;
- whether an e-mail was sent, and what an HTTP request answered;
- the fresh highlight ids, the surface's fresh annotation id and the annotation's markup text;
- the rect-overlap test.

Several behaviours differ from what one might expect; the model follows the code:

- The progress threshold is the reading progress as loaded, and it is never raised after a call (`Geometry.ProgressAgainstLoadedValue`).
- The merge branch sends the tagged drawn annotation as `patch`, not the merged one. It also appends the result to the cache without removing the merged-away highlights.
- The `annotations.willChange` DELETE_END listener and the tooltip's Remove item issue a delete call but leave the cache alone.
- The two successive `filter` calls of the overlap query are one filter by the conjunction.
- The repository is a map keyed by (user id, name), so `findOneBy` can never see two records for one key. `SaveIntoFrame` proves that saving keeps it that way.
- `unsubscribeAll` visits the query results in an order the model leaves open. `UnsubscribeAll` returns that order as a ghost sequence, and its result does not depend on it.

## Model

| member | source | states |
|---|---|---|
| Annotations.OmnivoreId | packages/web/components/templates/article/PdfArticleContainer.tsx:77-87 | an id is present exactly when the annotation has highlight metadata with a non-empty id, and it is that id |
| Annotations.OmnivoreIdOfTagged | packages/web/components/templates/article/PdfArticleContainer.tsx:318-327 | once the create handler attaches its metadata, the annotation's highlight id is the new id |
| Annotations.FindOverlappingSpec | packages/web/components/templates/article/PdfArticleContainer.tsx:251-277 | the overlap result keeps the page's order, and holds exactly the omnivore highlight annotations with a rect overlapping a drawn rect |
| Annotations.AllRectsContains | packages/web/components/templates/article/PdfArticleContainer.tsx:351-353 | every rect of every overlapping annotation is in the flattened rect list |
| Annotations.UnionTopIsMin | packages/web/components/templates/article/PdfArticleContainer.tsx:359 | the top of the union of the rects is the least of their tops, and one of the rects attains it |
| Annotations.MergedIdsSpec | packages/web/components/templates/article/PdfArticleContainer.tsx:376-378 | the merged id list has one entry per overlapping annotation, position by position its highlight id |
| Surface.UpdateReplacesAt | packages/web/components/templates/article/PdfArticleContainer.tsx:329 | on a page with distinct ids, the update puts the annotation in the place of the one with its key and changes nothing else |
| Surface.RemoveKeysMembers | packages/web/components/templates/article/PdfArticleContainer.tsx:373-374 | deleting by keys keeps the others in order, and keeps an annotation exactly when its key is not deleted |
| Quote.ReplaceLineBreaksSpec | packages/web/components/templates/article/PdfArticleContainer.tsx:314 | after the replacement no `\r` or `\n` is left, and the text is no longer |
| Quote.ReplaceLineBreaksIdentity | packages/web/components/templates/article/PdfArticleContainer.tsx:314 | text without line breaks is unchanged by the replacement |
| Quote.LineBreakBecomesOneSpace | packages/web/components/templates/article/PdfArticleContainer.tsx:314 | `\r\n`, `\n` and `\r` each become exactly one space |
| Quote.ReplaceLineBreaksConcat | packages/web/components/templates/article/PdfArticleContainer.tsx:314 | the replacement distributes over concatenation unless the cut splits a `\r\n` |
| Quote.LeadingWhitespace | packages/web/components/templates/article/PdfArticleContainer.tsx:315 | the count is of whitespace characters at the start, followed by a non-whitespace character or the end |
| Quote.TrailingWhitespace | packages/web/components/templates/article/PdfArticleContainer.tsx:315 | the count is of whitespace characters at the end, preceded by a non-whitespace character or the start |
| Quote.Trim | packages/web/components/templates/article/PdfArticleContainer.tsx:315 | a trimmed string that is not empty starts and ends with a non-whitespace character |
| Quote.TrimIsSlice | packages/web/components/templates/article/PdfArticleContainer.tsx:315 | the trimmed string is the slice of the input right after its leading whitespace |
| Quote.TrimCutsTrailing | packages/web/components/templates/article/PdfArticleContainer.tsx:315 | everything from the end of that slice to the end of the input is whitespace |
| Quote.NormalizeQuote | packages/web/components/templates/article/PdfArticleContainer.tsx:311-315 | the quote has no line breaks, no leading or trailing whitespace, and is no longer than the text |
| Quote.NormalizeQuoteIdentity | packages/web/components/templates/article/PdfArticleContainer.tsx:311-315 | a single-line, already trimmed text is its own quote |
| Geometry.PositionMonotone | packages/web/components/templates/article/PdfArticleContainer.tsx:106-116 | with non-negative heights and a fixed top, the position does not decrease with the page index |
| Geometry.PositionInUnitRange | packages/web/components/templates/article/PdfArticleContainer.tsx:106-116 | an offset within an existing page gives a position in [0, 1] and a percent in [0, 100] |
| Geometry.PositionExample | packages/web/components/templates/article/PdfArticleContainer.tsx:106-116 | pages of height 100, 200 and 100 with offset 50 on the second page give 0.375 |
| Geometry.ProgressPercent | packages/web/components/templates/article/PdfArticleContainer.tsx:402-405 | the percent lies in [0, 100], and equals (page + 1) / pages * 100 when that is in range, else the bound it passes |
| Geometry.ProgressOfExistingPage | packages/web/components/templates/article/PdfArticleContainer.tsx:402-405 | for a page that exists the clamp never applies |
| Geometry.ProgressUpdate | packages/web/components/templates/article/PdfArticleContainer.tsx:402-413 | an update is due exactly when the clamped percent is strictly above the loaded progress, and it carries that percent |
| Geometry.ProgressAgainstLoadedValue | packages/web/components/templates/article/PdfArticleContainer.tsx:406 | the threshold is not raised: page 0 issues an update again after page 2 did |
| Geometry.NoProgressOnceComplete | packages/web/components/templates/article/PdfArticleContainer.tsx:406-408 | an article loaded at 100% never issues a progress update |
| HighlightCache.FirstIndex | packages/web/components/templates/article/PdfArticleContainer.tsx:432-434 | a found index is in range and has the id |
| HighlightCache.FirstIndexIsFirst | packages/web/components/templates/article/PdfArticleContainer.tsx:432-434 | no record before the found index has the id, and not found means no record has it |
| HighlightCache.RemoveFirstAt | packages/web/components/templates/article/PdfArticleContainer.tsx:435-437 | the splice cuts out exactly the record at the first index with the id, or changes nothing when there is none |
| HighlightCache.RemoveFirstSpec | packages/web/components/templates/article/PdfArticleContainer.tsx:435-437 | the cache loses exactly one record, the first with the id, as a multiset, or is unchanged |
| HighlightCache.RemoveFirstSubsequence | packages/web/components/templates/article/PdfArticleContainer.tsx:435-437 | what is left keeps its order and is never longer |
| HighlightCache.RemoveFirstKeepsOthers | packages/web/components/templates/article/PdfArticleContainer.tsx:432-437 | records with another id keep their number of occurrences |
| HighlightCache.RemoveFirstUnique | packages/web/components/templates/article/PdfArticleContainer.tsx:432-437 | in a cache with distinct ids one splice leaves no record with the id, and the ids stay distinct |
| HighlightCache.RemoveFirstNSubsequence | packages/web/components/templates/article/PdfArticleContainer.tsx:420-442 | what remains after repeated splices keeps its order and is never longer |
| HighlightCache.RemoveFirstNKeepsOthers | packages/web/components/templates/article/PdfArticleContainer.tsx:420-442 | after any number of splices, every record with another id keeps its number of occurrences |
| HighlightCache.RemoveFirstNRemovesAll | packages/web/components/templates/article/PdfArticleContainer.tsx:420-442 | with distinct ids, one or more splices leave no record with the id |
| HighlightCache.WithNote | packages/web/components/templates/article/PdfArticleContainer.tsx:473-483 | the note edit never changes the cache's length |
| HighlightCache.WithNoteSpec | packages/web/components/templates/article/PdfArticleContainer.tsx:473-483 | only the first record with the id gets the new note; every id, every other record and every id lookup are unchanged |
| HighlightCache.SavedNote | packages/web/components/templates/article/PdfArticleContainer.tsx:163-169 | the note shown is that of the first cached record with the annotation's id when that record has a note; otherwise, or with no such record, it is the annotation's own |
| HighlightCache.NoteRoundTrip | packages/web/components/templates/article/PdfArticleContainer.tsx:163-169 | a note saved on a cached highlight is the one the note dialog opens with next; for an uncached one the save is lost |
| PdfArticle.TaggedReplacesDrawn | packages/web/components/templates/article/PdfArticleContainer.tsx:318-329 | the tagged annotation takes the drawn one's place on its page and the rest of the surface is as it was |
| PdfArticle.MergeRectsNonEmpty | packages/web/components/templates/article/PdfArticleContainer.tsx:351-359 | when there is overlap the merged rect list is not empty, so its union exists |
| PdfArticle.OverlappingOnPage | packages/web/components/templates/article/PdfArticleContainer.tsx:255-257 | the overlapping annotations all come from the drawn annotation's page |
| PdfArticle.MergeOnSurfaceEffect | packages/web/components/templates/article/PdfArticleContainer.tsx:349-374 | after the merge the drawn page holds the merged annotation and exactly its previous annotations other than the drawn and overlapping ones; other pages are untouched |
| PdfArticle.MergedPage | packages/web/components/templates/article/PdfArticleContainer.tsx:372-374 | on one page, update, create and the two deletes leave the merged annotation and exactly the annotations with neither deleted key |
| PdfArticle.MergeKeepsPlacement | packages/web/components/templates/article/PdfArticleContainer.tsx:372-374 | the merge keeps every annotation on its own page |
| PdfArticle.Replay | packages/web/components/templates/article/PdfArticleContainer.tsx:234-249 | the replay keeps the number of pages and keeps annotations on their own pages |
| PdfArticle.ReplayKeepsAccepted | packages/web/components/templates/article/PdfArticleContainer.tsx:235-249 | every highlight the surface accepts ends up on its page, whatever happens to the others |
| PdfArticle.ReplayOnlyAccepted | packages/web/components/templates/article/PdfArticleContainer.tsx:235-249 | the replay removes nothing and adds only accepted highlights' patches |
| PdfArticle.DeleteCarryingEffect | packages/web/components/templates/article/PdfArticleContainer.tsx:420-442 | after deletion by id no annotation carries the id; with distinct surface ids on a page every other annotation stays |
| PdfArticle.DeletePageCarrying | packages/web/components/templates/article/PdfArticleContainer.tsx:422-430 | on one page the same two directions hold |
| PdfArticle.DeleteCarryingUpToPages | packages/web/components/templates/article/PdfArticleContainer.tsx:420-442 | after n pages are scanned those pages are cleared of the id and the rest are untouched |
| PdfArticle.DeleteCarryingUpToAll | packages/web/components/templates/article/PdfArticleContainer.tsx:420-442 | scanning every page in turn is deletion by id over the whole surface |
| PdfArticle.RemovedUpToKeys | packages/web/components/templates/article/PdfArticleContainer.tsx:422-430 | deleting the carrying annotations one at a time is deleting all their keys at once |
| PdfArticle.DeleteCarryingPlacement | packages/web/components/templates/article/PdfArticleContainer.tsx:420-442 | deletion by id keeps every annotation on its own page |
| PdfArticle.DeleteCalls | packages/web/components/templates/article/PdfArticleContainer.tsx:430 | n delete calls, each for the id |
| PdfArticle.DeleteCallsAdd | packages/web/components/templates/article/PdfArticleContainer.tsx:430 | m delete calls followed by n more are m + n of them |
| PdfArticle.PdfArticleContainer.constructor | packages/web/components/templates/article/PdfArticleContainer.tsx:42-47 | the view starts with empty pages, an empty cache, no calls, no note target |
| PdfArticle.PdfArticleContainer.LoadHighlights | packages/web/components/templates/article/PdfArticleContainer.tsx:233-249 | the cache becomes the article's highlights and the surface is the replay of the accepted patches |
| PdfArticle.PdfArticleContainer.PositionPercent | packages/web/components/templates/article/PdfArticleContainer.tsx:106-116 | the two accumulating loops compute the position |
| PdfArticle.PdfArticleContainer.OnAnnotationsCreate | packages/web/components/templates/article/PdfArticleContainer.tsx:279-397 | an ignored event changes nothing; otherwise one create call or one merge call with the tagged patch, position and merged ids, the surface updated or merged, and the cache grown by exactly the result |
| PdfArticle.PdfArticleContainer.CreateBranch | packages/web/components/templates/article/PdfArticleContainer.tsx:329-348 | the tagged annotation replaces the drawn one, and one create call with its position percent and page is issued |
| PdfArticle.PdfArticleContainer.MergeBranch | packages/web/components/templates/article/PdfArticleContainer.tsx:349-395 | the surface becomes the merge, and one merge call with the tagged patch, the merged position and the merged ids is issued |
| PdfArticle.PdfArticleContainer.OnPageChange | packages/web/components/templates/article/PdfArticleContainer.tsx:399-415 | exactly one progress call with the clamped percent and the page as anchor when an update is due, none otherwise |
| PdfArticle.PdfArticleContainer.OnAnnotationsWillChange | packages/web/components/templates/article/PdfArticleContainer.tsx:219-231 | one delete call exactly for a DELETE_END event whose first annotation has an id; nothing else changes |
| PdfArticle.PdfArticleContainer.OnTooltipRemove | packages/web/components/templates/article/PdfArticleContainer.tsx:133-151 | once the surface deleted the annotation, it is gone and one delete call is issued when it has an id |
| PdfArticle.PdfArticleContainer.OnDeleteHighlightById | packages/web/components/templates/article/PdfArticleContainer.tsx:418-443 | the surface loses exactly the annotations carrying the id; one delete call, one cache splice and one notebook refresh per such annotation |
| PdfArticle.PdfArticleContainer.ScanPage | packages/web/components/templates/article/PdfArticleContainer.tsx:421-441 | one page is cleared of the id, with its count of calls, splices and refreshes; other pages are untouched |
| PdfArticle.PdfArticleContainer.OnTooltipNote | packages/web/components/templates/article/PdfArticleContainer.tsx:152-175 | for metadata with a short id the note dialog opens on it with the saved note and its page; otherwise nothing changes |
| PdfArticle.PdfArticleContainer.OnNoteUpdate | packages/web/components/templates/article/PdfArticleContainer.tsx:473-483 | the cache becomes the note edit of the record's id |
| Subscriptions.ChooseMethod | packages/api/src/services/subscriptions.ts:66-77 | e-mail exactly when the mail-to address is truthy; HTTP exactly when it is not and the URL is; otherwise no route |
| Subscriptions.UnsubscribeOutcomeSpec | packages/api/src/services/subscriptions.ts:63-82 | saved exactly when the chosen route's send succeeded, then as unsubscribed and otherwise unchanged; 'No unsubscribe method defined' exactly when there is no route |
| Subscriptions.EmailTakesPrecedence | packages/api/src/services/subscriptions.ts:66-74 | with a mail-to address the HTTP answer never matters and only the e-mail is sent |
| Subscriptions.UpsertedSpec | packages/api/src/services/subscriptions.ts:38-60 | the saved record is active with the new sender address; a route is overwritten only by a truthy argument; a new record takes the arguments |
| Subscriptions.SaveIntoFrame | packages/api/src/services/subscriptions.ts:38-60 | saving adds at most the one key, keeps records keyed by owner and changes no other record |
| Subscriptions.SaveIdempotent | packages/api/src/services/subscriptions.ts:31-61 | saving the same arguments twice is saving them once |
| Subscriptions.AfterUnsubscribeAllSpec | packages/api/src/services/subscriptions.ts:84-107 | only targets change, and only by becoming unsubscribed; a target is unsubscribed exactly when its own send succeeded, by e-mail or by HTTP, whatever the others did; a failed send leaves the record as it was |
| Subscriptions.UnsubscribeAllIdempotent | packages/api/src/services/subscriptions.ts:89-103 | a second batch with the same outcomes changes nothing |
| Subscriptions.HandledKeys | packages/api/src/services/subscriptions.ts:97-103 | handling the query results adds and drops no key |
| Subscriptions.HandledAt | packages/api/src/services/subscriptions.ts:97-103 | a record is unsubscribed exactly when it is listed and its own send succeeded; every failure is isolated |
| Subscriptions.HandledPointwise | packages/api/src/services/subscriptions.ts:97-103 | the same for every key at once |
| Subscriptions.HandledAll | packages/api/src/services/subscriptions.ts:89-103 | handling all query results in any order gives the batch result |
| Subscriptions.SubscriptionService.SaveSubscription | packages/api/src/services/subscriptions.ts:31-61 | returns the upserted record, and the repository holds it under its key |
| Subscriptions.SubscriptionService.Unsubscribe | packages/api/src/services/subscriptions.ts:63-82 | the outcome is the route's outcome; the chosen message is sent; the repository changes only on success |
| Subscriptions.SubscriptionService.UnsubscribeAll | packages/api/src/services/subscriptions.ts:84-107 | each target is attempted exactly once and non-targets never; the repository becomes the batch result; each attempt's message, if its record has a route; it never throws |

## Left out

- PdfArticle.PdfArticleContainer.OnAnnotationsCreate: requires a total page height above zero. The code would divide by zero and produce a NaN or infinite percent, which reals cannot express.
- PdfArticle.PdfArticleContainer.OnPageChange: requires at least one page, for the same reason.
- PdfArticle.MergeOnSurfaceEffect: assumes the surface's id for the new merged annotation is fresh on its page. The surface guarantees that, but the model cannot see it.
- PdfArticle.DeleteCarryingEffect: "every other annotation stays" is stated only for pages whose surface ids are distinct. The surface deletes by id.
- Subscriptions.SubscriptionService.UnsubscribeAll: the query's row order is left open, because the repository's order is not part of the model.
- PdfArticle.PdfArticleContainer.OnAnnotationsCreate: a rejected `instance.update` aborts the handler in the code, with no remote call and no cache push. The model's surface commands always succeed.
- PdfArticle.PdfArticleContainer.CreateBranch: same as above; the update is taken to succeed.
- PdfArticle.PdfArticleContainer.MergeBranch: a rejected `instance.create` or `instance.delete` aborts the merge in the code, leaving the later surface steps, the merge call and the cache push undone. The model takes every surface command to succeed.
- PdfArticle.PdfArticleContainer.OnDeleteHighlightById: a rejected `instance.delete` aborts the scan in the code, so later annotations and pages are not visited. The model takes every delete to succeed.
- PdfArticle.PdfArticleContainer.ScanPage: same as above, for one page.
- Floating point: positions and percents are exact reals.
- Async interleaving: each handler runs to completion, and the events the surface raises for the view's own create and delete commands are not re-delivered to the handlers.
- Remote failures: the store's answer is "a highlight record or none". A rejected call, and the error toast after a failed tooltip delete, are not modelled.
- The load loop's note-copy branch is not modelled. It tests a misspelled custom-data key that no serialised patch carries, so the code never takes it. The model creates each patch as it is, as the code does.
- Serialisation: `JSON.parse`, `JSON.stringify`, `toSerializableObject` and `fromSerializableObject` are taken as the identity.
- Supplied as inputs: `uuidv4` and `nanoid` (fresh ids), `getMarkupAnnotationText` (the markup text) and the surface's fresh annotation ids.
- `isRectOverlapping` is a parameter. `Rect.union` is modelled only through the top of its result, the one field the position reads.
- Annotation colour, opacity and every bounding-box field other than `top` are not modelled.
- The Copy and Share tooltip items, the clipboard, `navigator.share`, the share modal and `getHighlightURL`: browser I/O.
- React rendering, the notebook modal and the note dialog's close handler. `setSelectedAnnotation` is left out. The notebook key is a counter.
- The note dialog takes the metadata object as a value. The code also writes the note into the annotation's own custom-data object in place (aliasing), which is not modelled.
- PSPDFKit loading, unloading, the toolbar filter and the theme.
- Subscriptions:
  - TypeORM persistence is a map.
  - `sendEmail` and `axios.get` are abstract: whether the e-mail was sent, and the HTTP answer. An error thrown inside them is not modelled; every non-200 answer is a failed HTTP unsubscribe.
  - `console.log` is not modelled.
  - The outer try/catch of `unsubscribeAll` only guards a failing repository query, which the map cannot produce.
