# Request tracker: handlers, schema and admin view state

This project models the core of a small request-tracking portal. Staff file
requests for items; administrators list them, change their status one at a
time or in batches, and delete them in batches. It models these parts:

- **Validation** (`RequestSchemas`). The zod schemas check the create body,
  the list query and the single-patch body. The page number goes through
  `Number(...)`.
- **Stored documents** (`RequestModel`). The mongoose schema trims the
  name and the item, then checks their lengths. It fills in the default
  status and creation date and allows only the four status names.
- **The collection** (`RequestStore`). `Collection` is a class holding
  the documents as a map from id to record, plus the collection's natural
  order. It offers `create`, `findByIdAndUpdate`, `updateMany`,
  `deleteMany` and `find`.
- **`/api/request`** (`RequestRoute`).
  - GET is a pure function: filter by status, sort newest first, then
    apply `skip`/`limit`, `total` and `totalPages`.
  - PUT and PATCH are methods that change the collection.
- **`/api/request/batch`** (`BatchRoute`). The batch status change and
  the batch delete, with their counts, messages and 404s.
- **The admin page** (`AdminPage`).
  - Pure sequence functions compute each new list or selection.
  - The class `AdminView` holds the page's state. Its handlers update
    that state once a server call has answered.

Some behaviours of the code are worth knowing:

- **Missing page parameter.** A GET without a `page` parameter is
  answered 400, not given page 1. `searchParams.get` returns `null`, and
  `Number(null)` is 0, which is not positive. The `default(1)` applies only
  to an undefined value (`RequestRoute.Get`, `RequestSchemas.ParsePage`).
- **Padded names.** The create body is checked before trimming, and the
  stored document after it. So `" ab"` passes the body check, the schema
  then refuses it, and the handler answers 500
  (`RequestRoute.PaddedNameRefusedAtCreate`).
- **Empty status filter.** An empty `status` parameter means no filter
  (`RequestRoute.EmptyStatusIsNoFilter`).

Timestamps are natural numbers, and the current time is a parameter of
every operation that reads the clock. The store assigns new identifiers,
which PUT receives as a parameter. A handler's server call (fetch, update,
delete) becomes the outcome the handler is given.

## Model

| member | source | states |
|---|---|---|
| Common.ParseStatus | src/models/Request.ts:35-39 | exactly the four names `pending`, `completed`, `approved`, `rejected` are accepted, each read as the status of that name |
| Common.ParseStatusName | src/models/Request.ts:37 | every status's name reads back as that status |
| Text.TrimSplits | src/models/Request.ts:17 | `trim` cuts the text into white space, the trimmed text and white space, and the result neither starts nor ends with white space |
| Text.TrimIdempotent | src/models/Request.ts:17 | trimming twice is trimming once |
| Text.TrimPadded | src/models/Request.ts:17 | any white-space padding around trimmed text is removed and nothing else is |
| Text.TrimOfBlankOrDigits | src/lib/validation/mock/requestSchemas.ts:9 | blank text trims to nothing; a digit string is left as it is |
| Text.NumberOf | src/lib/validation/mock/requestSchemas.ts:9 | `Number(text)` is 0 for blank text and the decimal value for a digit string |
| RequestSchemas.ParseCreateBody | src/lib/validation/mock/requestSchemas.ts:3-6 | a body is accepted if and only if the name is a string of 3 to 30 characters and the item a string of 2 to 100, and it is taken as given (untrimmed) |
| RequestSchemas.NameLengthBoundary | src/lib/validation/mock/requestSchemas.ts:4 | a 2-character name is refused, a 3-character name accepted |
| RequestSchemas.ParsePage | src/lib/validation/mock/requestSchemas.ts:9 | undefined defaults to page 1, `null` is refused, a string is accepted if and only if `Number` makes it an integer of at least 1, and then the page is that integer |
| RequestSchemas.DecimalPageAccepted | src/lib/validation/mock/requestSchemas.ts:9 | a positive decimal page string is taken at its value |
| RequestSchemas.ZeroPageRefused | src/lib/validation/mock/requestSchemas.ts:9 | empty or blank page text coerces to 0 and is refused |
| RequestSchemas.ParseStatusFilter | src/lib/validation/mock/requestSchemas.ts:10 | undefined means no filter; a string is accepted if and only if it is one of the four names; any other value is refused |
| RequestSchemas.ParseListQuery | src/lib/validation/mock/requestSchemas.ts:8-11 | the query is accepted if and only if both the page and the status are, and the page is then at least 1 |
| RequestSchemas.ParsePatchBody | src/lib/validation/mock/requestSchemas.ts:13-16 | a body is accepted if and only if the id is a non-empty string and the status one of the four names; the result carries that id and status |
| RequestSchemas.SameStatusSet | src/lib/validation/mock/requestSchemas.ts:10-15 | the list filter and the patch body accept the same status spellings and read them as the same status |
| RequestModel.TrimmedWithin | src/models/Request.ts:12-25 | a required, trimmed, length-bounded field is accepted if and only if present with its trimmed length in bounds, and the stored value is the trimmed text |
| RequestModel.Cast | src/models/Request.ts:10-44 | a document is created if and only if the name and item trim to lengths within their bounds and any given status is one of the four; the record is well formed, status defaults to pending and the creation date to now |
| RequestModel.CastStable | src/models/Request.ts:10-44 | a well-formed record passes the schema again unchanged |
| RequestModel.PaddedNameStoredTrimmed | src/models/Request.ts:12-18 | a valid name with white-space padding is stored without the padding |
| RequestStore.SetStatus | src/app/api/request/route.ts:120-124 | a status change sets the status and the edit time and leaves every other field as it was |
| RequestStore.Matched | src/app/api/request/batch/route.ts:28-29 | `{_id: {$in: ids}}` selects exactly the stored ids that are listed |
| RequestStore.Modified | src/app/api/request/batch/route.ts:28-31 | the modified documents are exactly the matched ones that the change alters |
| RequestStore.UpdateWhere | src/app/api/request/batch/route.ts:28-31 | every stored, listed document gets the new status and edit time; every other document is unchanged; no document is added or removed |
| RequestStore.DeleteWhere | src/app/api/request/batch/route.ts:78 | exactly the stored, listed documents are removed and the rest are unchanged |
| RequestStore.KeepOthers | src/app/api/request/batch/route.ts:78 | the natural order loses exactly the listed ids and keeps every id once |
| RequestStore.KeepListed | src/app/api/request/batch/route.ts:41 | each stored, listed id once, which is all `find` promises about its answer |
| RequestStore.DeleteCount | src/app/api/request/batch/route.ts:76-78 | the collection shrinks by exactly the number of matched ids |
| RequestStore.UpdateTwice | src/app/api/request/batch/route.ts:28-31 | repeating a batch status change only moves the edit time |
| RequestStore.RepeatModifiesNothing | src/app/api/request/batch/route.ts:28-31 | a repeated change at the same time matches the same documents and modifies none |
| RequestStore.UpdateConsistent | src/app/api/request/batch/route.ts:28-31 | a status change keeps every id, the order and the texts, so every stored document stays well formed under its own id |
| RequestStore.CreateConsistent | src/app/api/request/route.ts:81-87 | storing a well-formed document under a fresh id at the end of the order keeps every id once, under its own key |
| RequestStore.SetConsistent | src/app/api/request/route.ts:120-124 | a single status change keeps the collection consistent |
| RequestStore.DeleteConsistent | src/app/api/request/batch/route.ts:78 | a delete keeps the collection consistent once the order drops the deleted ids |
| RequestStore.FoundDocuments | src/app/api/request/batch/route.ts:41 | `find` answers one document per matched id, each as stored under its own id, and no id twice |
| RequestStore.UpdateNoMatch | src/app/api/request/batch/route.ts:28-38 | a status change that matches nothing leaves the collection unchanged |
| RequestStore.DeleteNoMatch | src/app/api/request/batch/route.ts:78-85 | a delete that matches nothing leaves the collection and its order unchanged |
| RequestStore.DeleteLeavesNoMatch | src/app/api/request/batch/route.ts:78-85 | after a delete none of its ids is stored, so repeating it is answered 404 |
| RequestStore.UpdateOneIsSetStatus | src/app/api/request/route.ts:120-124 | a batch change of one stored id is the single status change |
| RequestStore.Collection.Find | src/app/api/request/batch/route.ts:41 | `find` answers each stored, listed document once, as stored, as many as there are matched ids |
| RequestStore.Collection.Create | src/app/api/request/route.ts:81-87 | a document the schema refuses or whose id is taken is not stored; otherwise the cast document is stored under its id and appended to the natural order |
| RequestStore.Collection.FindByIdAndUpdate | src/app/api/request/route.ts:120-124 | an unknown id changes nothing and answers nothing; a known id's document gets the new status and edit time, and the updated document is answered |
| RequestStore.Collection.UpdateMany | src/app/api/request/batch/route.ts:28-31 | the collection becomes `UpdateWhere` of the old one, and the answer is the matched and modified counts |
| RequestStore.Collection.DeleteMany | src/app/api/request/batch/route.ts:78 | the collection becomes `DeleteWhere` of the old one, its order drops the listed ids, and the answer is the number deleted |
| RequestRoute.SkipIsProduct | src/app/api/request/route.ts:35 | the documents before page `page` number `(page - 1) * limit` |
| RequestRoute.TotalPages | src/app/api/request/route.ts:49 | at least one page; the pages hold every matching document, and with one page fewer some would not fit |
| RequestRoute.TotalPagesBounds | src/app/api/request/route.ts:49 | `totalPages * limit >= total`, and `(totalPages - 1) * limit < total` when there is any document |
| RequestRoute.FilterByStatus | src/app/api/request/route.ts:37-41 | no filter keeps every document |
| RequestRoute.FilterMembers | src/app/api/request/route.ts:37-41 | the filter keeps exactly the documents with the requested status |
| RequestRoute.SortByDateSpec | src/app/api/request/route.ts:42 | the sort answers a permutation of its input, ordered newest first |
| RequestRoute.SortedMembers | src/app/api/request/route.ts:42 | sorting neither adds nor drops documents |
| RequestRoute.PageOf | src/app/api/request/route.ts:43-44 | `skip`/`limit` answers at most `limit` documents, namely those from position `skip` on, and none past the end |
| RequestRoute.PageOfSorted | src/app/api/request/route.ts:42-44 | a page of an ordered list is ordered and holds only documents of the list |
| RequestRoute.PastLastPage | src/app/api/request/route.ts:43-49 | a page past `totalPages` is empty |
| RequestRoute.ListPage | src/app/api/request/route.ts:40-50 | the body echoes the page and the limit, `total` counts the matching documents, `totalPages` covers them, and a page holds at most `limit` documents |
| RequestRoute.PageDataOrdered | src/app/api/request/route.ts:37-45 | a page is ordered newest first and holds only documents that match the filter |
| RequestRoute.PageBeyondLastIsEmpty | src/app/api/request/route.ts:33-49 | a page beyond `totalPages` answers no documents |
| RequestRoute.RecordOnItsPage | src/app/api/request/route.ts:33-49 | the matching document of rank `(page - 1) * limit + index`, newest first, is item `index` of page `page`, and that page is within `totalPages` |
| RequestRoute.PageRank | src/app/api/request/route.ts:35-49 | in any list, the item of rank `(page - 1) * limit + index` is item `index` of page `page`, within the page count |
| RequestRoute.PageWithinTotal | src/app/api/request/route.ts:35-49 | a page that starts before the last matching document is within `totalPages` |
| RequestRoute.TotalCountsStored | src/app/api/request/route.ts:46 | `countDocuments(filter)` is the number of stored documents with the requested status |
| RequestRoute.Get | src/app/api/request/route.ts:13-58 | a missing page parameter or an invalid query is answered 400; otherwise 200 with a page of at most the page size, ordered newest first, of stored documents |
| RequestRoute.GetCountsStored | src/app/api/request/route.ts:37-49 | a successful GET reports as `total` the number of stored documents with the requested status, and the pages they fill |
| RequestRoute.EmptyStatusIsNoFilter | src/app/api/request/route.ts:23 | an empty status parameter answers the same as none |
| RequestRoute.CreatedRecord | src/app/api/request/route.ts:80-87 | PUT's fields create a document if and only if the trimmed texts are within bounds, and then it is a pending record with the trimmed texts, created and edited now |
| RequestRoute.UnpaddedBodyCreates | src/app/api/request/route.ts:72-89 | an accepted body without padding is stored exactly as sent: both the name and the item are the texts given |
| RequestRoute.PaddedNameRefusedAtCreate | src/app/api/request/route.ts:72-95 | a name long enough only with its white-space padding (such as `" ab"`) passes the body check and is refused by the schema |
| RequestRoute.Put | src/app/api/request/route.ts:67-97 | an invalid body is answered 400; a document the schema refuses or an id already taken is answered 500 with nothing stored; a valid body the schema accepts under a fresh id is always answered 201 with exactly the cast record; a 201 carries the pending record, trimmed and timestamped now, stored and appended |
| RequestRoute.Patch | src/app/api/request/route.ts:105-141 | an invalid body is answered 400 and an unknown id 404, both with nothing changed; otherwise exactly that document gets the status and edit time and is answered 200 |
| RequestRoute.PatchTwice | src/app/api/request/route.ts:120-124 | a second change to the same status only moves the edit time |
| BatchRoute.NatToString | src/app/api/request/batch/route.ts:44 | a count is written as decimal digits whose value is the count, without a leading zero |
| BatchRoute.NatToStringNumber | src/app/api/request/batch/route.ts:44 | the written count reads back as the count |
| BatchRoute.NatToStringInjective | src/app/api/request/batch/route.ts:44 | different counts give different messages' digits |
| BatchRoute.BatchPatch | src/app/api/request/batch/route.ts:12-56 | an invalid body is answered 400, and no stored listed id 404, both with nothing changed; otherwise the collection is `UpdateWhere` of the old one and 200 reports the matched and modified counts, the message and `find` of the ids |
| BatchRoute.FoundAfterUpdate | src/app/api/request/batch/route.ts:41-47 | the answered `data` holds each stored, listed document once, with the new status and edit time and otherwise as before |
| BatchRoute.BatchDelete | src/app/api/request/batch/route.ts:63-98 | an invalid body is answered 400, and no stored listed id 404, both with nothing changed; otherwise the listed documents are removed, the others kept in order, and 200 reports their number |
| BatchRoute.UnknownIdsIgnored | src/app/api/request/batch/route.ts:28-48 | ids with no stored document change neither the matched set nor the update nor the delete |
| AdminPage.FetchQueryParsed | src/app/admin/page.tsx:38-39 | the query the page sends for page `p` and a tab is read by GET as page `p` and the tab's status, the "all" tab as no filter |
| AdminPage.FetchAnswersTab | src/lib/api/requests.ts:45-50 | a fetch of any page from 1 on is answered 200 with that page, counting exactly the stored requests the tab shows |
| AdminPage.ErrorText | src/app/admin/page.tsx:74 | the error shown is a thrown error's message, or the handler's fallback text |
| AdminPage.Ids | src/app/admin/page.tsx:140 | the displayed ids in display order |
| AdminPage.Without | src/app/admin/page.tsx:131 | removing an id keeps exactly the other selected ids, without repetitions if there were none |
| AdminPage.SelectAllOf | src/app/admin/page.tsx:136-142 | a selection as long as the list is cleared; any other is replaced by every displayed id in order |
| AdminPage.ReplaceById | src/app/admin/page.tsx:68-72 | the rows with the id become the server's record; every other row stays, at the same place, and the length is kept |
| AdminPage.PatchLocal | src/app/admin/page.tsx:87-93 | listed rows get the new status and edit time; every other row stays; the length and order are kept |
| AdminPage.RemoveLocal | src/app/admin/page.tsx:112-114 | exactly the rows whose id is not listed remain |
| AdminPage.RemoveLocalAppend | src/app/admin/page.tsx:112-114 | the delete works row by row: removing from two lists joined is removing from each, in order, so the kept rows keep their order and multiplicity |
| AdminPage.ToggleFlips | src/app/admin/page.tsx:128-134 | toggling flips the membership of that id only and adds no repetition |
| AdminPage.ToggleTwice | src/app/admin/page.tsx:128-134 | toggling an unselected id twice restores the selection exactly |
| AdminPage.FullSelectionByLength | src/app/admin/page.tsx:136-142 | with a selection of displayed ids and distinct displayed ids, the length test holds if and only if every displayed row is selected |
| AdminPage.SelectAllShown | src/app/admin/page.tsx:136-142 | select-all leaves a selection of displayed ids, each once |
| AdminPage.ReplaceKeepsIds | src/app/admin/page.tsx:68-72 | replacing a row by the server's record with the same id keeps the displayed ids |
| AdminPage.PatchKeepsIds | src/app/admin/page.tsx:87-93 | the local batch patch keeps the displayed ids |
| AdminPage.PatchMatchesStore | src/app/admin/page.tsx:87-93 | the local batch patch agrees with the store's update when both read the same time |
| AdminPage.RemoveMatchesStore | src/app/admin/page.tsx:112-114 | the local delete leaves exactly the documents the store keeps, in the store's order |
| AdminPage.AdminView.constructor | src/app/admin/page.tsx:20-31 | no rows, no selection, page 1, the "all" tab, no error, pagination 1 of 1 with limit 10 |
| AdminPage.AdminView.ApplyFetch | src/app/admin/page.tsx:33-54 | a fetched page replaces the rows and counts and clears the error; a failed fetch keeps them and shows the error |
| AdminPage.AdminView.StatusChange | src/app/admin/page.tsx:60-77 | a success replaces the row with the server's record and keeps the error; a failure only sets the error |
| AdminPage.AdminView.BatchUpdate | src/app/admin/page.tsx:79-105 | a success patches the listed rows and clears the selection and the error; a failure only sets the error |
| AdminPage.AdminView.BatchDelete | src/app/admin/page.tsx:107-126 | a success removes the listed rows and clears the selection and the error; a failure only sets the error |
| AdminPage.AdminView.SelectRequest | src/app/admin/page.tsx:128-134 | the selection is toggled at that id, and it still holds only displayed rows when the row was displayed |
| AdminPage.AdminView.SelectAll | src/app/admin/page.tsx:136-142 | the selection becomes `SelectAllOf` the old selection and the rows; nothing else changes |
| AdminPage.AdminView.PageChange | src/app/admin/page.tsx:144-147 | the page is set and the selection cleared; the tab, the rows and the error stay |
| AdminPage.AdminView.StatusTabChange | src/app/admin/page.tsx:149-153 | the tab is set, the page reset to 1 and the selection cleared |

## Left out

- Connecting to the database, reading the JSON body, and the catch-all 500 answers for store or transport failures. A body that is not JSON makes `request.json()` throw, which the source answers with 500.
- Partial application of a batch when the store fails midway. Also races between sessions (last write wins).
- GET's `find` and `countDocuments` run concurrently and could see different states. The model reads one snapshot.
- The batch schemas and `PAGINATION_PAGE_SIZE` live in modules that are not part of this model.
  - The batch handlers receive the parsed body, or `None` when the schema refused it.
  - The page size is the constant 10. Every pagination property is proved for any positive limit.
- RequestRoute.Patch: a malformed identifier makes mongoose throw a cast error (500). The model treats every id as a plain string, so such an id is answered 404.
- BatchRoute.BatchPatch and BatchRoute.BatchDelete: a malformed identifier in the list throws the same cast error in the source (500). Here it is an unknown id.
- RequestSchemas.ParseCreateBody: lengths are counted in characters. JavaScript counts UTF-16 code units, so a character outside the Basic Multilingual Plane counts once here and twice there. The same holds for RequestModel.Cast.
- Text.NumberOf: only blank text and optionally signed decimal digit strings become integers. The source's `Number` also accepts `2.0`, exponents, hexadecimal and binary literals, and `Infinity`; here all of these are refused as not integers. Precision loss beyond 2^53 is not modelled either.
- RequestRoute.SortByDate: the store does not specify the order of documents with equal creation dates. The model keeps such documents in insertion order.
- Identifier assignment. PUT receives the new id as a parameter. An id already taken stands for a duplicate-key error (500).
- Dates are natural numbers.
  - The server's and the page's clocks are separate parameters. AdminPage.PatchMatchesStore relates them only when they agree.
  - `lastEditedDate >= createdDate` is not an invariant of the model. The code never compares the two clocks.
- Page UI:
  - The `loading` flag, the confirmation dialog before a batch delete, console logging, and rendering.
  - The effect that refetches on a page or tab change. AdminView.ApplyFetch takes the fetch's outcome; the query that fetch sends is `PageQuery` and `StatusQuery` of the current page and tab.
  - The guards against empty selections in the batch buttons. The handlers accept any list.
