# Archive catalog store

A model of the in-memory store behind the archive's HTTP server
(`server.js`). That store is a single record. It holds sequences of
documents, collections, news items, gallery items, research requests,
contact messages, notifications and newsletter subscribers, plus the
analytics and settings records. Each route handler reads the record and
finds a record by id. It then appends, splices out, merges over or bumps
a counter, and writes the record back. An absent id gives "not found"
and changes nothing.

The model has these modules:

- `Base`: `Option` and JavaScript's `||` defaulting.
- `JsStrings`: the string `<`, `toLowerCase`, `includes`, `join`, decimal `parseInt`, and the regex class `\s`.
- `Sequences`: `filter`, `find`/`findIndex`, `splice`, and `slice` with negative bounds.
- `Sorting`: a stable sort by a comparator. It is proved to give a permutation that is ordered and that keeps tied elements in order.
- `Catalog`: the entities, the request bodies, and the record-building and object-spread merges.
- `Listing`: the public read routes. This covers the document listing with its filters, sort and pagination, the news page, and collections. It also covers the gallery and the notification feeds.
- `Reports`: the bounded search log, the analytics overview, the keyword-trend table and the statistics.
- `Backups`: the backup rotation of `writeDatabase`, over a directory modelled as a set of names.
- `Archive`: the `Store` class, with one method per route that changes the store.

### Behaviour the model keeps as written

- `limit` and `offset` go through `parseInt(x) || default`. A negative limit is not rejected, so `slice(0, -k)` drops the last `k` matches (`Listing.NegativeLimit`).
- The news `total` counts every stored item. This includes items whose publication time is still to come (`Listing.NewsTotalCountsHidden`).
- A research request's status is set to whatever text the body carries. No transition is checked.
- Only the first registrations of `PUT` and `DELETE /api/notifications/:id` are modelled, because they are the ones that answer. They use a hand-written index loop (`Archive.Store.FindNotification`). The update rebuilds the record and keeps its id, creation time and creator.
- A contact body may carry its own `id`. It is spread after the generated id, so it replaces that id.
- With no dated document, the statistics' year range is `1700 - currentYear`, which is negative.

## Model

| member | source | states |
|---|---|---|
| Base.OrStr | server.js:635-658 | `s \|\| d` on a text field: the default replaces exactly the empty text |
| Base.IntOr | server.js:588-589 | `parseInt(x) \|\| d`: NaN and 0 both give the default, any other number is kept |
| JsStrings.StrLessIrreflexive | server.js:581-582 | no string is below itself under `<` |
| JsStrings.StrLessAsymmetric | server.js:581-582 | `a < b` excludes `b < a` |
| JsStrings.StrLessTransitive | server.js:581-582 | `<` on strings is transitive |
| JsStrings.StrLessTotal | server.js:581-582 | two different strings are ordered one way or the other |
| JsStrings.NotLessIsAtLeast | server.js:570 | `!(a < b)` holds exactly when `a == b` or `b < a`, so it reads as `a >= b` |
| JsStrings.NotLessTransitive | server.js:581-582 | "not below" is transitive, so sorting by `<` is well defined |
| JsStrings.LowerChar | server.js:553 | lower-casing moves A–Z down by 32 and leaves every other character alone |
| JsStrings.Lower | server.js:553 | `toLowerCase` keeps the length and lowers each character |
| JsStrings.LowerIdempotent | server.js:553-557 | lowering twice is lowering once |
| JsStrings.LowerSlice | server.js:555-557 | lowering commutes with taking a block |
| JsStrings.IncludesAt | server.js:555-557 | `includes` holds exactly when the term occurs at some position |
| JsStrings.LowerIncludes | server.js:553-557 | a term found in a text is found, lowered, in the lowered text |
| JsStrings.Join | server.js:581-582 | joining no parts gives "" and one part gives that part |
| JsStrings.JoinSnoc | server.js:581-582 | joining one more part appends the separator and that part, so two or more parts are joined with the separator between each pair |
| JsStrings.DigitRun | server.js:1321 | the length of the leading digit run: all digits, followed by a non-digit or the end |
| JsStrings.SkipSpace | server.js:1321 | exactly the leading white space is dropped: every dropped character is white space, and the rest is a suffix of the input that does not start with white space |
| JsStrings.ParseInt | server.js:1321 | `parseInt` gives a number exactly when a digit follows the white space and optional sign |
| JsStrings.ParseDigits | server.js:1321 | a string of digits parses to its decimal value |
| Sequences.Filter | server.js:547 | `filter` keeps exactly the elements satisfying the predicate and no others |
| Sequences.FilterKeepsBefore | server.js:547 | two kept elements keep their relative order through `filter` |
| Sequences.FilterBeforeBack | server.js:547 | two elements of a filtered list stand in the same order in its input |
| Sequences.FilterAppend | server.js:547 | filtering a list with one more element at the end appends that element exactly when it passes, so the kept elements stay in list order |
| Sequences.Count | server.js:587 | the number of kept elements is at most the length |
| Sequences.FirstIndex | server.js:721 | `findIndex`: -1 when no element has the id, otherwise the first position that does |
| Sequences.Find | server.js:606 | `find`: present exactly when some element has the id, and then it is the first such element |
| Sequences.AppendFresh | server.js:660 | pushing a record with a new id keeps ids unique, and the id then finds that record |
| Sequences.AppendAllFresh | server.js:1112 | pushing several records with new, distinct ids keeps ids unique |
| Sequences.RemoveAt | server.js:751 | `splice(i, 1)` removes one element and shifts the rest down by one |
| Sequences.DeleteAbsent | server.js:744-748 | deleting an absent id changes nothing |
| Sequences.DeletePresent | server.js:744-751 | deleting a present id removes exactly the first record with it and keeps the rest in order |
| Sequences.DeleteUnique | server.js:751 | with unique ids, nothing with the deleted id remains and ids stay unique |
| Sequences.ReplaceSameKey | server.js:727-732 | assigning at an index a record with the same id changes that position only and keeps ids unique |
| Sequences.SliceBound | server.js:590 | a `slice` bound counts from the end when negative and is clamped to the length |
| Sequences.Slice | server.js:590 | `slice(b, e)` is the block between the two resolved bounds, or empty |
| Sequences.SliceMembers | server.js:590 | a slice holds only elements of what was sliced |
| Sequences.SliceWindow | server.js:588-590 | with offset ≥ 0 and limit > 0 the page is the window `[offset, offset+limit)`, cut at the end |
| Sequences.SliceDropLast | server.js:590 | `slice(0, -k)` keeps every element but the last k |
| Sequences.Page | server.js:588-590 | a page holds only listed elements; for start ≥ 0 and length > 0 it is the window from the start, cut at the end; for start 0 and a negative length it drops that many from the end; in every case it is `slice(start, start + n)` with JavaScript's bound rules |
| Sequences.Last | server.js:410 | `slice(-n)` is the last `n` elements, or all of them when there are fewer |
| Sequences.DistinctPermutation | server.js:333 | a permutation of a list without repetitions has none either |
| Sorting.Insert | server.js:580-584 | one insertion step adds exactly one element |
| Sorting.SortBy | server.js:580-584 | the sort keeps the length and the multiset of elements |
| Sorting.SortByMembers | server.js:580-584 | the sort neither adds nor drops an element |
| Sorting.SortBySorted | server.js:580-584 | under a strict weak order, no sorted element is before an earlier one |
| Sorting.SortByKeepsSorted | server.js:580-584 | a list already in order is left as it is |
| Sorting.SortByStable | server.js:580-584 | tied elements keep their original relative order |
| Sorting.StableTies | server.js:580-584 | two tied elements of the sorted list stand in the same order in the input |
| Catalog.NewDocument | server.js:635-658 | a new document has zero views and downloads, the given id, creator and time, the body's text fields, the empty date range when none is given, and access `Public` and copyright `Unknown` when the body leaves them empty |
| Catalog.MergeDocument | server.js:727-732 | the path id and the time override; every other field takes the body's value when the body names it and keeps its stored value otherwise |
| Catalog.MergeTwice | server.js:727-732 | two merges are one merge with the later body laid over the earlier |
| Catalog.NewCollection | server.js:851-860 | a new collection has the given id and creation time and every body field: name, description, date range, flag, count and cover image |
| Catalog.MergeCollection | server.js:882-886 | the path id overrides; every other field takes the body's value when named and is kept otherwise |
| Catalog.NewNewsItem | server.js:956-965 | the body's text and flag are copied; the publication time defaults to now and the author to `Archives Team` |
| Catalog.MergeNews | server.js:985-989 | the path id overrides; every other field takes the body's value when named and is kept otherwise |
| Catalog.NewGalleryItem | server.js:1101-1110 | the title falls back to the file name, the description is the form's, published only for the text `true`, url and thumbnail under `/uploads/documents/`, no update time |
| Catalog.EditGalleryItem | server.js:1131-1137 | the title, description and published flag come from the edit, the update time is stamped, and every other field is kept |
| Catalog.NewRequest | server.js:1177-1190 | a new request is `pending` with no messages, both times set to now, and all seven body fields copied |
| Catalog.NewMessage | server.js:1020-1025 | the body's id, when it carries one, replaces the generated id; name, email, phone, subject and message come from the body; the message starts unread at the current time |
| Catalog.NewNotification | server.js:1534-1544 | a new notification is published unless the body says `false`; its type and link text are the body's or the `info` and `View` defaults; title, message and link come from the body; no update time |
| Catalog.ReplaceNotification | server.js:1420-1431 | the rebuilt record keeps id, creation time and creator, takes type, title, message and link from the body, link text from the body or `View`, published only for `true`, and the update time |
| Catalog.MergeSettings | server.js:1641 | `{ ...settings, ...body }`: every field takes the body's value when named and is kept otherwise |
| Listing.CandidatesMatch | server.js:547-575 | the chain of filters equals one filter by "published and every supplied condition" |
| Listing.DocOrderIsStrictWeak | server.js:578-584 | the comparator on any field, in either direction, is a strict weak order |
| Listing.OrderedMatches | server.js:547-584 | every sorted document is a stored, published document that meets every filter |
| Listing.ListDocuments | server.js:586-597 | `total` is the number of matches before paging; the page holds only matches; the offset and limit echo the defaults 0 and 20 |
| Listing.ListingOrder | server.js:578-584 | the sorted list is a permutation of the matches, ordered on the field (ascending only for `asc`), and stable |
| Listing.ListingMembers | server.js:547-584 | a document is listed exactly when it is stored and matches |
| Listing.ListingPage | server.js:586-590 | for offset ≥ 0 and limit > 0 the page is the window of the sorted list |
| Listing.NegativeLimit | server.js:589-590 | a negative limit `-k` drops the last `k` matches |
| Listing.UnknownFieldTies | server.js:580-584 | on a field no document has, nothing sorts before anything |
| Listing.UnknownSortField | server.js:578-584 | sorting on such a field leaves the matches in store order |
| Listing.SearchFindsTitle | server.js:552-557 | a title containing the search text as typed still passes once both sides are lowered |
| Listing.NoFilterListsPublished | server.js:547 | with no filter, `total` is the number of published documents |
| Listing.ListNews | server.js:914-928 | only items due by now are listed; for offset ≥ 0 and limit > 0 (default 0 and 10) the page is the window `[offset, offset+limit)` of the due items, and `total` is the size of the whole list |
| Listing.NewsNegativeLimit | server.js:921-925 | a negative limit `-k` with no offset lists every due item but the last k |
| Listing.NewsTotalCountsHidden | server.js:917-927 | with an item still to come, `total` exceeds the number of visible items |
| Listing.ListCollections | server.js:806-810 | `featured=true` keeps exactly the featured collections, as `Filter`, so in store order; otherwise all are returned |
| Listing.CollectionDetail | server.js:823-834 | not found exactly when the id is absent; otherwise the stored record `find` returns, with exactly the published documents of that collection in store order |
| Listing.PublicGallery | server.js:1085-1087 | exactly the published gallery items, as `Filter`, so in store order |
| Listing.NewestFirstIsStrictWeak | server.js:1507-1509 | newest-first on creation time is a strict weak order |
| Listing.FeedOrder | server.js:1507-1509 | sorting the published notifications loses or adds none and leaves them newest first |
| Listing.PublicNotifications | server.js:1500-1509 | the loop collects exactly the published notifications, which are then ordered newest first, with equal creation times in store order |
| Listing.AdminNotifications | server.js:1352-1374 | a signed-in caller gets every notification newest first, with equal creation times in store order; anyone else an empty list |
| Reports.RecordSearch | server.js:404-411 | the entry is appended; the log then holds `min(n+1, 1000)` entries, the most recent ones |
| Reports.RecordSearchBelowLimit | server.js:404-411 | below 1000 entries the log grows by exactly the new entry |
| Reports.RecordSearchAtLimit | server.js:404-411 | at 1000 entries the oldest is dropped |
| Reports.OverviewOf | server.js:1241-1253 | the totals are the collection sizes and counters; the monthly count equals the total exactly when every document is newer than a month, and is 0 exactly when none is; pending is 0 exactly when no request is pending |
| Reports.UploadCountsMonthly | server.js:1246-1251 | one more document raises the monthly count by one exactly when it was created after the month-ago moment |
| Reports.MonthlyNone | server.js:1246-1251 | no upload counts for the month exactly when no document is newer than the month-ago moment |
| Reports.PendingNone | server.js:1252 | no request counts as pending exactly when none has the status `pending` |
| Reports.SubmitAddsPending | server.js:1177-1192 | a submitted request raises the pending count by one |
| Reports.ResolveRemovesPending | server.js:1222-1223 | moving a pending request to another status lowers the pending count by one |
| Reports.Keywords | server.js:1279 | one keyword per logged search, its query lowered, or empty when it has none |
| Reports.Occurrences | server.js:1278-1283 | a keyword is counted no more often than there are logged searches |
| Reports.BumpOrder | server.js:1281 | counting one more keyword keeps the keys in first-seen order: a new key goes last |
| Reports.TallyCorrect | server.js:1277-1283 | the running tally's keys are exactly the non-empty keywords, each listed once in first-seen order with its true number of occurrences |
| Reports.ByCountDescendingIsStrictWeak | server.js:1288 | "larger count first" is a strict weak order |
| Reports.CountKeywords | server.js:1277-1283 | the table's keys are exactly the non-empty lowered queries, each counted exactly, and listed once in first-seen order |
| Reports.Rows | server.js:1286-1287 | one row per key, carrying its count |
| Reports.TiesFirstSeen | server.js:1285-1287 | rows with equal counts come out of the sort in the order their keywords were first seen |
| Reports.SearchTrends | server.js:1277-1288 | every row is a non-empty keyword of the log with its true count, every non-empty keyword has exactly one row, rows are ordered by count descending, and rows with equal counts follow the first occurrence of their keywords in the log |
| Reports.YearRange | server.js:1316-1325 | the year range starts at [current year, 1700], covers every parsed year, and each end is its start value or some document's year |
| Reports.ComputeStats | server.js:1298-1327 | published, photograph and manuscript counts; the width of the year range, whose ends cover every document year and are each the start value or some document's year, so `1700 - currentYear` when no document has a year |
| Backups.NameOrderIsStrictWeak | server.js:333 | the default string sort order is a strict weak order |
| Backups.RetainedCount | server.js:331-337 | only listed names are kept, and exactly 7 of them once there are more |
| Backups.RetainedGreatest | server.js:333-336 | every removed name sorts before every kept name |
| Backups.NewestKept | server.js:327-336 | the greatest name, the newest backup, always survives |
| Backups.BackupDir.constructor | server.js:322-326 | the directory starts with the given names |
| Backups.BackupDir.Copy | server.js:327-328 | the copy adds the new backup's name |
| Backups.BackupDir.Unlink | server.js:335 | an unlink removes exactly one name |
| Backups.BackupDir.Prune | server.js:331-337 | the loop unlinks the first `length - 7` sorted names, leaving the retained set |
| Backups.BackupDir.Backup | server.js:322-337 | after copy and prune, min(n, 7) files remain and a newest name is among them |
| Archive.ValidEmailShape | server.js:676 | an accepted address has exactly one `@` with text on both sides and no white space |
| Archive.NewGalleryItems | server.js:1101-1110 | one item per uploaded file, in order, each the NewGalleryItem record built from its id, its file, the form and the time |
| Archive.Store.constructor | server.js:309-317 | the store holds the given record |
| Archive.Store.TrackAnalytics | server.js:392-419 | a view or download adds one to its total; a search with data is logged and trimmed; anything else changes nothing |
| Catalog.Viewed | server.js:612-613 | a view raises the view counter by one and changes no other field |
| Catalog.Downloaded | server.js:769-771 | a download raises the download counter by one and changes no other field |
| Archive.Store.ViewDocument | server.js:604-622 | a published document gains one view and the view total one; otherwise not found and no change |
| Archive.Store.CreateDocument | server.js:624-670 | exactly one new document is appended; with a new id, ids stay unique and the id finds it |
| Archive.Store.UpdateDocument | server.js:718-739 | the first match is replaced by the merge; an absent id changes nothing |
| Archive.Store.DeleteDocument | server.js:741-759 | the first match is spliced out; found exactly when present; with unique ids none is left |
| Archive.Store.DownloadDocument | server.js:761-779 | any existing document gains one download and the download total one |
| Archive.Store.Subscribe | server.js:672-707 | a malformed or already subscribed address is refused with no change; otherwise one active subscriber is appended, and addresses stay unique |
| Archive.Store.CreateCollection | server.js:840-871 | exactly one new collection is appended |
| Archive.Store.UpdateCollection | server.js:873-893 | the first match is replaced by the merge; an absent id changes nothing |
| Archive.Store.DeleteCollection | server.js:895-912 | the first match is spliced out; an absent id changes nothing |
| Archive.Store.NewsDetail | server.js:933-946 | found exactly when the id is stored, whatever the publication time |
| Archive.Store.CreateNews | server.js:948-974 | exactly one new item is appended |
| Archive.Store.UpdateNews | server.js:976-996 | the first match is replaced by the merge; an absent id changes nothing |
| Archive.Store.DeleteNews | server.js:998-1015 | the first match is spliced out; an absent id changes nothing |
| Archive.Store.SubmitContact | server.js:1017-1034 | exactly one message is appended |
| Archive.Store.MarkMessageRead | server.js:1045-1061 | the first message with the id is marked read; an absent id changes nothing |
| Archive.Store.DeleteMessage | server.js:1063-1080 | the first match is spliced out; an absent id changes nothing |
| Archive.Store.UploadGallery | server.js:1093-1120 | one item per file is appended; with new, distinct ids, ids stay unique |
| Archive.Store.EditGallery | server.js:1122-1146 | the first match is replaced by the edit; an absent id changes nothing |
| Archive.Store.DeleteGallery | server.js:1148-1165 | the first match is spliced out; an absent id changes nothing |
| Archive.Store.SubmitRequest | server.js:1167-1201 | exactly one pending request is appended |
| Archive.Store.SetRequestStatus | server.js:1213-1232 | the first match takes any given status text and the time; an absent id changes nothing |
| Archive.Store.FindNotification | server.js:1405-1411 | the loop returns the first position holding the id, or -1 |
| Archive.Store.CreateNotification | server.js:1525-1563 | exactly one notification is appended |
| Archive.Store.UpdateNotification | server.js:1395-1448 | the first match is rebuilt from the body, keeping id, creation time and creator |
| Archive.Store.DeleteNotification | server.js:1450-1488 | the first match is spliced out; an absent id changes nothing |
| Archive.Store.UpdateSettings | server.js:1638-1647 | the settings become the merge of the body over them |

## Left out

- File I/O, JSON, Express routing, sessions, the role checks, bcrypt, login and logout: library and I/O plumbing. Each route is modelled from the point where the store has been read.
- `generateId`, the clock and `req.user`/`req.session`: ids, the current time, the month-ago moment and user ids are parameters.
- Concurrency: the read-modify-write races between asynchronous handlers. The model runs one operation at a time.
- Seed data, logging, the health check, the no-op mark-read endpoints for notifications, and the second (unreachable) `PUT`/`DELETE /api/notifications/:id` registrations.
- The upload endpoint `POST /api/documents/upload`: it only describes the files multer stored and does not touch the store.
- Plain whole-collection reads (`GET` of subscribers, contact messages, research requests and settings): they only return a stored sequence.
- Dates are compared as text. This agrees with `new Date(...)` comparisons only when both sides are in the `toISOString()` form (`YYYY-MM-DDTHH:mm:ss.sssZ`), which is what the server writes. Other well-formed shapes (a bare date, an offset such as `+02:00`) and malformed dates, which compare as NaN, are not modelled.
- String `<` compares Unicode scalar values; JavaScript compares UTF-16 code units. The two orders differ only above U+FFFF.
- JsStrings.Lower: only ASCII letters are lowered, where `toLowerCase` covers all of Unicode.
- JsStrings.ParseInt: decimal only. The `0x` prefix `parseInt` also accepts is not modelled.
- Listing.ListDocuments and Listing.ListNews take `offset` and `limit` as the result of `parseInt` on the query text (None for NaN). The text itself is not parsed there.
- Records are typed. A body field is kept only if the entity has it: object spread would also copy unknown keys. A field copied with no default (`title`, `description`, `published`, …) is modelled as "" or `false` when omitted, not `undefined`.
- Reports.SearchTrends: the table is listed in first-seen order before the sort, while `Object.entries` would list integer-like keys such as `1900` first, in numeric order. So the tie order the model proves differs from the source for such keywords.
- Reports.CountKeywords: the count table is a plain object in the source. A keyword equal to an inherited key (`constructor`, `toString`, `valueOf`, …) starts from a function rather than 0 and its count turns into text, and `__proto__` is never recorded. The model counts every such keyword as an ordinary key.
- Archive.Store.TrackAnalytics: a search whose data has no `query` is logged with "" rather than `undefined`.
- Archive.Store.Valid: uniqueness of ids holds only while the ids passed as `generateId` results are new. The create methods state preservation under that condition, and contact messages are left out because a body may set the id.
