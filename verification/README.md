# Video converter queue, modelled in Dafny

The system is a small moderation console for a video conversion queue:

- A Go backend keeps a `videos` table in PostgreSQL and an in-memory set of processed paths.
- It lists the `.mp4` files under `./videos` that are not yet queued.
- It queues a file with the chosen resolution and bitrate, with status `pending`.
- It changes a row's status.
- It serves the queue one page at a time. The rows are ordered by status rank (processing, pending, completed, other), then by path. Each page is grouped into three status buckets.
- Two Next.js pages drive it:
  - the moderation page walks through the unprocessed videos one at a time;
  - the queue page shows status cards, a table of the current page and a pager.

The model replaces the database with an in-memory table `seq<Video>` that has a primary-key invariant. The handlers become pure functions from state to state and response. The two pages become state machines over their React state.

Modules:

- `Wrappers`: `Option` and `Result`.
- `Videos`:
  - the `Video` row and the response shapes;
  - the status rank;
  - `Find`, the id-to-row view of a table.
- `Collation`: code-point string order, proved to be a total order.
- `GoPath`: `filepath.Ext` and `filepath.Base` on `/`-separated paths.
- `Ordering`: the `ORDER BY` key, insertion sort, and the proof that sorting depends only on which rows there are.
- `Pagination`:
  - parameter normalisation and the ceiling page count;
  - the offset;
  - the 64-bit wrap-around of the offset as the handler writes it.
- `QueueQuery`: `getQueue` (filter, count, sort, window, grouping), with the grouping loop as a method.
- `Store`: `addToQueue`, `updateVideoStatus`, `refreshProcessedPathsCache` and `getUnprocessedVideos`, with their loops as methods. It also proves that the cache stays equal to the set of table paths.
- `Moderation`: the moderation page (`fetchUnprocessedVideos`, `handleProcessVideo`).
- `QueueView`: the queue page (cards, filter, status counts, table rows, empty state, colours).
- `Flows`: end-to-end steps across the page and the backend.

The model shows two things about the system:

- The video id is the file name. Two files with the same name in different directories therefore get the same id:
  - queueing the first one removes both from the moderation page;
  - the second is refused as a duplicate key;
  - the second's path never enters the cache, so it is listed again on every load and can never be queued (`Flows.SharedFileNameBlocksSecondVideo`).
- The moderation page drops a video whatever the backend answers, a refused request included (`Moderation.ProcessIgnoresResponseStatus`, `Flows.RejectedVideoIsDroppedAnyway`).

## Model

| member | source | states |
|---|---|---|
| Videos.Rank | backend/main.go:189-193 | The sort rank is 1 exactly for processing, 2 exactly for pending and 3 exactly for completed. It is 4 exactly for every other status. |
| Videos.Find | backend/main.go:63-70 | A found row is in the table and has the id. Nothing is found exactly when no row has the id. |
| Videos.FindReturnsTheRow | backend/main.go:64 | Under the primary key, looking up a row's id returns that row. |
| Videos.RowCountFromFind | backend/main.go:64 | Under the primary key, a row occurs once when its id leads to it and otherwise not at all. So the id-to-row view determines the table up to order. |
| Collation.StrLeTotal | backend/main.go:193 | Any two paths are comparable. |
| Collation.StrLeTransitive | backend/main.go:193 | Path order is transitive. |
| Collation.StrLeAntisymmetric | backend/main.go:193 | Two paths that each sort no later than the other are equal. |
| Ordering.KeyLeTotal | backend/main.go:189-193 | Any two rows are comparable by (rank, path, id). |
| Ordering.KeyLeTransitive | backend/main.go:189-193 | The row order is transitive. |
| Ordering.KeyLeAntisymmetric | backend/main.go:189-193 | Rows that each may precede the other agree on rank, path and id. |
| Ordering.Insert | backend/main.go:189-193 | Inserting into a sorted sequence gives a sorted sequence holding the old rows plus the new one. |
| Ordering.Sort | backend/main.go:189-193 | The result is a sorted permutation of the rows. |
| Ordering.SortedArrangementIsUnique | backend/main.go:189-193 | Two sorted arrangements of the same rows are equal when an id picks out one row. |
| Ordering.SortDependsOnlyOnRows | backend/main.go:189-193 | Sorting two arrangements of the same rows gives the same sequence. |
| Ordering.SortedByRankThenPath | backend/main.go:189-193 | In sorted rows, rank never decreases. Within one rank, path never decreases. |
| GoPath.ExtIsMp4Exactly | backend/main.go:118 | The extension is ".mp4" exactly when the path ends with ".mp4". |
| GoPath.Base | backend/main.go:133 | The base is never empty. It contains no separator unless it is "/". |
| GoPath.BaseOfFileName | backend/main.go:133 | The base of `dir/name` is `name`, for any directory. |
| Pagination.Normalize | backend/main.go:161-166 | A page below 1 becomes 1 and other pages are kept. A size outside 1..100 becomes 10 and other sizes are kept. |
| Pagination.NormalizeIsIdempotent | backend/main.go:161-166 | Normalising a normalised pair changes nothing. |
| Pagination.PageCount | backend/main.go:230 | `pages` is the ceiling of total / pageSize: enough pages for every row, no spare page, and 0 for no rows. |
| Pagination.OffsetCountsEarlierPages | backend/main.go:168 | The offset is a whole number of pages: it is the page number minus one, times the size. |
| Pagination.OffsetPastLastPage | backend/main.go:168 | A page past `pages` starts at or after the last row. |
| Pagination.PageOfRow | backend/main.go:168 | Row i sits at position i mod size on page i div size + 1, which is within `pages`. |
| Pagination.WrapInt64 | backend/main.go:168 | The result is a 64-bit value congruent to the input modulo 2^64, and equal to the input when the input fits. |
| Pagination.OffsetAsWritten | backend/main.go:168 | The 64-bit offset agrees with the true offset whenever the true offset fits in 64 bits. |
| Pagination.OffsetWrapsOnHugePage | backend/main.go:168 | Page 2^62+1 with size 4 has a true offset of 2^64, which wraps to 0. |
| QueueQuery.WithStatus | backend/main.go:175-177 | Every kept row has the status, and no more rows are kept than given. |
| QueueQuery.WithStatusCount | backend/main.go:175-177 | The filter keeps each row of the status as often as it occurs, and no other row. |
| QueueQuery.WithStatusAppend | backend/main.go:213-222 | Filtering a concatenation is the concatenation of the filtered parts, so relative order is kept. |
| QueueQuery.UnbucketedCount | backend/main.go:213-222 | The rows the grouping drops are exactly those whose status is not a bucket status. |
| QueueQuery.Matching | backend/main.go:171-177 | With a non-empty filter every selected row has that status. |
| QueueQuery.MatchingCount | backend/main.go:171-177 | The empty filter selects every row. A non-empty filter selects each row of that status as often as it occurs, and nothing else. |
| QueueQuery.Window | backend/main.go:194 | The window holds at most `size` rows, copied in order from position `offset` on. It is empty at or past the end, and otherwise holds as many rows as are left, up to `size`. |
| QueueQuery.PageRows | backend/main.go:187-203 | The page holds at most pageSize rows, is sorted, comes from the filtered rows, and is empty when the offset reaches the filtered count. |
| QueueQuery.GetQueue | backend/main.go:153-233 | Page and size are normalised and echoed. Both totals are the filtered count. `pages` is the ceiling. Each bucket is the page's rows of its status, in page order. The buckets plus the rows of other statuses hold each page row exactly as often as the page does. The buckets together hold at most pageSize rows. |
| QueueQuery.BucketsPartitionRows | backend/main.go:213-222 | The buckets plus the dropped rows hold each page row exactly as often as the page does. Nothing is dropped exactly when every status is a bucket status. |
| QueueQuery.GroupRows | backend/main.go:206-222 | The append loop builds exactly the three filtered buckets and carries the total. |
| QueueQuery.MatchingHasUniqueIds | backend/main.go:175-181 | Under the primary key, the filtered rows never hold two different rows with one id. |
| QueueQuery.PageIsWindowOfSortedRows | backend/main.go:187-196 | For any sorted arrangement of the filtered rows, the page is its stretch from the offset, up to pageSize rows. It is empty past the end. |
| QueueQuery.RowOnItsPage | backend/main.go:168-194 | Every filtered row appears, at its sorted position, on a page within `pages`. |
| QueueQuery.PageBeyondLastIsEmpty | backend/main.go:168-233 | A page past `pages` has no rows and empty buckets, and still reports the filtered total. |
| QueueQuery.FilterSelectsOneBucket | backend/main.go:175-222 | Under a bucket-status filter, that bucket is the whole page and the other two are empty. Under any other filter every bucket is empty. The total counts the rows of that status. |
| QueueQuery.QueueDependsOnlyOnRows | backend/main.go:179-203 | Two tables with the same id-to-row view give the same response, whatever their storage order. |
| QueueQuery.SecondPageOfTwentyFive | backend/main.go:161-230 | With 25 rows and size 10, page 2 holds sorted rows 11 to 20 and there are 3 pages. |
| QueueQuery.PageRowsAsWritten | backend/main.go:168-196 | The page computed with the 64-bit offset equals the true page whenever the true offset fits. |
| QueueQuery.HugePageWrapsToFirstPage | backend/main.go:168-194 | `page=4611686018427387905&pageSize=4` returns the first rows of a non-empty table. The overflow-free page is empty. |
| Store.PathsOf | backend/main.go:91-105 | A path is in the set exactly when some row has it. |
| Store.RefreshCache | backend/main.go:89-106 | The rebuilt cache holds exactly the table's paths, and the table is unchanged. |
| Store.LoadPaths | backend/main.go:98-105 | The scan loop yields exactly the set of row paths. |
| Store.FindAfterAppend | backend/main.go:257-260 | After an append, old ids still find their rows and the new id finds the new row. |
| Store.AddToQueue | backend/main.go:249-271 | It fails exactly when the id is taken, and then changes nothing. On success it echoes the request, adds exactly one pending copy of it, adds its path to the cache and changes no other id's row. |
| Store.SetStatusView | backend/main.go:285 | The row with the id takes the status and every other lookup is unchanged. An unknown id leaves the table as it was. |
| Store.UpdateVideoStatus | backend/main.go:273-292 | Only the status of the row with that id changes. The length and the cache are kept. An unknown id changes nothing. |
| Store.RefreshMakesConsistent | backend/main.go:89-106 | After a rebuild the cache equals the table's paths. |
| Store.HandlersKeepConsistency | backend/main.go:249-292 | Both handlers keep the primary key and keep the cache equal to the table's paths. |
| Store.VideoPathsExactly | backend/main.go:114-122 | A path is collected exactly when a walked non-directory has it and it ends with ".mp4". |
| Store.Unlisted | backend/main.go:130-140 | Every listed entry is an unprocessed entry built from a discovered path that is not cached. |
| Store.UnlistedAppend | backend/main.go:130-140 | The filter distributes over concatenation, so discovery order is kept. |
| Store.UnlistedExactlyUncached | backend/main.go:130-140 | A path is listed exactly when it was discovered and is not cached. |
| Store.FilterUnprocessed | backend/main.go:129-140 | The filter loop yields exactly the unlisted entries, in order. |
| Store.GetUnprocessedVideos | backend/main.go:108-143 | A walk error gives an error and nothing else does. Every listed video is "unprocessed", uncached and ends with ".mp4", and its id is the path's base. |
| Store.ListedIffNotInTable | backend/main.go:129-140 | With a consistent cache, a discovered video is listed exactly when no row has its path. |
| Moderation.OnFetched | app/page.tsx:41-57 | A response replaces the list. The first video becomes current only when none is current and the list is non-empty. A thrown fetch changes nothing. The selections are kept. |
| Moderation.WithoutIdCount | app/page.tsx:77-79 | Removal drops every entry with the id and keeps every other entry as often as it occurs. |
| Moderation.WithoutIdAppend | app/page.tsx:77-79 | Removal distributes over concatenation, so the order is kept. |
| Moderation.Process | app/page.tsx:59-89 | Without a current video or with an empty selection, nothing is posted and nothing changes. Otherwise the current video is posted with the selections and status pending. A throw leaves the state. Any resolved answer removes the id, makes the head current and resets both selections to "Original". |
| Moderation.ProcessIgnoresResponseStatus | app/page.tsx:62-84 | The next state is the same whatever HTTP status the backend answers with. |
| Moderation.ProcessRemovesCurrent | app/page.tsx:76-82 | After processing no entry has the processed id, and other entries keep their counts. The new current video is another listed one. The list shrinks when the current video was in it. |
| Moderation.FetchedListHasCurrent | app/page.tsx:47-50 | After a non-empty fetch some video is current, taken from the list when none was current before. |
| QueueView.ToLower | app/queue/page.tsx:140-145 | Lower-casing keeps the length and leaves no ASCII capital. Each capital becomes the same letter in lower case, and every other character is kept. |
| QueueView.StatusFilterSelects | app/queue/page.tsx:64-66 | Under "all" the backend selects every row. Under any other non-empty selection it selects exactly the rows with that status. |
| QueueView.PressCardSelectsItsStatus | app/queue/page.tsx:136-147 | A card press selects the lower-cased title and goes back to page 1. The pressed card becomes the only highlighted one. The request asks for page 1 of that status, or of every status for "All". |
| QueueView.ChangePageKeepsFilter | app/queue/page.tsx:57-67 | Turning the page keeps the selection and the highlight. The next request asks for that page under the same filter. |
| QueueView.DisplayedRowsAreTheBuckets | app/queue/page.tsx:113-125 | The table is pending, then processing, then completed, each in server order. The empty state shows exactly when all three buckets are empty. |
| QueueView.ShownPage | app/queue/page.tsx:93-98 | `statusCounts.all` is the filtered total. The three bucket counts add up to at most 10. The table holds the page's rows except the unbucketed ones. Outside the empty state the cards show exactly these counts and the table shows exactly these rows. |
| QueueView.BucketRowsShowBucketColor | app/queue/page.tsx:80-91 | Pending rows are drawn "warning", processing rows "primary" and completed rows "success". No displayed row is drawn "default". |
| QueueView.BucketFilterShowsPage | app/queue/page.tsx:61-71 | Under a bucket filter the table is exactly the requested page of that status. |
| QueueView.PressedBucketShowsOnlyIt | app/queue/page.tsx:144-147 | After a bucket card press the table is page 1 of that status, and "All" counts that status's rows. |
| QueueView.Render | app/queue/page.tsx:113-215 | The page draws only the "No videos in queue" card exactly when all three buckets are empty. Otherwise it draws the cards, a non-empty table and the pager. |
| QueueView.CountedButNotShown | app/queue/page.tsx:113-125 | For a table whose only row is "failed", `statusCounts.all` is 1. Yet only the "No videos in queue" card is drawn, so no count is on screen. |
| QueueView.EmptyBucketHidesControls | app/queue/page.tsx:115-147 | Pressing a bucket card whose status has no rows leads to the "No videos in queue" card alone. No card or pager is left to press. |
| QueueView.StatusColor | app/queue/page.tsx:80-91 | The colour is "warning" exactly for pending, "primary" exactly for processing and "success" exactly for completed. It is "default" exactly for every other status. |
| QueueView.SortPendingProcessing | backend/main.go:189-193 | A processing row sorts before a pending row. |
| QueueView.GroupProcessingPending | backend/main.go:213-222 | Grouping puts each of the two rows in its own bucket. |
| QueueView.DisplayOrderDiffersFromServerOrder | app/queue/page.tsx:113 | The server sends processing before pending, but the table lists pending first. |
| Flows.ProcessedVideoIsQueued | app/page.tsx:59-84 | Processing a new video queues it with the chosen parameters and keeps the backend consistent. The video leaves the unprocessed list and the pending count grows by one. |
| Flows.RejectedVideoIsDroppedAnyway | app/page.tsx:62-84 | A duplicate id is refused and the backend is unchanged, yet the page drops the video. An uncached path is listed again on the next load. |
| Flows.SameNameSameId | backend/main.go:133 | Files with one name in two directories have two paths but one id. |
| Flows.SecondIsRefused | backend/main.go:257-268 | After the first of two same-id videos is queued, the second is refused and its path stays out of the cache. |
| Flows.SharedFileNameBlocksSecondVideo | backend/main.go:130-139 | Processing the first of two same-named files removes both from the page. The second is refused and its path stays uncached. |

## Left out

- Database, environment and DDL: connecting, creating the table and indexes, and `log.Fatal` on failure. The table is the in-memory `seq<Video>`.
- HTTP plumbing: Gin routing, CORS, JSON and query binding with the 400 responses for malformed input, and the JSON encoding of responses. Parameters arrive already typed.
- Database and scan errors: the 500 responses for a failed count or query, and rows skipped when scanning fails. The only database error modelled is the duplicate key of `addToQueue`, plus the negative `OFFSET` of the as-written page.
- Concurrency: handlers running at once over the unsynchronised `processedPaths` map. Every handler is one atomic step.
- The directory walk and `os.Stat`: the walked entries, or the walk error, are an input. The file-size lookup is a function parameter, and a failed lookup gives 0.
- React rendering: spinners, the `loading` flag, the MB rounding, the video element, the "Videos remaining" text and `app/layout.tsx`. For the queue page the model states only which elements appear (`QueueView.Render`), not their layout or styling. The tab lists and their `onSelectionChange` handlers are also left out, so any selection string is allowed.
- Moderation.OnFetched: a response body that is not an array (the backend's error object) is not modelled. Only an array, or a throw, is.
- Moderation.Process: reads the state at the moment of the press. It does not model React's asynchronous state updates, or a second press before the first `fetch` resolves.
- QueueQuery.Matching: the status filter is string equality. The source splices it into the SQL text, so a quote in it gives a database error or changes the query.
- Ordering.KeyLe: paths compare by code point, as the "C" collation orders them; a database with another collation may order paths differently. Rows with equal rank and path are ordered by id, where PostgreSQL leaves their order unspecified.
- Pagination.PageCount: does not model 64-bit overflow of `total + pageSize - 1`. That needs a filtered count within 100 of 2^63.
- Videos.Video: `originalSize` is an unbounded `int` rather than Go's `int64`, and it is only copied, never computed.
- Store.UpdateVideoStatus: the response body `{"status": "updated"}`, which is sent for known and unknown ids alike, is not modelled.
- QueueView: the pager's bounds and the `paginationInfo` state are not modelled. The page number the pager sets is an input.

## Findings

| source | as written | input that shows it | evidently intended | confidence | as-written member | corrected member |
|---|---|---|---|---|---|---|
| backend/main.go:168 | `offset := (params.Page - 1) * params.PageSize` is computed in 64-bit `int` and wraps around for a huge page number. | `GET /api/queue?page=4611686018427387905&pageSize=4` on a non-empty table: the offset wraps to 0 and the first four rows come back. | A page past the last one returns no rows. | not executed | QueueQuery.HugePageWrapsToFirstPage | QueueQuery.PageBeyondLastIsEmpty |
