# F1 highlights extraction, modelled in Dafny

The repository collects the videos of one YouTube playlist of Formula 1
highlights and turns them into table rows. Two scripts do this:

- `pipeline.py` is the ETL job. It checks its configuration and walks the
  paginated playlist listing. It keeps the videos whose playlist-item
  `publishedAt` falls in 2024 and resolves them in batches of 50 to
  rows with view, like and comment counters. Then it upserts those rows,
  keyed by `videoId`, into the `f1_highlights` table in one database
  transaction.
- `exportF1.py` is the earlier CSV variant. It walks the whole playlist
  without a date filter, and treats `items` and `statistics` as required
  keys. It applies the 2024 window only to the finished rows.

This project models both scripts as imperative Dafny. Each loop of the
source that appends or reassigns step by step is a `method` with a `while`
or `for` loop, proved against a specification function over its inputs.
The two pure expressions of exportF1.py, the per-page list comprehension
(exportF1.py:21-24) and the DataFrame filter (exportF1.py:59-62), are
functions. The properties the scripts rely on are proved about these
functions as lemmas.

- `Api` (api.dfy): the shapes read from the API and the walk over the
  cursor-paginated listing. The listing endpoint is a finite sequence of
  pages, where the k-th request is answered by `pages[k]`. The walk needs
  `Ends(pages)`: some page carries no continuation token. The detail
  endpoint is a total function from a batch of ids to a response.
- `TextOrder` (text_order.dfy): Python's `<` on `str` and the half-open
  window `[start, end)` both scripts filter on. Dafny's `<` on sequences
  means proper prefix, so the order is defined here.
- `Chunking` (chunking.dfy): the batches `ids[i:i+50]` for `i in range(0, len(ids), 50)`.
- `Pipeline` (pipeline.dfy): `load_env`, `get_playlist_video_ids` and
  `get_videos_details` of pipeline.py.
- `Upsert` (upsert.dfy): `upsert_to_db`. The database is a `Store` class:
  whether the table exists, plus a map from the primary key to the other
  columns.
- `PipelineMain` (pipeline_main.dfy): pipeline.py's `main` wiring.
- `ExportF1` (export_f1.dfy): exportF1.py's two collection functions and
  the date filter in its `main`.

A few points about the behaviour modelled:

- Both `main`s raise `KeyError` when no row is produced. `pd.DataFrame([])`
  has no `publishedAt` column, so `df["publishedAt"]` fails before the store
  is touched or the CSV is written. The model returns `Err(KeyError("publishedAt"))`
  in that case.
- The table's counter columns are PostgreSQL `INTEGER`
  (pipeline.py:84-86). A counter above 2147483647 makes the insert fail.
  `engine.begin()` then rolls the whole transaction back, so that is the
  one failure of the upsert that the model keeps. The store is left as it
  was before the transaction.
- pipeline.py filters on the playlist item's `snippet.publishedAt`, which
  is when the video was added to the playlist. exportF1.py filters on the
  video's own `snippet.publishedAt`. The API's two dates can differ, so the
  model claims no equality between the two scripts' outputs. It proves only
  `ExportF1.ExportKeepsPipelineIds`: the unfiltered export collects every
  id that pipeline.py keeps.

## Model

| member | source | states |
|---|---|---|
| Api.Visited | pipeline.py:35-49 | The pages a `while True ... if not token: break` walk requests: a prefix of the listing. Every page but the last has a continuation token, and when the listing ends the last visited page has none. |
| Api.VisitedUpTo | pipeline.py:47-49 | When pages 0..k-1 carry a token and page k does not, the walk visits exactly pages 0..k. |
| Api.VisitedCovers | exportF1.py:25-27 | A page reached through continuation tokens is one the walk visits. |
| Api.HasNext | pipeline.py:47-48 | Python truthiness of `nextPageToken`: an absent token and an empty token both end the walk, and a token that continues it is non-empty. |
| Api.TokensSent | pipeline.py:34-40 | The `pageToken` of each request: one per visited page, and the first request carries none. |
| Api.TokensSentSnoc | pipeline.py:40 | The next request carries the token of the page before it, or none for the first request. |
| Api.TokensSentChain | pipeline.py:34-47 | One request per visited page: the first carries no token and each later one carries the `nextPageToken` its predecessor returned. |
| Api.Counter | pipeline.py:68-70 | `int(s.get(name, 0))`: an absent counter reads as 0, a present one as its value. |
| Api.RowFrom | pipeline.py:64-71 | The row dictionary: id, title and publishedAt are copied, each counter is `int(s.get(name, 0))` of the statistics object, and an empty statistics object gives three zero counters. |
| TextOrder.Less | pipeline.py:45 | Python's `<` on `str`: nothing is less than the empty string, and the empty string is less than every other; with `LessFirstDiff` and `PrefixLess`, it is the lexicographic order by code point. |
| TextOrder.LessIrreflexive | pipeline.py:45 | No string is less than itself under Python's string order. |
| TextOrder.LessTransitive | pipeline.py:45 | Python's string order is transitive. |
| TextOrder.LessTrichotomy | pipeline.py:45 | Python's string order is total: exactly one of `a < b`, `a == b`, `b < a` holds. |
| TextOrder.LessFirstDiff | pipeline.py:45 | Lexicographic by code point: at the first position where two strings differ, that character decides, whatever their lengths. |
| TextOrder.PrefixLess | pipeline.py:45 | A proper prefix sorts first. |
| TextOrder.InWindow | pipeline.py:45 | `start <= s < end` on Python strings, as the chained comparison evaluates it: nothing is kept below an empty end, and an empty start bounds nothing. |
| TextOrder.InWindowNonEmpty | pipeline.py:45 | A string is kept only when the window is non-empty (`start < end`). |
| TextOrder.WindowHalfOpen | pipeline.py:45 | A window's start is kept exactly when the window is non-empty, and its end is never kept. |
| TextOrder.Year2024HalfOpen | pipeline.py:45 | An item published exactly at `2024-01-01T00:00:00Z` is kept, and one at `2025-01-01T00:00:00Z` is dropped. |
| TextOrder.Year2024Contains | pipeline.py:45 | A mid-year timestamp lies in the 2024 window. |
| TextOrder.WindowConvex | pipeline.py:45 | The window is an interval: a string between two kept strings is kept. |
| Chunking.ChunksFlatten | pipeline.py:56-57 | The batches, concatenated in order, give back the input ids. |
| Chunking.ChunksUnfold | pipeline.py:56-57 | The batches of a non-empty input are its first 50 ids followed by the batches of the rest. |
| Chunking.BatchStartInside | pipeline.py:56 | Every batch index below ceil(n/50) starts inside the input, so no batch is empty. |
| Chunking.ChunksBounded | pipeline.py:56-57 | Every batch holds between 1 and 50 ids. |
| Chunking.ChunksCount | pipeline.py:56 | There are ceil(n/50) batches, so ceil(n/50) detail requests: for non-empty ids, one batch fewer would not cover them and this many do. |
| Chunking.ChunksFull | exportF1.py:32-35 | Every batch but the last holds exactly 50 ids. |
| Chunking.ChunksNext | pipeline.py:56-57 | While the offset 50k is inside the ids, batch k exists and is the slice `ids[50k:50k+50]` sent next. |
| Chunking.ChunksDone | pipeline.py:56 | Once the offset 50k reaches the end, the k batches sent are all of them. |
| Chunking.Chunks | pipeline.py:56-57 | The slices `ids[i:i+50]` for `i` in `range(0, len(ids), 50)`, in order; there are none exactly when there are no ids. |
| Pipeline.LoadEnv | pipeline.py:22-29 | Fails with `EnvironmentError("Missing environment variables")` exactly when either variable is absent or empty; otherwise returns both non-empty values. |
| Pipeline.PageItems | pipeline.py:42 | `resp.get("items", [])`: a page without `items` contributes no items, and otherwise its items as listed. |
| Pipeline.WindowFilter | pipeline.py:42-46 | The kept ids of one page are no more than its items. |
| Pipeline.GetPlaylistVideoIds | pipeline.py:32-51 | The ids are the window filter of the visited pages' items, in page order then item order. The tokens sent are those of `Api.TokensSentChain`. |
| Pipeline.PageIds | pipeline.py:42-46 | The loop over one page keeps exactly the window filter of `resp.get("items", [])`, in item order. |
| Pipeline.WindowIds | pipeline.py:35-47 | The ids kept from a sequence of pages, page by page; never more than the pages have items. |
| Pipeline.WindowFilterSnoc | pipeline.py:42-46 | One more item adds its id exactly when its `publishedAt` is in the window. |
| Pipeline.WindowIdsSnoc | pipeline.py:36-46 | One more page adds the window filter of its items; a page without `items` adds nothing. |
| Pipeline.WindowFilterAppend | pipeline.py:42-46 | Filtering distributes over concatenation, so kept ids keep their items' order. |
| Pipeline.WindowFilterMembers | pipeline.py:42-46 | An id is kept exactly when some item carrying it was published in the window. |
| Pipeline.WindowFilterExtremes | pipeline.py:42-46 | If every item is in the window, all ids are kept in order; if none is, none is kept. |
| Pipeline.WindowIdsFlat | pipeline.py:32-51 | The walk's ids are the window filter of all visited items flattened in page order. |
| Pipeline.WindowPair | pipeline.py:45-46 | Of an item inside the window followed by one outside it, only the first id is kept. |
| Pipeline.WindowScenario | pipeline.py:45-46 | A 2024-06-01 item followed by one at 2025-01-01T00:00:00Z yields only the first id. |
| Pipeline.ToRow | pipeline.py:63-70 | A row copies id, title and publishedAt. An absent `statistics` gives three zero counters; an absent counter gives 0. |
| Pipeline.ResponseRows | pipeline.py:62-71 | Exactly one row per returned item, and row k is built from item k. |
| Pipeline.ResponseRowsSnoc | pipeline.py:62-71 | One more item appends its row. |
| Pipeline.GetVideosDetails | pipeline.py:54-72 | The requests are exactly the `Chunks` of the ids, in order. The rows are those of the responses to them, batch by batch. |
| Pipeline.BatchRows | pipeline.py:62-71 | The loop over one response gives exactly one row per item of `resp.get("items", [])`, in order. |
| Pipeline.DetailRows | pipeline.py:56-71 | The rows of the batches requested in order: exactly as many as the items returned. |
| Pipeline.DetailRowsSnoc | pipeline.py:56-71 | One more request appends the rows of its response. |
| Pipeline.ResponseRowsAppend | pipeline.py:62-71 | Rows of consecutive item lists concatenate. |
| Pipeline.DetailRowsFlat | pipeline.py:54-72 | The rows are exactly one per returned item, in batch order then response order. |
| Pipeline.DetailRowsReturned | pipeline.py:62-71 | Every row comes from an item the endpoint returned: requested ids that are not returned give no row and no error. |
| Upsert.Fits | pipeline.py:84-86 | A row can be written exactly when each of its three counters is below 2^31, the range of a PostgreSQL `INTEGER`; a row of zero counters always can. |
| Upsert.ApplyAll | pipeline.py:90-101 | The table after upserting the rows in order, each overwriting its key; no stored key disappears. |
| Upsert.RowIdsSnoc | pipeline.py:90 | The keys of the rows grow by the last row's key. |
| Upsert.ApplyAllKeys | pipeline.py:90-101 | After the upsert the keys are the old keys plus every row's `videoId`. |
| Upsert.ApplyAllUntouched | pipeline.py:90-101 | Keys that no input row carries keep their old value, and stay absent if absent. |
| Upsert.ApplyAllLastWins | pipeline.py:94-99 | A key holds the columns of the last row that carries it. |
| Upsert.ApplyAllOverwrites | pipeline.py:94-99 | For a key some row carries, the table's previous content does not matter. |
| Upsert.ApplyAllIdempotent | pipeline.py:90-101 | Upserting the same rows twice gives the same table as upserting them once. |
| Upsert.ApplyAllSize | pipeline.py:90-101 | The row count grows by exactly the number of distinct new ids. |
| Upsert.UpsertOne | pipeline.py:91-101 | One unseen id adds a row; a stored id keeps the count; either way the key then holds all five columns of the row. |
| Upsert.UpsertTwiceSameId | pipeline.py:94-99 | The same id twice in one run: all the columns of the second row win. |
| Upsert.Store.constructor | pipeline.py:79-88 | A database without the `f1_highlights` table holds no rows. |
| Upsert.Store.UpsertRows | pipeline.py:75-102 | Succeeds exactly when every counter fits an `INTEGER` column. Success leaves the table existing and equal to the old table with the rows applied in order. Failure names the first row that does not fit and leaves the store exactly as it was. |
| PipelineMain.Run | pipeline.py:105-115 | A configuration error stops the run with the store unchanged. No rows gives `KeyError('publishedAt')` with the store unchanged. Otherwise the outcome is `UpsertRows` on the 2024 rows: success exactly when all counters fit, and otherwise `IntegerOutOfRange` naming the first row that does not fit, with the store unchanged. |
| ExportF1.ItemIds | exportF1.py:21-24 | The per-page comprehension: one id per item. |
| ExportF1.AllIds | exportF1.py:12-28 | The walk's outcome over the visited pages: `KeyError('items')` only when some page lacks `items`, and otherwise id k is the `videoId` of item k of all the pages, in order. |
| ExportF1.ItemIdsAppend | exportF1.py:21-24 | The ids of consecutive item lists concatenate. |
| ExportF1.AllIdsSnoc | exportF1.py:21-24 | One more listed page appends the ids of its items. |
| ExportF1.GetPlaylistVideoIds | exportF1.py:11-28 | The outcome is every id of the visited pages in order, or `KeyError('items')` at the first visited page without `items`. A failing page is the last one requested. The tokens sent are those of `Api.TokensSentChain`. |
| ExportF1.AllIdsOk | exportF1.py:21-24 | The walk fails exactly when a visited page lacks `items`. Otherwise there is one id per item. |
| ExportF1.ExportKeepsPipelineIds | exportF1.py:11-28 | Without a date filter, the export collects every id pipeline.py's filter keeps over the same pages. |
| ExportF1.StrictRow | exportF1.py:37-46 | A missing `statistics` raises `KeyError('statistics')`. Otherwise the row is pipeline.py's row, with absent counters read as 0. |
| ExportF1.StrictResponse | exportF1.py:37-46 | One response: `KeyError('items')` without `items`. With `items`, it succeeds exactly when every item's `StrictRow` does, fails only with `KeyError('statistics')`, and row k is item k's `StrictRow`. |
| ExportF1.StrictDetailRows | exportF1.py:32-46 | The batches in order, the first failing response deciding the error, which is always `items` or `statistics`; otherwise one row per returned item. |
| ExportF1.StrictDetailRowsSnoc | exportF1.py:32-46 | One more request appends its response's rows, or its error becomes the outcome. |
| ExportF1.StrictDetailRowsErrSticks | exportF1.py:32-46 | After an error no later batch can change the outcome. |
| ExportF1.StrictDetailRowsOk | exportF1.py:37-46 | The details fail exactly when some response lacks `items` or some item lacks `statistics`. Otherwise the rows equal pipeline.py's rows for the same batches. |
| ExportF1.BatchRows | exportF1.py:37-46 | The loop over one response equals `StrictResponse`: `KeyError('items')` without `items`, `KeyError('statistics')` when an item lacks statistics, and otherwise row k from item k. |
| ExportF1.GetVideosDetails | exportF1.py:30-47 | The outcome is that of requesting the `Chunks` of the ids in order. The requests made are a prefix of the chunks: all of them on success, and up to the first failing one on error. |
| ExportF1.KeepWindow | exportF1.py:59-62 | The filter keeps no more rows than it is given. |
| ExportF1.KeepWindowMembers | exportF1.py:59-62 | A row survives exactly when it is published in the 2024 window. |
| ExportF1.KeepWindowAppend | exportF1.py:59-62 | The filter distributes over concatenation, so kept rows keep their original order. |
| ExportF1.KeepWindowIdempotent | exportF1.py:59-62 | Filtering twice is filtering once. |
| ExportF1.ExportOutcome | exportF1.py:49-62 | What `main` yields: only a `KeyError` on `items`, `statistics` or `publishedAt` can end it, and rows come only from a walk that succeeded. |
| ExportF1.ExportRows | exportF1.py:49-62 | `main`'s outcome: a listing or detail `KeyError`, `KeyError('publishedAt')` for no rows, or the window-filtered rows, every one published in 2024. |

## Left out

- The Google API client (`build`, `.execute()`), the `part`, `playlistId` and `maxResults=50` request parameters, and the id joining `",".join(batch)`. They are replaced by the page sequence and the detail function. `maxResults` only sets the page size, which the page sequence already fixes.
- Missing `snippet`, `resourceId`, `videoId`, `id`, `title` or `publishedAt` keys on items, which raise `KeyError` in both scripts. The model's items always carry them.
- `int(...)` on a counter that is not numeric. Counters are modelled as naturals, as the API sends them.
- `load_dotenv`, `os.getenv`, logging, `setup_logging`, the playlist defaults and `print`. The environment is a map parameter.
- exportF1.py reads `YOUTUBE_API_KEY` without checking it. A missing key only affects the API client, which is not modelled.
- `pd.to_datetime` (pipeline.py:113, exportF1.py:58) and the CSV write (exportF1.py:63).
- ExportF1.KeepWindow: pandas compares parsed UTC timestamps with `'2024-01-01'` read as midnight UTC. The model compares the raw `YYYY-MM-DDTHH:MM:SSZ` strings with the same window. This agrees for the API's fixed timestamp format but not for arbitrary strings.
- Pipeline.GetPlaylistVideoIds: the source hardcodes the 2024 window; the method takes the window as a parameter and `PipelineMain.Run` passes `Year2024`.
- Upsert.Store.UpsertRows: SQLAlchemy's engine, connection, and type conversion other than the `INTEGER` range are not modelled. The `TIMESTAMPTZ` column holds the raw string.
- The database's other failure modes (connection loss, permissions) are not modelled. They would roll back the same way as the range failure.
- The walk assumes the listing eventually ends (`Ends(pages)`). A listing that keeps returning a token forever is not modelled.
- dashboard.py, test_db.py and test_env.py are not part of this model.
