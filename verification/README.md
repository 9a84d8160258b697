# HubDB sync — a Dafny model

`hubdb_sync.py` copies a SQL Server reporting view into a HubSpot HubDB table. One run
does four things in order:

1. It fetches every row of the view.
2. It clears the table's draft: it lists the existing row ids page by page (1000 per page,
   following the `paging.next.after` cursor) and purges them in batches of 100.
3. It wraps every warehouse row as `{"values": row}` and creates them in batches of 100.
4. It publishes the draft, but only if at least one row was inserted.

No HTTP status stops a batch loop. A rejected purge or create batch is logged and counted
as failed, and the loop moves on to the next batch.

This project models that run as pure functions. The outside world appears as data:

- the warehouse result;
- the listing pages;
- one status code per purge call, one per create call, and one for the publish call.

The run itself is the list of external calls it makes (`Api.Call`) plus its outcome. The
properties are proved over every such input.

Modules, one file each:

- `batching.dfy` (`Batching`): the `range(0, n, size)` plus slicing idiom that both batch
  loops use, and the `(n + size - 1) // size` batch count.
- `normalization.dfy` (`Normalization`): the per-value type dispatch of
  `fetch_data_from_warehouse`, and turning a result row into a dictionary.
- `api.dfy` (`Api`): the calls a run makes, the status codes each endpoint's caller
  accepts, the best-effort success/failure tally, and what a call trace sends to each
  endpoint.
- `eraser.dfy` (`Eraser`): `clear_hubdb_table`, meaning the paginated listing and the
  batched purge.
- `uploader.dfy` (`Uploader`): `transform_data_for_hubdb` and `batch_insert_rows`. The
  latter appears twice: as a function, and as a loop method proved equal to it.
- `sync.dfy` (`Sync`): `publish_table` and `main`.
- `scenarios.dfy` (`Scenarios`): concrete runs (2500 rows, two listing pages, one rejected
  batch), each stated for every input of that shape.

Some details of the code's behaviour that the model keeps:

- **Unknown value types.** The `else` branch at hubdb_sync.py:89-90 passes any value that
  is not a datetime, date, Decimal or None through unchanged, and `Normalize` does the
  same.
- **When the listing stops.** The listing stops at the first page whose status is not 200,
  by returning at hubdb_sync.py:123-125. In that case nothing is purged, even if earlier
  pages succeeded. It also stops at a page whose cursor is missing or empty
  (hubdb_sync.py:134-137), because the test is `if next_cursor:`.
- **A failed clear.** `clear_hubdb_table` returns nothing, so `main` inserts whatever the
  clear did (hubdb_sync.py:256-268). Old rows may then stay next to the new ones.
  `CreatesEveryRow` states the insert for every outcome of the clear.
- **Date conversion.** The comment at hubdb_sync.py:82 says "midnight UTC", but
  `datetime(y, m, d).timestamp()` reads the naive datetime in the machine's local
  timezone. The model keeps that conversion uninterpreted (`Conversions.epochMillis`) and
  proves only that a date converts exactly as the datetime at midnight of that day.

## Model

| member | source | states |
|---|---|---|
| Batching.Batches | hubdb_sync.py:150-151 | every slice `items[i:i + size]` the `range(0, n, size)` loops take (purge at 150-151, create at 190-191) holds 1 to `size` items |
| Batching.BatchesFlatten | hubdb_sync.py:150-151 | the `range`-and-slice batches, concatenated, give back every item once, in order |
| Batching.BatchCount | hubdb_sync.py:184 | the loop makes exactly `(n + batch_size - 1) // batch_size` batches, the `total_batches` the source prints |
| Batching.BatchAt | hubdb_sync.py:190-192 | batch k is `rows[k*size : (k+1)*size]`, clipped at the end, so it is the batch `batch_num = k + 1` reports |
| Normalization.Normalize | hubdb_sync.py:77-90 | a datetime becomes its epoch milliseconds, a date the milliseconds of its midnight, a Decimal a float; None and every other value pass unchanged; no date or Decimal is left |
| Normalization.NormalizeIdempotent | hubdb_sync.py:77-90 | converting a converted value changes nothing |
| Normalization.DateIsMidnightInstant | hubdb_sync.py:81-83 | a date converts exactly as the datetime at midnight of that day |
| Normalization.NormalizeRow | hubdb_sync.py:75-91 | the row dictionary never has more entries than the result has columns |
| Normalization.RowEntries | hubdb_sync.py:75-91 | the row dictionary has a key exactly for each column name, and a repeated name keeps the value of its last column |
| Normalization.OneEntryPerColumn | hubdb_sync.py:75-91 | with distinct column names the dictionary has one entry per column, holding that column's converted value |
| Normalization.FetchRows | hubdb_sync.py:74-91 | one dictionary per fetched row, in query order |
| Api.Tally | hubdb_sync.py:160-166 | each batch is judged by its own status: nothing counts as failed when every batch is accepted, and nothing as succeeded when every batch is rejected |
| Api.TallyTotal | hubdb_sync.py:201-205 | each batch's rows are counted once, as succeeded or as failed, so the counters add up to the rows sent |
| Api.NothingSucceededIff | hubdb_sync.py:201-205 | with non-empty batches, nothing succeeded exactly when every batch was rejected |
| Api.AllAccepted | hubdb_sync.py:162-163 | when every status is accepted, every item counts as succeeded and none as failed |
| Api.OneRejected | hubdb_sync.py:201-206 | when exactly one batch is rejected, exactly its rows count as failed and the rest as succeeded |
| Api.TallyCountsSelected | hubdb_sync.py:162-166 | the success counter is the number of items in accepted batches and the failure counter the number in rejected ones, each batch judged by its own status |
| Eraser.ListFrom | hubdb_sync.py:111-137 | the listing loop makes at least one request and never more than there are responses to read |
| Eraser.ListFromRequests | hubdb_sync.py:111-137 | from a page on, one listing request per page up to the first page that ends the loop; each request carries the previous page's cursor |
| Eraser.ListFromIds | hubdb_sync.py:123-137 | ids are collected exactly when the last fetched page had status 200, and they are the fetched pages' ids in page order |
| Eraser.ListAllRowIds | hubdb_sync.py:108-137 | the first request has no cursor, the listing stops at the first page with a non-200 status or no usable cursor, and the result is every listed id in order (none after a failed page) |
| Eraser.ClearTable | hubdb_sync.py:98-168 | clearing makes the listing requests first, then exactly one call per purge status, each of them a purge call |
| Eraser.PurgeCallsSend | hubdb_sync.py:150-159 | the purge calls send the batches' ids, in batch order |
| Eraser.NoPurgeUnlessListed | hubdb_sync.py:123-125 | listing comes before purging, and a failed page or an empty table means no purge call and nothing deleted |
| Eraser.PurgesEveryId | hubdb_sync.py:145-159 | every listed id goes to the purge endpoint exactly once, in listing order, in calls of 1 to 100 ids; purge call k sends `Batches(ids, 100)[k]`, the batch status k judges, and every batch is attempted |
| Eraser.DeletedCount | hubdb_sync.py:147-168 | nothing is deleted after a failed listing (the source returns before `total_deleted` is set), and otherwise `total_deleted` is the number of ids in the purge batches answered 200 or 204; so it never exceeds the listed ids, equals them when every purge is accepted, and is 0 exactly when every purge is rejected |
| Eraser.ClearCallsOnly | hubdb_sync.py:98-168 | clearing only lists and purges; it never creates or publishes |
| Uploader.Transform | hubdb_sync.py:171-173 | one envelope per row, in order, whose `values` is that row |
| Uploader.TransformRoundTrip | hubdb_sync.py:171-173 | unwrapping the envelopes gives back exactly the rows |
| Uploader.InsertRows | hubdb_sync.py:176-210 | a batch size of 0 raises at the `total_batches` division, any other makes one call per status, each of them a create call, and with a positive size `successful + failed` is the row count |
| Uploader.CreateCallsSend | hubdb_sync.py:190-199 | the create calls send the batches' rows, in batch order |
| Uploader.InsertCallsAndCounts | hubdb_sync.py:183-210 | a zero batch size raises, a negative one makes no call; otherwise create call k sends batch k (`rows[k*batch_size : (k+1)*batch_size]`, the batch status k judges), each of 1 to `batch_size` rows, together every row once, in order; `successful` is the number of rows in batches answered 200 or 201 and `failed` the number in the others |
| Uploader.InsertSuccessIff | hubdb_sync.py:201-210 | `successful` is 0 exactly when every batch was rejected, and all rows succeed with none failed when every batch was accepted |
| Uploader.BatchInsertRows | hubdb_sync.py:183-210 | the counting loop with its two counters computes exactly the calls and counts of the batch-by-batch definition |
| Sync.RunSync | hubdb_sync.py:245-288 | a run aborts exactly when the extraction raised (with no call at all when the connection failed), stops quietly exactly when the query returned no rows, and otherwise counts every row as successful or failed and records `publish_table`'s result (which it logs and `main` discards) exactly when some row was inserted |
| Sync.PublishTable | hubdb_sync.py:227-232 | publishing reports success exactly on status 200 or 201 |
| Sync.NoRowsNoHubspot | hubdb_sync.py:247-251 | without rows the run makes no HubSpot call; a failed extraction aborts and an empty one ends quietly |
| Sync.StepsInOrder | hubdb_sync.py:247-274 | a run with rows queries once and first, then only lists and purges, then only creates, then makes at most one publish call, which is the last call |
| Sync.CreatesEveryRow | hubdb_sync.py:260-268 | every converted warehouse row reaches the create endpoint exactly once, in query order, whatever the clear did, and each is counted as successful or failed |
| Sync.PurgesListedIds | hubdb_sync.py:256 | during a run the purge endpoint receives exactly the ids the listing collected, or none if a listing page failed |
| Sync.PublishesIffInserted | hubdb_sync.py:272-274 | publishing is attempted once when some row was inserted and never otherwise, and the reported result is the publish status's verdict |
| Sync.AllRejectedNoPublish | hubdb_sync.py:268-274 | when every create batch is rejected, every row counts as failed and the table is not published |
| Scenarios.AllBatchesAccepted | hubdb_sync.py:245-274 | 2500 rows into an empty table with every create accepted: the query, one listing request and no purge, 25 create calls of 1 to 100 rows, one publish call last, and a result of (2500, 0) |
| Scenarios.TwoPagesOfIds | hubdb_sync.py:108-168 | two listing pages of 1000 and 350 ids make two listing requests, the second with the first page's cursor, then 14 purge calls of 1 to 100 ids that delete all 1350 ids |
| Scenarios.FifthBatchRejected | hubdb_sync.py:190-206 | with 2500 rows and only the fifth batch (rows 401 to 500) rejected, the run returns (2400, 100) and still publishes once |

## Left out

- Database and HTTP I/O is not modelled: `pyodbc`, `requests`, headers, the bearer
  token and `verify=False`. Their answers are inputs: the extraction, the listing pages
  and the status codes.
- Configuration is not modelled: `load_dotenv`, the environment variables, the
  connection string and the URL building. None of it changes the control flow.
- `log`, `print`, the elapsed time in `main` and the 300-character cap on error text
  only produce output, so they are left out.
- Exceptions in the middle of a run are not modelled. A network error, a response that
  is not JSON, or a listing result without `id` would make `main` log "FATAL ERROR" after
  some calls were already made. Of the exceptions raised during extraction, only a failed
  connection and a failed query are modelled (`Extraction.ConnectFailed`,
  `Extraction.QueryFailed`).
- Encoding a create batch as JSON is not modelled. A value the conversion passes through
  unchanged but JSON cannot encode (a `time` or `bytes`, `Value.PyOther`) would raise
  at hubdb_sync.py:194-199, after the table has already been cleared.
- Normalization.Normalize: `value.timestamp()` and `float(Decimal)` use floating point
  and the local timezone, so they are parameters (`Conversions`) and not computed. They
  are total functions here. `timestamp()` raising (an `OverflowError` or `OSError` for a
  datetime outside the platform's range) is not modelled: `main` would then log
  "FATAL ERROR" after the query and before any HubSpot call.
- Normalization.NormalizeRow: a row is a `map`, which has no key order, so the insertion
  order of Python's dictionary is not modelled.
- Eraser.ListAllRowIds: it requires that some page ends the listing (`ListingEnds`). A
  server that hands out cursors forever would make the source loop forever, and that
  case is not modelled.
- `conn.close()` is not modelled, because it does not affect the data.
- Sync.RunSync: `main` always calls `batch_insert_rows` with the default size of 100.
  Other sizes, including zero and negative ones, are modelled only in
  `Uploader.InsertRows`.
