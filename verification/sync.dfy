/** `main`: fetch the warehouse rows, stop if there are none, otherwise clear the table,
    insert the rows in batches of 100, and publish the draft if any row was inserted. */
module Sync {
  import opened Batching
  import opened Normalization
  import opened Api
  import opened Eraser
  import opened Uploader

  /** What `fetch_data_from_warehouse` got from the database. */
  datatype Extraction =
    | ConnectFailed                                      // `pyodbc.connect` raised
    | QueryFailed                                        // `execute` or `fetchall` raised
    | Fetched(columns: seq<string>, rows: seq<seq<Value>>)

  /** Everything the outside world answers during one run. */
  datatype Environment = Environment(
    warehouse: Extraction,
    pages: seq<Page>,            // listing responses, in request order
    purgeStatuses: seq<int>,     // one per purge call
    createStatuses: seq<int>,    // one per create call
    publishStatus: int)

  /** How a run ends: the `except Exception` handler, the early return on an empty
      result, or a completed sync with the `(successful, failed)` counts it prints. When
      publishing was attempted, `published` is what `publish_table` returned and logged;
      `main` itself discards that value. */
  datatype Outcome =
    | Aborted
    | NothingToSync
    | Synced(successful: nat, failed: nat, published: Option<bool>)

  datatype SyncRun = SyncRun(calls: seq<Call>, outcome: Outcome)

  /** The answers fit the run they are replayed into: rows as wide as the column list,
      a listing that ends, and one status per purge and per create call. */
  predicate WellFormed(env: Environment)
  {
    env.warehouse.Fetched? && |env.warehouse.rows| > 0 ==>
      && (forall i :: 0 <= i < |env.warehouse.rows| ==>
            |env.warehouse.rows[i]| == |env.warehouse.columns|)
      && ListingEnds(env.pages, 0)
      && |env.purgeStatuses| == PurgeCallCount(env.pages)
      && |env.createStatuses| == NumBatches(|env.warehouse.rows|, InsertBatchSize)
  }

  /** `publish_table`: True exactly on a 200 or 201. */
  function PublishTable(status: int): (r: bool)
    ensures r <==> status == 200 || status == 201
  {
    Accepts(Publish, status)
  }

  /** The rows a fetched extraction hands to the insert, wrapped for HubDB. */
  function HubdbRows(env: Environment, conv: Conversions): (r: seq<Envelope>)
    requires WellFormed(env) && env.warehouse.Fetched? && |env.warehouse.rows| > 0
  {
    Transform(FetchRows(env.warehouse.columns, env.warehouse.rows, conv))
  }

  /** One run of `main`. It aborts exactly when the extraction raised, and calls nothing at
      all when the connection failed; it stops quietly exactly when the query returned no
      rows; otherwise it reports every row as successful or failed and a publish result
      exactly when some row was inserted. */
  function RunSync(env: Environment, conv: Conversions): (r: SyncRun)
    requires WellFormed(env)
    ensures r.outcome.Aborted? <==> !env.warehouse.Fetched?
    ensures |r.calls| == 0 <==> env.warehouse.ConnectFailed?
    ensures r.outcome.NothingToSync? <==> env.warehouse.Fetched? && |env.warehouse.rows| == 0
    ensures r.outcome.Synced? ==>
              && env.warehouse.Fetched?
              && r.outcome.successful + r.outcome.failed == |env.warehouse.rows|
              && (r.outcome.published.Some? <==> r.outcome.successful > 0)
  {
    match env.warehouse
    case ConnectFailed => SyncRun([], Aborted)
    case QueryFailed => SyncRun([QueryWarehouse], Aborted)
    case Fetched(columns, rows) =>
      if |rows| == 0 then SyncRun([QueryWarehouse], NothingToSync)
      else
        var clear := ClearTable(env.pages, env.purgeStatuses);
        var hubdbData := HubdbRows(env, conv);
        var insert := InsertRows(hubdbData, InsertBatchSize, env.createStatuses).value;
        var publish := if insert.successful > 0 then [PublishDraft] else [];
        var published := if insert.successful > 0 then Some(PublishTable(env.publishStatus)) else None;
        SyncRun([QueryWarehouse] + (clear.calls + (insert.calls + publish)),
                Synced(insert.successful, insert.failed, published))
  }

  /** The four steps of a run, in the order `main` takes them. */
  function Phase(c: Call): (r: nat)
  {
    match c
    case QueryWarehouse => 0
    case ListDraftRows(_, _) => 1
    case PurgeDraftRows(_) => 1
    case CreateDraftRows(_) => 2
    case PublishDraft => 3
  }

  /** No call of a later step comes before a call of an earlier one. */
  predicate InPhaseOrder(calls: seq<Call>)
  {
    forall i, j :: 0 <= i < j < |calls| ==> Phase(calls[i]) <= Phase(calls[j])
  }

  /** Putting calls that all belong to step `p` in front of calls of step `p` or later keeps
      the order. */
  lemma OrderPrepend(a: seq<Call>, b: seq<Call>, p: nat)
    requires forall i :: 0 <= i < |a| ==> Phase(a[i]) == p
    requires forall j :: 0 <= j < |b| ==> p <= Phase(b[j])
    requires InPhaseOrder(b)
    ensures InPhaseOrder(a + b)
  {
  }

  /** Without usable rows a run never reaches HubSpot: a failed extraction aborts, an
      empty one stops after the query, and nothing is listed, purged, created or published. */
  lemma NoRowsNoHubspot(env: Environment, conv: Conversions)
    requires WellFormed(env)
    requires !env.warehouse.Fetched? || |env.warehouse.rows| == 0
    ensures var run := RunSync(env, conv);
            && (forall k :: 0 <= k < |run.calls| ==> run.calls[k] == QueryWarehouse)
            && (run.outcome == Aborted <==> !env.warehouse.Fetched?)
            && (run.outcome == NothingToSync <==> env.warehouse.Fetched?)
  {
  }

  /** A trace of one query, then clear calls, then create calls, then publish calls: the
      purge endpoint gets exactly what the clear calls send. */
  lemma StepTracePurges(clear: seq<Call>, creates: seq<Call>, publish: seq<Call>)
    requires forall k :: 0 <= k < |clear| ==> IsClearCall(clear[k])
    requires forall k :: 0 <= k < |creates| ==> creates[k].CreateDraftRows?
    requires forall k :: 0 <= k < |publish| ==> publish[k].PublishDraft?
    ensures PurgedIds([QueryWarehouse] + (clear + (creates + publish))) == PurgedIds(clear)
  {
    PurgedIdsSkip([QueryWarehouse], clear + (creates + publish));
    PurgedIdsTrim(clear, creates + publish);
  }

  /** In the same trace the create endpoint gets exactly what the create calls send. */
  lemma StepTraceCreates(clear: seq<Call>, creates: seq<Call>, publish: seq<Call>)
    requires forall k :: 0 <= k < |clear| ==> IsClearCall(clear[k])
    requires forall k :: 0 <= k < |creates| ==> creates[k].CreateDraftRows?
    requires forall k :: 0 <= k < |publish| ==> publish[k].PublishDraft?
    ensures CreatedRows([QueryWarehouse] + (clear + (creates + publish))) == CreatedRows(creates)
  {
    CreatedRowsSkip([QueryWarehouse], clear + (creates + publish));
    CreatedRowsSkip(clear, creates + publish);
    CreatedRowsTrim(creates, publish);
  }

  /** In the same trace the table is published once per publish call. */
  lemma StepTracePublishes(clear: seq<Call>, creates: seq<Call>, publish: seq<Call>)
    requires forall k :: 0 <= k < |clear| ==> IsClearCall(clear[k])
    requires forall k :: 0 <= k < |creates| ==> creates[k].CreateDraftRows?
    requires forall k :: 0 <= k < |publish| ==> publish[k].PublishDraft?
    ensures PublishCount([QueryWarehouse] + (clear + (creates + publish))) == |publish|
  {
    PublishesPerCall([QueryWarehouse]);
    PublishesPerCall(clear);
    PublishesPerCall(creates);
    PublishesPerCall(publish);
    PublishCountAppend(creates, publish);
    PublishCountAppend(clear, creates + publish);
    PublishCountAppend([QueryWarehouse], clear + (creates + publish));
  }

  /** The same trace keeps the steps in order: the query is the first call and the only one,
      and the publish calls are the last ones. */
  lemma StepTraceOrder(clear: seq<Call>, creates: seq<Call>, publish: seq<Call>)
    requires forall k :: 0 <= k < |clear| ==> IsClearCall(clear[k])
    requires forall k :: 0 <= k < |creates| ==> creates[k].CreateDraftRows?
    requires forall k :: 0 <= k < |publish| ==> publish[k].PublishDraft?
    ensures var calls := [QueryWarehouse] + (clear + (creates + publish));
            && InPhaseOrder(calls)
            && (forall i :: 0 <= i < |calls| ==> (calls[i] == QueryWarehouse <==> i == 0))
            && (forall i :: 0 <= i < |calls| ==> (calls[i].PublishDraft? <==> i >= |calls| - |publish|))
  {
  }

  /** The parts `main` assembles a run with rows from. */
  lemma RunParts(env: Environment, conv: Conversions) returns (clear: ClearReport, insert: InsertReport, publish: seq<Call>)
    requires WellFormed(env) && env.warehouse.Fetched? && |env.warehouse.rows| > 0
    ensures clear == ClearTable(env.pages, env.purgeStatuses)
    ensures InsertRows(HubdbRows(env, conv), InsertBatchSize, env.createStatuses) == Success(insert)
    ensures publish == (if insert.successful > 0 then [PublishDraft] else [])
    ensures RunSync(env, conv) ==
            SyncRun([QueryWarehouse] + (clear.calls + (insert.calls + publish)),
                    Synced(insert.successful, insert.failed,
                           if insert.successful > 0 then Some(PublishTable(env.publishStatus)) else None))
    ensures forall k :: 0 <= k < |clear.calls| ==> IsClearCall(clear.calls[k])
    ensures forall k :: 0 <= k < |insert.calls| ==> insert.calls[k].CreateDraftRows?
    ensures forall k :: 0 <= k < |publish| ==> publish[k].PublishDraft?
    ensures CreatedRows(insert.calls) == HubdbRows(env, conv)
    ensures insert.successful + insert.failed == |env.warehouse.rows|
  {
    clear := ClearTable(env.pages, env.purgeStatuses);
    var hubdbData := HubdbRows(env, conv);
    insert := InsertRows(hubdbData, InsertBatchSize, env.createStatuses).value;
    publish := if insert.successful > 0 then [PublishDraft] else [];
    ClearCallsOnly(env.pages, env.purgeStatuses);
    InsertCallsAndCounts(hubdbData, InsertBatchSize, env.createStatuses);
  }

  /** A run with rows has four steps in order: one query, then only listing and purging,
      then only creating, then at most one publish, which is the last call. */
  lemma StepsInOrder(env: Environment, conv: Conversions)
    requires WellFormed(env) && env.warehouse.Fetched? && |env.warehouse.rows| > 0
    ensures var run := RunSync(env, conv);
            && run.outcome.Synced?
            && |run.calls| > 0 && run.calls[0] == QueryWarehouse
            && InPhaseOrder(run.calls)
            && (forall i :: 0 <= i < |run.calls| && run.calls[i].PublishDraft? ==> i == |run.calls| - 1)
            && (forall i :: 0 < i < |run.calls| ==> run.calls[i] != QueryWarehouse)
  {
    var clear, insert, publish := RunParts(env, conv);
    StepTraceOrder(clear.calls, insert.calls, publish);
  }

  /** Every converted row is sent to the create endpoint exactly once and in query order,
      whatever became of the clear, and every row is counted as successful or as failed. */
  lemma CreatesEveryRow(env: Environment, conv: Conversions)
    requires WellFormed(env) && env.warehouse.Fetched? && |env.warehouse.rows| > 0
    ensures var run := RunSync(env, conv);
            && Unwrap(CreatedRows(run.calls)) == FetchRows(env.warehouse.columns, env.warehouse.rows, conv)
            && run.outcome.successful + run.outcome.failed == |env.warehouse.rows|
  {
    var clear, insert, publish := RunParts(env, conv);
    StepTraceCreates(clear.calls, insert.calls, publish);
    TransformRoundTrip(FetchRows(env.warehouse.columns, env.warehouse.rows, conv));
  }

  /** The purge endpoint receives exactly the ids the listing collected, and none when a
      listing page failed. */
  lemma PurgesListedIds(env: Environment, conv: Conversions)
    requires WellFormed(env) && env.warehouse.Fetched? && |env.warehouse.rows| > 0
    ensures var listing := ListAllRowIds(env.pages);
            PurgedIds(RunSync(env, conv).calls) == (if listing.ids.Some? then listing.ids.value else [])
  {
    var clear, insert, publish := RunParts(env, conv);
    StepTracePurges(clear.calls, insert.calls, publish);
    NoPurgeUnlessListed(env.pages, env.purgeStatuses);
    PurgesEveryId(env.pages, env.purgeStatuses);
  }

  /** Publishing is attempted exactly once when some row was inserted and never otherwise,
      and the reported result is `publish_table`'s answer to the publish status. */
  lemma PublishesIffInserted(env: Environment, conv: Conversions)
    requires WellFormed(env) && env.warehouse.Fetched? && |env.warehouse.rows| > 0
    ensures var run := RunSync(env, conv);
            && PublishCount(run.calls) == (if run.outcome.successful > 0 then 1 else 0)
            && (run.outcome.published.Some? <==> run.outcome.successful > 0)
            && (run.outcome.published.Some? ==>
                  (run.outcome.published.value <==> Accepts(Publish, env.publishStatus)))
  {
    var clear, insert, publish := RunParts(env, conv);
    StepTracePublishes(clear.calls, insert.calls, publish);
  }

  /** When every create batch is rejected, nothing counts as inserted, every row counts as
      failed, and the table is not published. */
  lemma AllRejectedNoPublish(env: Environment, conv: Conversions)
    requires WellFormed(env) && env.warehouse.Fetched? && |env.warehouse.rows| > 0
    requires forall k :: 0 <= k < |env.createStatuses| ==> !Accepts(Create, env.createStatuses[k])
    ensures var run := RunSync(env, conv);
            && run.outcome.successful == 0
            && run.outcome.failed == |env.warehouse.rows|
            && run.outcome.published.None?
            && PublishCount(run.calls) == 0
  {
    var clear, insert, publish := RunParts(env, conv);
    InsertSuccessIff(HubdbRows(env, conv), InsertBatchSize, env.createStatuses);
    StepTracePublishes(clear.calls, insert.calls, publish);
  }
}
