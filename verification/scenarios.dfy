/** Concrete runs of the sync, each stated for every input of the given shape. */
module Scenarios {
  import opened Batching
  import opened Normalization
  import opened Api
  import opened Eraser
  import opened Uploader
  import opened Sync

  /** An empty table: one listing request, no purge call, nothing deleted. */
  lemma EmptyTable(pages: seq<Page>, purgeStatuses: seq<int>)
    requires pages == [Page(200, [], None)] && ListingEnds(pages, 0)
    requires |purgeStatuses| == PurgeCallCount(pages)
    ensures ClearTable(pages, purgeStatuses) == ClearReport([ListDraftRows(PageLimit, None)], 0)
  {
  }

  /** 2500 rows into an empty table, every create accepted: the query, one listing request
      that finds nothing and so no purge call, 25 create calls of at most 100 rows, and one
      publish call as the last call; the run reports (2500, 0). */
  lemma AllBatchesAccepted(env: Environment, conv: Conversions)
    requires WellFormed(env) && env.warehouse.Fetched? && |env.warehouse.rows| == 2500
    requires env.pages == [Page(200, [], None)]
    requires forall k :: 0 <= k < |env.createStatuses| ==> env.createStatuses[k] == 201
    ensures var run := RunSync(env, conv);
            && |run.calls| == 28
            && run.calls[0] == QueryWarehouse
            && run.calls[1] == ListDraftRows(PageLimit, None)
            && PurgedIds(run.calls) == []
            && (forall j :: 2 <= j < 27 ==>
                  run.calls[j].CreateDraftRows? && 0 < |run.calls[j].rows| <= InsertBatchSize)
            && run.calls[27] == PublishDraft
            && PublishCount(run.calls) == 1
            && run.outcome == Synced(2500, 0, Some(Accepts(Publish, env.publishStatus)))
  {
    assert NumBatches(2500, 100) == 25;
    var rows := HubdbRows(env, conv);
    var clear, insert, publish := RunParts(env, conv);
    InsertCallsAndCounts(rows, InsertBatchSize, env.createStatuses);
    InsertSuccessIff(rows, InsertBatchSize, env.createStatuses);
    EmptyTable(env.pages, env.purgeStatuses);
    assert publish == [PublishDraft];
    PurgesListedIds(env, conv);
    PublishesIffInserted(env, conv);
    var calls := [QueryWarehouse] + (clear.calls + (insert.calls + publish));
    forall j | 2 <= j < 27
      ensures calls[j] == insert.calls[j - 2]
    {
      assert calls[j] == (insert.calls + publish)[j - 2];
    }
  }

  /** 1350 existing rows over two listing pages: two listing requests, the second with the
      first page's cursor, then 14 purge calls of at most 100 ids that together remove all
      1350 ids. */
  lemma TwoPagesOfIds(first: seq<RowId>, second: seq<RowId>, cursor: string, purgeStatuses: seq<int>)
    requires |first| == 1000 && |second| == 350 && cursor != ""
    requires |purgeStatuses| == 14
    requires forall k :: 0 <= k < 14 ==> purgeStatuses[k] == 204
    ensures var pages := [Page(200, first, Some(cursor)), Page(200, second, None)];
            && ListingEnds(pages, 0)
            && |purgeStatuses| == PurgeCallCount(pages)
            && var listing := ListAllRowIds(pages);
               var r := ClearTable(pages, purgeStatuses);
               && listing.requests == [ListDraftRows(PageLimit, None), ListDraftRows(PageLimit, Some(cursor))]
               && listing.ids == Some(first + second)
               && |r.calls| == 16
               && r.calls[..2] == listing.requests
               && (forall j :: 2 <= j < 16 ==>
                     r.calls[j].PurgeDraftRows? && 0 < |r.calls[j].ids| <= PurgeBatchSize)
               && PurgedIds(r.calls) == first + second
               && r.deleted == 1350
  {
    var pages := [Page(200, first, Some(cursor)), Page(200, second, None)];
    assert EndsListing(pages[1]);
    var listing := ListAllRowIds(pages);
    assert FirstEnd(pages, 0, |listing.requests| - 1);
    assert !EndsListing(pages[0]);
    assert |listing.requests| == 2;
    assert PageIds(pages, 0, 2) == first + second by {
      assert PageIds(pages, 2, 2) == [];
      assert PageIds(pages, 1, 2) == second;
    }
    assert NumBatches(1350, 100) == 14;
    NoPurgeUnlessListed(pages, purgeStatuses);
    PurgesEveryId(pages, purgeStatuses);
    DeletedCount(pages, purgeStatuses);
  }

  /** The fifth create batch (rows 401 to 500) is rejected with a 500, the other 24 accepted:
      2400 rows count as inserted, 100 as failed, and since some rows went in the table is
      still published. */
  lemma FifthBatchRejected(env: Environment, conv: Conversions)
    requires WellFormed(env) && env.warehouse.Fetched? && |env.warehouse.rows| == 2500
    requires env.createStatuses[4] == 500
    requires forall k :: 0 <= k < |env.createStatuses| && k != 4 ==> env.createStatuses[k] == 201
    ensures var run := RunSync(env, conv);
            var batches := Batches(HubdbRows(env, conv), InsertBatchSize);
            && |batches| == 25 && batches[4] == HubdbRows(env, conv)[400..500]
            && run.outcome == Synced(2400, 100, Some(Accepts(Publish, env.publishStatus)))
            && PublishCount(run.calls) == 1
  {
    var rows := HubdbRows(env, conv);
    var batches := Batches(rows, InsertBatchSize);
    assert NumBatches(2500, 100) == 25;
    BatchCount(rows, InsertBatchSize);
    BatchesFlatten(rows, InsertBatchSize);
    BatchAt(rows, InsertBatchSize, 4);
    OneRejected(batches, env.createStatuses, Create, 4);
    var clear, insert, publish := RunParts(env, conv);
    PublishesIffInserted(env, conv);
  }
}
