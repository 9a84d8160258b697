/** `clear_hubdb_table`: list every draft row id page by page, then purge them in
    batches of 100, counting the rows whose purge batch was accepted. */
module Eraser {
  import opened Batching
  import opened Api

  /** `params = {'limit': 1000}` on every listing request. */
  const PageLimit: nat := 1000

  /** `batch_size = 100`, HubDB's limit per purge call. */
  const PurgeBatchSize: nat := 100

  /** One listing response: its status, the ids of its `results`, and `paging.next.after`. */
  datatype Page = Page(status: int, ids: seq<RowId>, next: Option<string>)

  /** `if next_cursor:` — a missing or empty cursor means this was the last page. */
  predicate HasNext(p: Page)
  {
    p.next.Some? && p.next.value != ""
  }

  /** The listing loop stops at this page: by returning on a non-200 status, or by
      breaking when there is no usable cursor. */
  predicate EndsListing(p: Page)
  {
    p.status != 200 || !HasNext(p)
  }

  /** Some page from `from` on ends the listing, so the loop terminates on these responses. */
  predicate ListingEnds(pages: seq<Page>, from: nat)
  {
    exists i :: from <= i < |pages| && EndsListing(pages[i])
  }

  /** Page `last` is the first page from `from` on that ends the listing. */
  predicate FirstEnd(pages: seq<Page>, from: nat, last: nat)
  {
    && from <= last < |pages|
    && EndsListing(pages[last])
    && forall j :: from <= j < last ==> !EndsListing(pages[j])
  }

  /** The ids of pages `lo` up to (not including) `hi`, concatenated in page order. */
  function PageIds(pages: seq<Page>, lo: nat, hi: nat): (r: seq<RowId>)
    requires lo <= hi <= |pages|
    decreases hi - lo
  {
    if lo == hi then [] else pages[lo].ids + PageIds(pages, lo + 1, hi)
  }

  /** The listing requests made, and the ids collected (None when a page failed). */
  datatype Listing = Listing(requests: seq<Call>, ids: Option<seq<RowId>>)

  /** The `while True` loop from page k on, with cursor `after` and ids `acc` so far. It makes
      at least one request and never more than there are responses. */
  function ListFrom(pages: seq<Page>, k: nat, after: Option<string>, acc: seq<RowId>): (r: Listing)
    requires ListingEnds(pages, k)
    ensures 0 < |r.requests| <= |pages| - k
    decreases |pages| - k
  {
    var page := pages[k];
    var request := ListDraftRows(PageLimit, after);
    if page.status != 200 then
      Listing([request], None)
    else if HasNext(page) then
      var rest := ListFrom(pages, k + 1, page.next, acc + page.ids);
      Listing([request] + rest.requests, rest.ids)
    else
      Listing([request], Some(acc + page.ids))
  }

  /** From page k on: one request per page up to and including the first page that ends the
      listing; the first carries `after`, each later one the previous page's cursor. */
  lemma {:induction false} ListFromRequests(pages: seq<Page>, k: nat, after: Option<string>, acc: seq<RowId>)
    requires ListingEnds(pages, k)
    ensures var r := ListFrom(pages, k, after, acc);
            && |r.requests| > 0
            && FirstEnd(pages, k, k + |r.requests| - 1)
            && r.requests[0] == ListDraftRows(PageLimit, after)
            && (forall j :: 0 < j < |r.requests| ==>
                  r.requests[j] == ListDraftRows(PageLimit, pages[k + j - 1].next))
    decreases |pages| - k
  {
    var page := pages[k];
    if page.status == 200 && HasNext(page) {
      ListFromRequests(pages, k + 1, page.next, acc + page.ids);
      var rest := ListFrom(pages, k + 1, page.next, acc + page.ids);
      assert ListFrom(pages, k, after, acc).requests == [ListDraftRows(PageLimit, after)] + rest.requests;
    }
  }

  /** Ids are collected exactly when the last page fetched has status 200, and are `acc`
      followed by the ids of the fetched pages, in page order. */
  lemma {:induction false} ListFromIds(pages: seq<Page>, k: nat, after: Option<string>, acc: seq<RowId>)
    requires ListingEnds(pages, k)
    ensures var r := ListFrom(pages, k, after, acc);
            && k + |r.requests| <= |pages|
            && (r.ids.Some? <==> pages[k + |r.requests| - 1].status == 200)
            && (r.ids.Some? ==> r.ids.value == acc + PageIds(pages, k, k + |r.requests|))
    decreases |pages| - k
  {
    var page := pages[k];
    if page.status == 200 && HasNext(page) {
      ListFromIds(pages, k + 1, page.next, acc + page.ids);
      var rest := ListFrom(pages, k + 1, page.next, acc + page.ids);
      var end := k + 1 + |rest.requests|;
      assert |ListFrom(pages, k, after, acc).requests| == 1 + |rest.requests|;
      assert PageIds(pages, k, end) == page.ids + PageIds(pages, k + 1, end);
    }
  }

  /** The whole listing loop: the first request has no cursor, each later one carries the
      previous page's cursor, it stops at the first page without a usable cursor or with a
      non-200 status, and the ids are those of the fetched pages, in page order. */
  function ListAllRowIds(pages: seq<Page>): (r: Listing)
    requires ListingEnds(pages, 0)
    ensures |r.requests| > 0
    ensures FirstEnd(pages, 0, |r.requests| - 1)
    ensures r.requests[0] == ListDraftRows(PageLimit, None)
    ensures forall j :: 0 < j < |r.requests| ==>
              HasNext(pages[j - 1]) && r.requests[j] == ListDraftRows(PageLimit, pages[j - 1].next)
    ensures r.ids.Some? <==> pages[|r.requests| - 1].status == 200
    ensures r.ids.Some? ==> r.ids.value == PageIds(pages, 0, |r.requests|)
  {
    ListFromRequests(pages, 0, None, []);
    ListFromIds(pages, 0, None, []);
    var r := ListFrom(pages, 0, None, []);
    assert FirstEnd(pages, 0, |r.requests| - 1);
    r
  }

  /** How many purge calls the clear makes on these listing responses. */
  function PurgeCallCount(pages: seq<Page>): (r: nat)
    requires ListingEnds(pages, 0)
  {
    var listing := ListAllRowIds(pages);
    if listing.ids.Some? then NumBatches(|listing.ids.value|, PurgeBatchSize) else 0
  }

  function PurgeCalls(batches: seq<seq<RowId>>): (r: seq<Call>)
    ensures |r| == |batches|
    ensures forall k :: 0 <= k < |r| ==> r[k] == PurgeDraftRows(batches[k])
    decreases |batches|
  {
    if |batches| == 0 then [] else [PurgeDraftRows(batches[0])] + PurgeCalls(batches[1..])
  }

  /** The purge calls send the batches' ids, in batch order. */
  lemma {:induction false} PurgeCallsSend(batches: seq<seq<RowId>>)
    ensures PurgedIds(PurgeCalls(batches)) == Flatten(batches)
    decreases |batches|
  {
    if |batches| > 0 {
      var rest := PurgeCalls(batches[1..]);
      assert ([PurgeDraftRows(batches[0])] + rest)[1..] == rest;
      PurgeCallsSend(batches[1..]);
    }
  }

  /** Purge calls appended after the listing requests keep the requests in front. */
  lemma PurgesAfter(requests: seq<Call>, purges: seq<Call>)
    requires forall k :: 0 <= k < |purges| ==> purges[k].PurgeDraftRows?
    ensures (requests + purges)[..|requests|] == requests
    ensures forall j :: |requests| <= j < |requests| + |purges| ==> (requests + purges)[j].PurgeDraftRows?
  {
  }

  /** The calls a clear makes and the number of rows it deleted: `total_deleted`, or 0
      when the source returns (at a failed page or an empty table) before setting it. */
  datatype ClearReport = ClearReport(calls: seq<Call>, deleted: nat)

  /** `clear_hubdb_table`, given the listing responses and one status per purge call. */
  function ClearTable(pages: seq<Page>, purgeStatuses: seq<int>): (r: ClearReport)
    requires ListingEnds(pages, 0)
    requires |purgeStatuses| == PurgeCallCount(pages)
    ensures var listing := ListAllRowIds(pages);
            && |r.calls| == |listing.requests| + |purgeStatuses|
            && r.calls[..|listing.requests|] == listing.requests
            && forall j :: |listing.requests| <= j < |r.calls| ==> r.calls[j].PurgeDraftRows?
  {
    var listing := ListAllRowIds(pages);
    if listing.ids.None? then ClearReport(listing.requests, 0)
    else if |listing.ids.value| == 0 then ClearReport(listing.requests, 0)
    else
      var batches := Batches(listing.ids.value, PurgeBatchSize);
      BatchCount(listing.ids.value, PurgeBatchSize);
      var purges := PurgeCalls(batches);
      PurgesAfter(listing.requests, purges);
      ClearReport(listing.requests + purges,
                  Tally(batches, purgeStatuses, Purge).succeeded)
  }

  /** Listing comes first, and nothing is purged when a listing page fails (even after
      earlier pages succeeded) or when no ids were collected. */
  lemma NoPurgeUnlessListed(pages: seq<Page>, purgeStatuses: seq<int>)
    requires ListingEnds(pages, 0)
    requires |purgeStatuses| == PurgeCallCount(pages)
    ensures var listing := ListAllRowIds(pages);
            var r := ClearTable(pages, purgeStatuses);
            && |listing.requests| <= |r.calls|
            && r.calls[..|listing.requests|] == listing.requests
            && (listing.ids.None? || listing.ids.value == [] ==>
                  r.calls == listing.requests && r.deleted == 0 && PurgedIds(r.calls) == [])
  {
    var listing := ListAllRowIds(pages);
    var r := ClearTable(pages, purgeStatuses);
    if listing.ids.None? || listing.ids.value == [] {
      NoPurges(listing.requests);
    }
  }

  /** Listing requests followed by one purge call per batch of `ids`. */
  lemma PurgeTrace(requests: seq<Call>, ids: seq<RowId>)
    requires forall j :: 0 <= j < |requests| ==> requests[j].ListDraftRows?
    ensures var calls := requests + PurgeCalls(Batches(ids, PurgeBatchSize));
            && |calls| == |requests| + NumBatches(|ids|, PurgeBatchSize)
            && PurgedIds(calls) == ids
            && forall j :: |requests| <= j < |calls| ==>
                 calls[j].PurgeDraftRows? && 0 < |calls[j].ids| <= PurgeBatchSize
  {
    var batches := Batches(ids, PurgeBatchSize);
    BatchCount(ids, PurgeBatchSize);
    BatchesFlatten(ids, PurgeBatchSize);
    var purges := PurgeCalls(batches);
    PurgeCallsSend(batches);
    NoPurges(requests);
    PurgedIdsAppend(requests, purges);
    var calls := requests + purges;
    forall j | |requests| <= j < |calls|
      ensures calls[j].PurgeDraftRows? && 0 < |calls[j].ids| <= PurgeBatchSize
    {
      assert calls[j] == purges[j - |requests|];
    }
  }

  /** Every collected id is sent to the purge endpoint exactly once, in listing order, in
      calls of at most 100 ids; purge call k sends batch k, the one status k judges, and
      every batch is attempted whatever the earlier statuses. */
  lemma PurgesEveryId(pages: seq<Page>, purgeStatuses: seq<int>)
    requires ListingEnds(pages, 0)
    requires |purgeStatuses| == PurgeCallCount(pages)
    ensures var listing := ListAllRowIds(pages);
            var r := ClearTable(pages, purgeStatuses);
            listing.ids.Some? ==>
              && |r.calls| == |listing.requests| + |purgeStatuses|
              && PurgedIds(r.calls) == listing.ids.value
              && (forall j :: |listing.requests| <= j < |r.calls| ==>
                   r.calls[j].PurgeDraftRows? && 0 < |r.calls[j].ids| <= PurgeBatchSize)
              && forall k :: 0 <= k < |purgeStatuses| ==>
                   r.calls[|listing.requests| + k] == PurgeDraftRows(Batches(listing.ids.value, PurgeBatchSize)[k])
  {
    var listing := ListAllRowIds(pages);
    if listing.ids.Some? {
      BatchCount(listing.ids.value, PurgeBatchSize);
      if |listing.ids.value| > 0 {
        PurgeTrace(listing.requests, listing.ids.value);
      } else {
        NoPurges(listing.requests);
        NumBatchesStep(0, PurgeBatchSize);
      }
    }
  }

  /** `total_deleted` is the number of ids in the purge batches answered 200 or 204 (0 when
      the listing failed): it never exceeds the ids collected, equals them when every batch
      is accepted, and is 0 exactly when every batch is rejected. */
  lemma DeletedCount(pages: seq<Page>, purgeStatuses: seq<int>)
    requires ListingEnds(pages, 0)
    requires |purgeStatuses| == PurgeCallCount(pages)
    ensures var listing := ListAllRowIds(pages);
            var r := ClearTable(pages, purgeStatuses);
            && (listing.ids.None? ==> r.deleted == 0)
            && (listing.ids.Some? ==>
              && r.deleted ==
                 |Flatten(Select(Batches(listing.ids.value, PurgeBatchSize), purgeStatuses, Purge, true))|
              && r.deleted <= |listing.ids.value|
              && ((forall k :: 0 <= k < |purgeStatuses| ==> Accepts(Purge, purgeStatuses[k])) ==>
                    r.deleted == |listing.ids.value|)
              && (r.deleted == 0 <==>
                    forall k :: 0 <= k < |purgeStatuses| ==> !Accepts(Purge, purgeStatuses[k])))
  {
    var listing := ListAllRowIds(pages);
    if listing.ids.Some? {
      var ids := listing.ids.value;
      if |ids| > 0 {
        var batches := Batches(ids, PurgeBatchSize);
        BatchCount(ids, PurgeBatchSize);
        BatchesFlatten(ids, PurgeBatchSize);
        TallyTotal(batches, purgeStatuses, Purge);
        TallyCountsSelected(batches, purgeStatuses, Purge);
        NothingSucceededIff(batches, purgeStatuses, Purge);
        if forall k :: 0 <= k < |purgeStatuses| ==> Accepts(Purge, purgeStatuses[k]) {
          AllAccepted(batches, purgeStatuses, Purge);
        }
      } else {
        NumBatchesStep(0, PurgeBatchSize);
      }
    }
  }

  /** A clear only lists and purges: it never creates or publishes. */
  lemma ClearCallsOnly(pages: seq<Page>, purgeStatuses: seq<int>)
    requires ListingEnds(pages, 0)
    requires |purgeStatuses| == PurgeCallCount(pages)
    ensures var r := ClearTable(pages, purgeStatuses);
            forall j :: 0 <= j < |r.calls| ==> IsClearCall(r.calls[j])
  {
    var listing := ListAllRowIds(pages);
    var r := ClearTable(pages, purgeStatuses);
    assert forall j :: 0 <= j < |listing.requests| ==> listing.requests[j].ListDraftRows?;
    NoPurgeUnlessListed(pages, purgeStatuses);
    PurgesEveryId(pages, purgeStatuses);
    forall j | 0 <= j < |r.calls|
      ensures IsClearCall(r.calls[j])
    {
      if j < |listing.requests| {
        assert r.calls[j] == r.calls[..|listing.requests|][j];
      }
    }
  }
}
