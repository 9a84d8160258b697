/** The HubDB REST calls hubdb_sync makes, recorded as a trace, and the status codes
    each endpoint counts as success. */
module Api {
  import opened Batching
  import opened Normalization

  datatype Option<+T> = None | Some(value: T)

  /** Python exceptions the modelled code can raise. */
  datatype Fault = ZeroDivisionError

  datatype Result<+T> = Success(value: T) | Failure(fault: Fault)

  /** A HubDB row id, as returned by the listing endpoint. */
  type RowId = string

  /** The create endpoint's row envelope `{"values": row}`. */
  datatype Envelope = Envelope(values: Row)

  /** One external call of a run, in the order it is made. */
  datatype Call =
    | QueryWarehouse                                   // the SELECT against the warehouse
    | ListDraftRows(limit: nat, after: Option<string>)  // GET rows/draft
    | PurgeDraftRows(ids: seq<RowId>)                  // POST rows/draft/batch/purge
    | CreateDraftRows(rows: seq<Envelope>)             // POST rows/draft/batch/create
    | PublishDraft                                     // POST draft/publish

  /** Calls made while clearing the table. */
  predicate IsClearCall(c: Call)
  {
    c.ListDraftRows? || c.PurgeDraftRows?
  }

  datatype Endpoint = Purge | Create | Publish

  /** The status codes each POST endpoint's caller treats as success. */
  predicate Accepts(endpoint: Endpoint, status: int)
  {
    match endpoint
    case Purge => status == 200 || status == 204
    case Create => status == 200 || status == 201
    case Publish => status == 200 || status == 201
  }

  /** Items of accepted batches and items of rejected batches. */
  datatype Tallied = Tallied(succeeded: nat, failed: nat)

  /** Best-effort accounting: each batch's size goes to `succeeded` or `failed` by its own
      status alone, and a rejected batch never stops the later ones. A counter only grows
      on its own outcome: nothing fails when every batch is accepted, and nothing succeeds
      when every batch is rejected. */
  function Tally<T>(batches: seq<seq<T>>, statuses: seq<int>, endpoint: Endpoint): (r: Tallied)
    requires |statuses| == |batches|
    ensures (forall k :: 0 <= k < |statuses| ==> Accepts(endpoint, statuses[k])) ==> r.failed == 0
    ensures (forall k :: 0 <= k < |statuses| ==> !Accepts(endpoint, statuses[k])) ==> r.succeeded == 0
    decreases |batches|
  {
    if |batches| == 0 then Tallied(0, 0)
    else
      assert forall k :: 1 <= k < |statuses| ==> statuses[1..][k - 1] == statuses[k];
      var rest := Tally(batches[1..], statuses[1..], endpoint);
      if Accepts(endpoint, statuses[0]) then Tallied(rest.succeeded + |batches[0]|, rest.failed)
      else Tallied(rest.succeeded, rest.failed + |batches[0]|)
  }

  /** Every item is counted exactly once, as succeeded or as failed. */
  lemma {:induction false} TallyTotal<T>(batches: seq<seq<T>>, statuses: seq<int>, endpoint: Endpoint)
    requires |statuses| == |batches|
    ensures Tally(batches, statuses, endpoint).succeeded + Tally(batches, statuses, endpoint).failed
            == |Flatten(batches)|
    decreases |batches|
  {
    if |batches| > 0 {
      TallyTotal(batches[1..], statuses[1..], endpoint);
    }
  }

  /** When no batch is empty, nothing succeeded exactly when every batch was rejected. */
  lemma {:induction false} NothingSucceededIff<T>(batches: seq<seq<T>>, statuses: seq<int>, endpoint: Endpoint)
    requires |statuses| == |batches|
    requires forall k :: 0 <= k < |batches| ==> |batches[k]| > 0
    ensures Tally(batches, statuses, endpoint).succeeded == 0 <==>
            forall k :: 0 <= k < |statuses| ==> !Accepts(endpoint, statuses[k])
    decreases |batches|
  {
    if |batches| > 0 {
      NothingSucceededIff(batches[1..], statuses[1..], endpoint);
      assert forall k :: 1 <= k < |statuses| ==> statuses[1..][k - 1] == statuses[k];
    }
  }

  /** When every batch is accepted, every item is counted as a success. */
  lemma {:induction false} AllAccepted<T>(batches: seq<seq<T>>, statuses: seq<int>, endpoint: Endpoint)
    requires |statuses| == |batches|
    requires forall k :: 0 <= k < |statuses| ==> Accepts(endpoint, statuses[k])
    ensures Tally(batches, statuses, endpoint) == Tallied(|Flatten(batches)|, 0)
    decreases |batches|
  {
    if |batches| > 0 {
      AllAccepted(batches[1..], statuses[1..], endpoint);
    }
  }

  /** When exactly batch j is rejected, exactly its items are counted as failed. */
  lemma {:induction false} OneRejected<T>(batches: seq<seq<T>>, statuses: seq<int>, endpoint: Endpoint, j: nat)
    requires |statuses| == |batches|
    requires j < |batches|
    requires !Accepts(endpoint, statuses[j])
    requires forall k :: 0 <= k < |statuses| && k != j ==> Accepts(endpoint, statuses[k])
    ensures Tally(batches, statuses, endpoint).failed == |batches[j]|
    ensures Tally(batches, statuses, endpoint).succeeded == |Flatten(batches)| - |batches[j]|
    decreases |batches|
  {
    TallyTotal(batches, statuses, endpoint);
    if j == 0 {
      AllAccepted(batches[1..], statuses[1..], endpoint);
    } else {
      OneRejected(batches[1..], statuses[1..], endpoint, j - 1);
    }
  }

  /** The batches whose status the endpoint accepts (`accepted`) or rejects (`!accepted`),
      in batch order. */
  function Select<T>(batches: seq<seq<T>>, statuses: seq<int>, endpoint: Endpoint, accepted: bool): (r: seq<seq<T>>)
    requires |statuses| == |batches|
    decreases |batches|
  {
    if |batches| == 0 then []
    else
      var rest := Select(batches[1..], statuses[1..], endpoint, accepted);
      if Accepts(endpoint, statuses[0]) == accepted then [batches[0]] + rest else rest
  }

  /** The counters hold exactly the rows of the accepted batches and the rows of the
      rejected batches. */
  lemma {:induction false} TallyCountsSelected<T>(batches: seq<seq<T>>, statuses: seq<int>, endpoint: Endpoint)
    requires |statuses| == |batches|
    ensures Tally(batches, statuses, endpoint).succeeded == |Flatten(Select(batches, statuses, endpoint, true))|
    ensures Tally(batches, statuses, endpoint).failed == |Flatten(Select(batches, statuses, endpoint, false))|
    decreases |batches|
  {
    if |batches| > 0 {
      TallyCountsSelected(batches[1..], statuses[1..], endpoint);
      var accepted := Select(batches[1..], statuses[1..], endpoint, true);
      var rejected := Select(batches[1..], statuses[1..], endpoint, false);
      assert ([batches[0]] + accepted)[1..] == accepted;
      assert ([batches[0]] + rejected)[1..] == rejected;
    }
  }

  /** Row ids sent to the purge endpoint, in call order. */
  function PurgedIds(calls: seq<Call>): (r: seq<RowId>)
  {
    if |calls| == 0 then []
    else (if calls[0].PurgeDraftRows? then calls[0].ids else []) + PurgedIds(calls[1..])
  }

  /** Row envelopes sent to the create endpoint, in call order. */
  function CreatedRows(calls: seq<Call>): (r: seq<Envelope>)
  {
    if |calls| == 0 then []
    else (if calls[0].CreateDraftRows? then calls[0].rows else []) + CreatedRows(calls[1..])
  }

  /** Number of publish calls. */
  function PublishCount(calls: seq<Call>): (r: nat)
  {
    if |calls| == 0 then 0
    else (if calls[0].PublishDraft? then 1 else 0) + PublishCount(calls[1..])
  }

  /** What a trace sends to the purge endpoint splits along the trace. */
  lemma {:induction false} PurgedIdsAppend(a: seq<Call>, b: seq<Call>)
    ensures PurgedIds(a + b) == PurgedIds(a) + PurgedIds(b)
    decreases |a|
  {
    if |a| == 0 {
      assert a + b == b;
    } else {
      assert (a + b)[1..] == a[1..] + b;
      PurgedIdsAppend(a[1..], b);
    }
  }

  /** What a trace sends to the create endpoint splits along the trace. */
  lemma {:induction false} CreatedRowsAppend(a: seq<Call>, b: seq<Call>)
    ensures CreatedRows(a + b) == CreatedRows(a) + CreatedRows(b)
    decreases |a|
  {
    if |a| == 0 {
      assert a + b == b;
    } else {
      assert (a + b)[1..] == a[1..] + b;
      CreatedRowsAppend(a[1..], b);
    }
  }

  /** The publish calls of a trace add up along the trace. */
  lemma {:induction false} PublishCountAppend(a: seq<Call>, b: seq<Call>)
    ensures PublishCount(a + b) == PublishCount(a) + PublishCount(b)
    decreases |a|
  {
    if |a| == 0 {
      assert a + b == b;
    } else {
      assert (a + b)[1..] == a[1..] + b;
      PublishCountAppend(a[1..], b);
    }
  }

  /** A trace without purge calls purges nothing. */
  lemma {:induction false} NoPurges(calls: seq<Call>)
    requires forall k :: 0 <= k < |calls| ==> !calls[k].PurgeDraftRows?
    ensures PurgedIds(calls) == []
    decreases |calls|
  {
    if |calls| > 0 {
      NoPurges(calls[1..]);
    }
  }

  /** A trace without create calls creates nothing. */
  lemma {:induction false} NoCreates(calls: seq<Call>)
    requires forall k :: 0 <= k < |calls| ==> !calls[k].CreateDraftRows?
    ensures CreatedRows(calls) == []
    decreases |calls|
  {
    if |calls| > 0 {
      NoCreates(calls[1..]);
    }
  }

  /** Calls that purge nothing can be dropped from the front of a trace. */
  lemma {:induction false} PurgedIdsSkip(a: seq<Call>, b: seq<Call>)
    requires forall k :: 0 <= k < |a| ==> !a[k].PurgeDraftRows?
    ensures PurgedIds(a + b) == PurgedIds(b)
    decreases |a|
  {
    if |a| == 0 {
      assert a + b == b;
    } else {
      assert (a + b)[1..] == a[1..] + b;
      PurgedIdsSkip(a[1..], b);
    }
  }

  /** Calls that purge nothing can be dropped from the end of a trace. */
  lemma PurgedIdsTrim(a: seq<Call>, b: seq<Call>)
    requires forall k :: 0 <= k < |b| ==> !b[k].PurgeDraftRows?
    ensures PurgedIds(a + b) == PurgedIds(a)
  {
    PurgedIdsAppend(a, b);
    NoPurges(b);
  }

  /** Calls that create nothing can be dropped from the front of a trace. */
  lemma {:induction false} CreatedRowsSkip(a: seq<Call>, b: seq<Call>)
    requires forall k :: 0 <= k < |a| ==> !a[k].CreateDraftRows?
    ensures CreatedRows(a + b) == CreatedRows(b)
    decreases |a|
  {
    if |a| == 0 {
      assert a + b == b;
    } else {
      assert (a + b)[1..] == a[1..] + b;
      CreatedRowsSkip(a[1..], b);
    }
  }

  /** Calls that create nothing can be dropped from the end of a trace. */
  lemma CreatedRowsTrim(a: seq<Call>, b: seq<Call>)
    requires forall k :: 0 <= k < |b| ==> !b[k].CreateDraftRows?
    ensures CreatedRows(a + b) == CreatedRows(a)
  {
    CreatedRowsAppend(a, b);
    NoCreates(b);
  }

  /** A trace publishes once per publish call it holds. */
  lemma {:induction false} PublishesPerCall(calls: seq<Call>)
    ensures (forall k :: 0 <= k < |calls| ==> !calls[k].PublishDraft?) ==> PublishCount(calls) == 0
    ensures (forall k :: 0 <= k < |calls| ==> calls[k].PublishDraft?) ==> PublishCount(calls) == |calls|
    decreases |calls|
  {
    if |calls| > 0 {
      PublishesPerCall(calls[1..]);
    }
  }
}
