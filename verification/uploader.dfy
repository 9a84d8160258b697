/** `transform_data_for_hubdb` and `batch_insert_rows`: wrap each row as `{"values": row}`
    and create them in batches, counting rows of accepted and of rejected batches. */
module Uploader {
  import opened Batching
  import opened Normalization
  import opened Api

  /** The default `batch_size`, the one the sync uses. */
  const InsertBatchSize: nat := 100

  /** `[{"values": row} for row in data]`. */
  function Transform(data: seq<Row>): (r: seq<Envelope>)
    ensures |r| == |data|
    ensures forall i :: 0 <= i < |r| ==> r[i].values == data[i]
  {
    seq(|data|, i requires 0 <= i < |data| => Envelope(data[i]))
  }

  function Unwrap(envelopes: seq<Envelope>): (r: seq<Row>)
  {
    seq(|envelopes|, i requires 0 <= i < |envelopes| => envelopes[i].values)
  }

  /** Wrapping loses nothing: unwrapping gives back the rows, same length, same order. */
  lemma TransformRoundTrip(data: seq<Row>)
    ensures Unwrap(Transform(data)) == data
  {
  }

  function CreateCalls(batches: seq<seq<Envelope>>): (r: seq<Call>)
    ensures |r| == |batches|
    ensures forall k :: 0 <= k < |r| ==> r[k] == CreateDraftRows(batches[k])
    decreases |batches|
  {
    if |batches| == 0 then [] else [CreateDraftRows(batches[0])] + CreateCalls(batches[1..])
  }

  /** The create calls send the batches' rows, in batch order. */
  lemma {:induction false} CreateCallsSend(batches: seq<seq<Envelope>>)
    ensures CreatedRows(CreateCalls(batches)) == Flatten(batches)
    decreases |batches|
  {
    if |batches| > 0 {
      var rest := CreateCalls(batches[1..]);
      assert ([CreateDraftRows(batches[0])] + rest)[1..] == rest;
      CreateCallsSend(batches[1..]);
    }
  }

  /** How many create calls `range(0, n, batch_size)` makes. */
  function CreateCallCount(n: nat, batchSize: int): (r: nat)
  {
    if batchSize > 0 then NumBatches(n, batchSize) else 0
  }

  /** The create calls made and the `(successful, failed)` pair returned. */
  datatype InsertReport = InsertReport(calls: seq<Call>, successful: nat, failed: nat)

  /** `batch_insert_rows`, given one status per create call. A zero batch size raises at
      the `total_batches` division; a negative one gives an empty `range`. */
  function InsertRows(rows: seq<Envelope>, batchSize: int, statuses: seq<int>): (r: Result<InsertReport>)
    requires |statuses| == CreateCallCount(|rows|, batchSize)
    ensures r.Failure? <==> batchSize == 0
    ensures r.Success? ==> |r.value.calls| == |statuses|
    ensures r.Success? ==> forall k :: 0 <= k < |r.value.calls| ==> r.value.calls[k].CreateDraftRows?
    ensures r.Success? && batchSize > 0 ==> r.value.successful + r.value.failed == |rows|
  {
    if batchSize == 0 then Failure(ZeroDivisionError)
    else if batchSize < 0 then Success(InsertReport([], 0, 0))
    else
      var batches := Batches(rows, batchSize);
      BatchCount(rows, batchSize);
      BatchesFlatten(rows, batchSize);
      TallyTotal(batches, statuses, Create);
      var tally := Tally(batches, statuses, Create);
      Success(InsertReport(CreateCalls(batches), tally.succeeded, tally.failed))
  }

  /** One create call per batch, in batch order (call k sends batch k, the one status k
      judges), each with at most `batchSize` rows, whatever the statuses were; together they send every row once, in order; `successful` is the
      number of rows in batches answered 200 or 201 and `failed` the number in the others. */
  lemma InsertCallsAndCounts(rows: seq<Envelope>, batchSize: int, statuses: seq<int>)
    requires |statuses| == CreateCallCount(|rows|, batchSize)
    ensures InsertRows(rows, batchSize, statuses).Failure? <==> batchSize == 0
    ensures batchSize < 0 ==> InsertRows(rows, batchSize, statuses) == Success(InsertReport([], 0, 0))
    ensures batchSize > 0 ==>
              var report := InsertRows(rows, batchSize, statuses).value;
              && |report.calls| == |statuses|
              && (forall k :: 0 <= k < |report.calls| ==>
                    report.calls[k].CreateDraftRows? && 0 < |report.calls[k].rows| <= batchSize)
              && (forall k :: 0 <= k < |report.calls| ==>
                    report.calls[k] == CreateDraftRows(Batches(rows, batchSize)[k]))
              && CreatedRows(report.calls) == rows
              && report.successful + report.failed == |rows|
              && report.successful == |Flatten(Select(Batches(rows, batchSize), statuses, Create, true))|
              && report.failed == |Flatten(Select(Batches(rows, batchSize), statuses, Create, false))|
  {
    if batchSize > 0 {
      var batches := Batches(rows, batchSize);
      BatchCount(rows, batchSize);
      BatchesFlatten(rows, batchSize);
      CreateCallsSend(batches);
      TallyTotal(batches, statuses, Create);
      TallyCountsSelected(batches, statuses, Create);
    }
  }

  /** `successful` is zero exactly when every create batch was rejected, and `failed` is zero
      when every batch was accepted. */
  lemma InsertSuccessIff(rows: seq<Envelope>, batchSize: int, statuses: seq<int>)
    requires batchSize > 0
    requires |statuses| == CreateCallCount(|rows|, batchSize)
    ensures var report := InsertRows(rows, batchSize, statuses).value;
            && (report.successful == 0 <==>
                  forall k :: 0 <= k < |statuses| ==> !Accepts(Create, statuses[k]))
            && ((forall k :: 0 <= k < |statuses| ==> Accepts(Create, statuses[k])) ==>
                  report.successful == |rows| && report.failed == 0)
  {
    var batches := Batches(rows, batchSize);
    BatchCount(rows, batchSize);
    BatchesFlatten(rows, batchSize);
    TallyTotal(batches, statuses, Create);
    NothingSucceededIff(batches, statuses, Create);
    if forall k :: 0 <= k < |statuses| ==> Accepts(Create, statuses[k]) {
      AllAccepted(batches, statuses, Create);
    }
  }

  /** Slicing `rows[i:i + size]` off the front of what is left is the next of the batches
      `all`: one more create call, and one more batch counted by its own status. */
  lemma InsertStep(rows: seq<Envelope>, size: nat, statuses: seq<int>, all: seq<seq<Envelope>>, i: nat, k: nat)
    requires size > 0 && i < |rows| && k <= |all| == |statuses|
    requires Batches(rows[i..], size) == all[k..]
    ensures var end := Min(i + size, |rows|);
            var t, t' := Tally(all[k..], statuses[k..], Create), Tally(all[k + 1..], statuses[k + 1..], Create);
            && k < |all| && all[k] == rows[i..end]
            && Batches(rows[end..], size) == all[k + 1..]
            && CreateCalls(all)[..k + 1] == CreateCalls(all)[..k] + [CreateDraftRows(rows[i..end])]
            && t == (if Accepts(Create, statuses[k]) then Tallied(t'.succeeded + end - i, t'.failed)
                     else Tallied(t'.succeeded, t'.failed + end - i))
  {
    var end := Min(i + size, |rows|);
    assert rows[i..][..end - i] == rows[i..end];
    assert rows[i..][end - i..] == rows[end..];
    assert all[k..] == [rows[i..end]] + Batches(rows[end..], size);
    assert all[k..][1..] == all[k + 1..];
    assert statuses[k..][1..] == statuses[k + 1..];
  }

  /** The `for i in range(0, total_rows, batch_size)` loop itself, with its two counters. */
  method BatchInsertRows(rows: seq<Envelope>, batchSize: int, statuses: seq<int>)
    returns (result: Result<InsertReport>)
    requires |statuses| == CreateCallCount(|rows|, batchSize)
    ensures result == InsertRows(rows, batchSize, statuses)
  {
    if batchSize == 0 {
      return Failure(ZeroDivisionError);
    }
    if batchSize < 0 {
      return Success(InsertReport([], 0, 0));
    }
    BatchCount(rows, batchSize);
    ghost var all := Batches(rows, batchSize);
    ghost var total := Tally(all, statuses, Create);
    var calls: seq<Call> := [];
    var successful, failed := 0, 0;
    var i, k := 0, 0;
    assert rows[0..] == rows && all[0..] == all;
    while i < |rows|
      invariant 0 <= i <= |rows| && k <= |all|
      invariant Batches(rows[i..], batchSize) == all[k..]
      invariant calls == CreateCalls(all)[..k]
      invariant successful + Tally(all[k..], statuses[k..], Create).succeeded == total.succeeded
      invariant failed + Tally(all[k..], statuses[k..], Create).failed == total.failed
      decreases |rows| - i
    {
      var end := Min(i + batchSize, |rows|);
      var batch := rows[i..end];
      InsertStep(rows, batchSize, statuses, all, i, k);
      if Accepts(Create, statuses[k]) {
        successful := successful + |batch|;
      } else {
        failed := failed + |batch|;
      }
      calls := calls + [CreateDraftRows(batch)];
      i, k := end, k + 1;
    }
    assert rows[i..] == [] && |all[k..]| == 0;
    assert CreateCalls(all)[..k] == CreateCalls(all);
    return Success(InsertReport(calls, successful, failed));
  }
}
