/**
 * `receiveMessages`: one fetch of a batch of records from a shard, starting
 * after the stored cursor, and the sequence number the caller should store
 * next. Record decoding is the codec's; here it is a success/failure
 * predicate over the payload.
 */
module Receiving {
  import opened Optional
  import opened Upstream

  /** The `Limit` of every `GetRecords` request. */
  const BatchLimit: nat := 10

  datatype Failure = UpstreamFailed | DecodeFailed

  /** How `receiveMessages` settles: with a sequence number (possibly `undefined`), or by throwing. */
  datatype Received = Returned(sequenceNumber: Option<string>) | Threw(failure: Failure)

  /** What the two service calls of one iteration gave the batch scan. */
  datatype Fetching = FetchFailed | NoIterator | Batch(records: seq<Record>)

  /** The iterator asked for: after the starting sequence number when it is truthy, otherwise the latest. */
  function IteratorTypeFor(start: Option<string>): (t: ShardIteratorType)
    ensures t == Latest <==> !Truthy(start)
    ensures t.AfterSequenceNumber? ==> start == Some(t.startingSequenceNumber)
  {
    if Truthy(start) then AfterSequenceNumber(start.value) else Latest
  }

  /** The two service calls: a shard iterator, then, if one came back, at most `BatchLimit` records. */
  function FetchBatch(shardId: string, start: Option<string>, kinesis: Kinesis): Fetching
  {
    match kinesis.getShardIterator(GetShardIteratorInput(shardId, IteratorTypeFor(start)))
    case Failed => FetchFailed
    case Fetched(shardIterator) =>
      if !Truthy(shardIterator) then NoIterator
      else
        match kinesis.getRecords(GetRecordsInput(shardIterator.value, BatchLimit))
        case Failed => FetchFailed
        case Fetched(records) => Batch(records.GetOr([]))
  }

  /** The records a worker sees in one iteration (none when the fetch failed or no iterator came back). */
  function Observed(f: Fetching): seq<Record>
  {
    if f.Batch? then f.records else []
  }

  /** A record the scan does not skip: it has `Data` and a non-empty `SequenceNumber`. */
  predicate Usable(r: Record) {
    r.data.Some? && Truthy(r.sequenceNumber)
  }

  /** The sequence number of the last usable record of a batch, if any. */
  function LastUsable(batch: seq<Record>): Option<string>
  {
    if batch == [] then None
    else if Usable(batch[|batch| - 1]) then batch[|batch| - 1].sequenceNumber
    else LastUsable(batch[..|batch| - 1])
  }

  /** Record `i` is usable and no later record of the batch is. */
  predicate LastUsableAt(batch: seq<Record>, i: int)
    requires 0 <= i < |batch|
  {
    Usable(batch[i]) && forall j :: i < j < |batch| ==> !Usable(batch[j])
  }

  /** `LastUsable` is the sequence number of the last usable record, and is absent exactly when no record is usable. */
  lemma {:induction false} LastUsableCharacterised(batch: seq<Record>)
    ensures LastUsable(batch).Some? ==>
              exists i :: 0 <= i < |batch| && LastUsableAt(batch, i) && batch[i].sequenceNumber == LastUsable(batch)
    ensures LastUsable(batch).None? <==> forall i :: 0 <= i < |batch| ==> !Usable(batch[i])
  {
    if batch != [] {
      var n := |batch| - 1;
      var front := batch[..n];
      LastUsableCharacterised(front);
      if Usable(batch[n]) {
        assert LastUsableAt(batch, n);
      } else {
        assert forall i :: 0 <= i < n ==> batch[i] == front[i];
        if LastUsable(front).Some? {
          var i :| 0 <= i < n && LastUsableAt(front, i) && front[i].sequenceNumber == LastUsable(front);
          assert LastUsableAt(batch, i);
        }
      }
    }
  }

  /** Conversely, the last usable record's sequence number is what `LastUsable` gives. */
  lemma {:induction false} LastUsableIsLast(batch: seq<Record>, i: int)
    requires 0 <= i < |batch| && LastUsableAt(batch, i)
    ensures LastUsable(batch) == batch[i].sequenceNumber
  {
    var n := |batch| - 1;
    if i < n {
      var front := batch[..n];
      assert LastUsableAt(front, i);
      LastUsableIsLast(front, i);
    }
  }

  /** The codec accepts the payload of every usable record. */
  predicate DecodesAll(batch: seq<Record>, decodes: seq<bv8> -> bool) {
    forall i :: 0 <= i < |batch| && Usable(batch[i]) ==> decodes(batch[i].data.value)
  }

  /** What one `receiveMessages` call settles with. */
  function Receive(shardId: string, start: Option<string>, kinesis: Kinesis, decodes: seq<bv8> -> bool): Received
  {
    match FetchBatch(shardId, start, kinesis)
    case FetchFailed => Threw(UpstreamFailed)
    case NoIterator => Returned(start)
    case Batch(records) =>
      if DecodesAll(records, decodes) then Returned(if LastUsable(records).Some? then LastUsable(records) else start)
      else Threw(DecodeFailed)
  }

  /** `receiveMessages`: request an iterator, fetch one batch and scan it in arrival order. */
  method ReceiveMessages(shardId: string, start: Option<string>, kinesis: Kinesis, decodes: seq<bv8> -> bool)
    returns (r: Received)
    ensures r == Receive(shardId, start, kinesis, decodes)
  {
    var shardIterator := kinesis.getShardIterator(GetShardIteratorInput(shardId, IteratorTypeFor(start)));
    if shardIterator.Failed? {
      return Threw(UpstreamFailed);
    }
    if !Truthy(shardIterator.response) {
      return Returned(start);
    }
    var fetched := kinesis.getRecords(GetRecordsInput(shardIterator.response.value, BatchLimit));
    if fetched.Failed? {
      return Threw(UpstreamFailed);
    }
    var records := fetched.response.GetOr([]);
    var last: Option<string> := None;
    for i := 0 to |records|
      invariant last == LastUsable(records[..i])
      invariant DecodesAll(records[..i], decodes)
    {
      var record := records[i];
      assert records[..i + 1][..i] == records[..i];
      if record.data.None? || !Truthy(record.sequenceNumber) {
        continue;
      }
      last := record.sequenceNumber;
      if !decodes(record.data.value) {
        assert Usable(records[i]) && !decodes(records[i].data.value);
        return Threw(DecodeFailed);
      }
    }
    assert records[..|records|] == records;
    r := Returned(if last.Some? then last else start);
  }

  /**
   * What `receiveMessages` returns: the starting sequence number, or the
   * sequence number of the last usable record of the batch it fetched, which
   * is then truthy.
   */
  lemma ReceiveReturnsObserved(shardId: string, start: Option<string>, kinesis: Kinesis, decodes: seq<bv8> -> bool)
    ensures var r := Receive(shardId, start, kinesis, decodes);
            var batch := Observed(FetchBatch(shardId, start, kinesis));
            r.Returned? && r.sequenceNumber != start ==>
              Truthy(r.sequenceNumber) &&
              exists i :: 0 <= i < |batch| && LastUsableAt(batch, i) && batch[i].sequenceNumber == r.sequenceNumber
  {
    LastUsableCharacterised(Observed(FetchBatch(shardId, start, kinesis)));
  }

  /**
   * Conversely, when record `i` is the last usable record of the fetched
   * batch and every usable record decodes, the call returns its sequence number.
   */
  lemma ReceiveReturnsLastUsable(shardId: string, start: Option<string>, kinesis: Kinesis, decodes: seq<bv8> -> bool, i: int)
    requires FetchBatch(shardId, start, kinesis).Batch?
    requires var batch := FetchBatch(shardId, start, kinesis).records;
             0 <= i < |batch| && LastUsableAt(batch, i) && DecodesAll(batch, decodes)
    ensures Receive(shardId, start, kinesis, decodes) == Returned(FetchBatch(shardId, start, kinesis).records[i].sequenceNumber)
  {
    LastUsableIsLast(FetchBatch(shardId, start, kinesis).records, i);
  }

  /**
   * A batch without a usable record leaves the starting sequence number in
   * place, even when its records carry sequence numbers (a record without
   * `Data` is skipped before its sequence number is remembered).
   */
  lemma NoUsableRecordKeepsStart(shardId: string, start: Option<string>, kinesis: Kinesis, decodes: seq<bv8> -> bool)
    requires FetchBatch(shardId, start, kinesis).Batch?
    requires var batch := FetchBatch(shardId, start, kinesis).records;
             forall i :: 0 <= i < |batch| ==> !Usable(batch[i])
    ensures Receive(shardId, start, kinesis, decodes) == Returned(start)
  {
    LastUsableCharacterised(FetchBatch(shardId, start, kinesis).records);
  }

  /**
   * A usable record the codec rejects makes the call throw, whatever usable
   * records came before it: the progress of the batch is lost.
   */
  lemma DecodeFailureLosesBatch(shardId: string, start: Option<string>, kinesis: Kinesis, decodes: seq<bv8> -> bool, i: int)
    requires FetchBatch(shardId, start, kinesis).Batch?
    requires var batch := FetchBatch(shardId, start, kinesis).records;
             0 <= i < |batch| && Usable(batch[i]) && !decodes(batch[i].data.value)
    ensures Receive(shardId, start, kinesis, decodes) == Threw(DecodeFailed)
  {
  }
}
