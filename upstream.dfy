/**
 * What the consumer exchanges with the Kinesis service: the requests it
 * sends, the records it gets back, and the service itself as two total
 * functions from request to response. A call that rejects is `Failed`.
 */
module Upstream {
  import opened Optional

  /** JavaScript truthiness of an optional string: `undefined` and `""` are falsy. */
  predicate Truthy(s: Option<string>) {
    s.Some? && s.value != ""
  }

  /** The settled promise of one service call: its response, or a rejection. */
  datatype Fetch<+T> = Fetched(response: T) | Failed

  /** `ShardIteratorType` with its `StartingSequenceNumber`, for the two kinds the consumer asks for. */
  datatype ShardIteratorType = Latest | AfterSequenceNumber(startingSequenceNumber: string)

  datatype GetShardIteratorInput = GetShardIteratorInput(shardId: string, iteratorType: ShardIteratorType)

  datatype GetRecordsInput = GetRecordsInput(shardIterator: string, limit: nat)

  /** A record of a `GetRecords` response; both fields are optional in the response type. */
  datatype Record = Record(data: Option<seq<bv8>>, sequenceNumber: Option<string>)

  /**
   * The two calls a worker makes. `ShardIterator` and `Records` are optional
   * in the responses (`?.ShardIterator`, `?.Records`), hence the `Option`s.
   */
  datatype Kinesis = Kinesis(
    getShardIterator: GetShardIteratorInput -> Fetch<Option<string>>,
    getRecords: GetRecordsInput -> Fetch<Option<seq<Record>>>)
}
