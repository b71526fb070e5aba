# Kinesis shard consumer: a Dafny model

This project models the scheduler at the heart of the Kinesis consumer in
`consumer.ts`. It has three parts.

- **The lease table.** `LimitedMap` is a `Map` whose `set` throws once the size
  has reached a limit. The consumer keeps one, `leaseMap`, with limit
  `poolSize` = 2. It maps each shard id being consumed to its worker.
- **The poll tick.** The `setInterval` callback does nothing when the table is
  full. Otherwise it lists the stream's shards and walks them in listing order.
  It leases every non-empty shard id that is not leased yet, while capacity
  remains.
- **The worker loop.** Each leased shard runs a `while (true)` loop. Every pass
  calls `receiveMessages` from the shard's stored cursor. `receiveMessages`
  asks for an iterator after that sequence number, or at `LATEST` when there is
  none. It fetches at most 10 records and scans them in order. Records without
  `Data` or without a sequence number are skipped. The result is the sequence
  number of the last usable record, or the starting one. The loop stores a
  truthy result in `sequenceKeeper`. If the pass throws, the loop deletes the
  shard's lease and rethrows.

Layout:

- `optional.dfy`: `Option`, the model's `undefined`.
- `limited_map.dfy`: the `LimitedMap` class over a `map` field.
- `upstream.dfy`: the requests, records and responses of the Kinesis service.
  The service itself is two total functions that the caller passes in. A
  rejected call is `Failed`.
- `receive.dfy`: `receiveMessages`.
  - `Receive` is its specification function.
  - `ReceiveMessages` is the loop, proved equal to `Receive`.
  - The lemmas say what `Receive` returns.
- `scheduler.dfy`: the `Consumer` class.
  - It holds `leaseMap` and `sequenceKeeper`.
  - `Tick` is proved against the specification function `Reconcile`, and the
    lemmas about `Reconcile` state what a tick does.
  - `WorkerIteration` is one pass of a worker loop.

JavaScript truthiness is written out. An optional string is truthy when it is
present and not `""` (`Upstream.Truthy`). A missing shard id is `""`. A record's
`Data` is a byte array, and a byte array is truthy even when empty, so only a
missing `Data` makes the scan skip a record.

The `Consumer` invariant (`Scheduler.Consumer.Valid`) has three parts:

- The lease table never holds more than `PoolSize` leases.
- Every lease is held under a non-empty shard id. The worker handle is a token
  `Worker(shardId)` built from the shard id, standing for the promise of that
  shard's loop.
- Every stored cursor is non-empty, and it is a sequence number of a usable
  record that a worker fetched for that same shard. The ghost set
  `ObservedSequenceNumbers` records those.

The constructor establishes the invariant, and `Tick` and `WorkerIteration`
preserve it.

A record without `Data` does not advance the cursor, because the skip at
consumer.ts:75-77 comes before the assignment at consumer.ts:79
(`Receiving.NoUsableRecordKeepsStart`).

## Model

| member | source | states |
|---|---|---|
| LimitedMaps.LimitedMap.constructor | consumer.ts:13-16 | a new registry is empty, has the given limit and satisfies the size bound |
| LimitedMaps.LimitedMap.AtLimit | consumer.ts:26-28 | true exactly when the size is at least the limit |
| LimitedMaps.LimitedMap.Set | consumer.ts:18-24 | at or over the limit it throws and leaves the map unchanged, even for a key already present; below it, only `key` is inserted or overwritten; the size bound is preserved |
| LimitedMaps.LimitedMap.Has | consumer.ts:109 | true exactly when the key is present (inherited `has`) |
| LimitedMaps.LimitedMap.Get | consumer.ts:13 | the stored value, or `undefined` for an absent key (inherited `get`) |
| LimitedMaps.LimitedMap.Delete | consumer.ts:123 | removes exactly that key; deleting an absent key changes nothing; the size bound is preserved |
| Receiving.IteratorTypeFor | consumer.ts:51-56 | `AFTER_SEQUENCE_NUMBER` the starting number exactly when that number is truthy, `LATEST` otherwise |
| Receiving.ReceiveMessages | consumer.ts:41-89 | the loop returns what `Receive` specifies: a throw when either service call rejects; the starting number when no iterator comes back; a throw when a usable record fails to decode; otherwise the last usable record's sequence number, or the starting one if there is none |
| Receiving.LastUsableCharacterised | consumer.ts:72-85 | the remembered number is the sequence number of a usable record with no usable record after it, and it is absent exactly when no record of the batch is usable |
| Receiving.LastUsableIsLast | consumer.ts:74-85 | conversely, the last usable record's sequence number is the one remembered |
| Receiving.ReceiveReturnsObserved | consumer.ts:61-88 | a returned value other than the starting number is truthy and is the sequence number of the last usable record of the batch just fetched |
| Receiving.ReceiveReturnsLastUsable | consumer.ts:74-85 | when a usable record is the last usable one of the fetched batch and every usable record decodes, the call returns that record's sequence number |
| Receiving.NoUsableRecordKeepsStart | consumer.ts:74-85 | a batch without a usable record, such as records lacking `Data`, returns the starting number unchanged |
| Receiving.DecodeFailureLosesBatch | consumer.ts:79-81 | a usable record the codec rejects makes the call throw, discarding the progress of earlier records |
| Scheduler.ReconcileAtCapacity | consumer.ts:104-107 | once the table is at capacity, the remaining listed shards change nothing |
| Scheduler.ReconcileOnlyAdds | consumer.ts:104-131 | a tick only adds leases: existing leases are untouched; each added one is for a non-empty, listed, previously unleased shard id, under the token `Worker(shardId)` |
| Scheduler.ReconcileWithinLimit | consumer.ts:104-131 | a tick that starts within capacity ends within capacity |
| Scheduler.ReconcileComplete | consumer.ts:104-131 | after a tick every non-empty listed shard id is leased, unless the table is full |
| Scheduler.ReconcileTurnedAway | consumer.ts:104-109 | shards are admitted in listing order: when a non-empty listed shard id ends up unleased, the table is what it was after the shards before it, so no later shard was admitted |
| Scheduler.Consumer.constructor | consumer.ts:91-93 | both tables start empty, the lease table with limit `poolSize`, and the invariant holds |
| Scheduler.Consumer.Tick | consumer.ts:95-131 | at capacity it returns at once and changes nothing; a rejected listing changes nothing; otherwise the lease table becomes `Reconcile` of the old one over the listing (an undefined `Shards` being empty); its guarded `set` never throws; `sequenceKeeper` is never changed; the invariant is preserved |
| Scheduler.Consumer.WorkerIteration | consumer.ts:110-126 | receives from the shard's stored cursor; on success it keeps every lease and stores the result only when truthy, and a stored cursor is never cleared; on a throw it deletes the shard's lease and leaves `sequenceKeeper` unchanged; the invariant that cursors hold only observed sequence numbers is preserved |

## Left out

- The Kinesis calls `ListShards`, `GetShardIterator` and `GetRecords` are network I/O. Their settled results are inputs: the listing is a parameter of `Tick`, and the other two are functions in `Kinesis`.
- The stream name in each request comes from configuration and is left out of the request values.
- `registry.decode` and the Avro schema are foreign codec libraries. Decoding is a success/failure predicate over the payload, and the decoded message is not modelled.
- `console.log` of each message is not modelled.
- `setInterval` timing is not modelled. Neither are overlapping ticks, promise scheduling or interleaving between workers. One tick and one worker pass are atomic steps.
- The unbounded `while (true)` loop is one `WorkerIteration`. The loop ending after a throw is left to the caller, which does not call `WorkerIteration` again.
- Starting a worker's promise at admission is not modelled: the tick records the lease, and the worker's passes are separate steps.
- The promise stored as a lease is not modelled: the lease holds the token `Worker(shardId)`, so nothing is proved about the promise itself.
- The rejected promise of a tick whose `ListShards` call fails surfaces only as `ListingFailed`.
- LimitedMaps.LimitedMap.constructor: the limit is a `nat`. A negative, fractional or NaN JavaScript number is not modelled. The consumer uses 2.
- The `this` returned by `set` and the boolean returned by `delete` are not modelled, because the consumer ignores both.
- The iteration order of a JavaScript `Map` is not modelled, because nothing iterates the lease table or the cursor store.
- Non-decreasing cursor values: a cursor only ever holds a sequence number observed for its shard, but whether those numbers increase depends on the service's ordering. The code does not check it.
- Cancellation and graceful shutdown of workers do not exist in the code.
- producer.ts, consumer-schema-fetch.ts and config.ts are not part of this model. They are schema registration, code generation and environment lookup, all I/O.
