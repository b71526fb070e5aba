/**
 * The consumer's scheduler: the lease table (`leaseMap`, capacity
 * `PoolSize`), the cursor store (`sequenceKeeper`), the poll tick that
 * admits a worker for every unleased listed shard while capacity remains,
 * and one iteration of a shard's worker loop.
 */
module Scheduler {
  import opened Optional
  import opened Upstream
  import opened Receiving
  import opened LimitedMaps

  /** `poolSize`: the most shards consumed at once. */
  const PoolSize: nat := 2

  /** The promise of a shard's worker loop, known only by the shard it consumes. */
  datatype Worker = Worker(shardId: string)

  /** How a tick ends: at capacity before listing, with a rejected listing, or after the reconciliation. */
  datatype TickOutcome = SkippedAtLimit | ListingFailed | Reconciled

  /** Every lease is held under a non-empty shard id, as the token `Worker` of that id. */
  predicate LeasesWellFormed(leases: map<string, Worker>) {
    forall s :: s in leases ==> s != "" && leases[s] == Worker(s)
  }

  /** One call of the tick's `forEach` callback on a listed shard id (`""` standing for a missing one). */
  function Admit(leases: map<string, Worker>, limit: nat, shardId: string): map<string, Worker>
  {
    if |leases| >= limit || shardId == "" || shardId in leases then leases
    else leases[shardId := Worker(shardId)]
  }

  /** The lease table after the callback has run on every listed shard id, in listing order. */
  function Reconcile(leases: map<string, Worker>, limit: nat, shards: seq<string>): map<string, Worker>
    decreases |shards|
  {
    if shards == [] then leases
    else Reconcile(Admit(leases, limit, shards[0]), limit, shards[1..])
  }

  /** The cursor stored for a shard, `undefined` when there is none. */
  function Cursor(sequenceKeeper: map<string, string>, shardId: string): Option<string>
  {
    if shardId in sequenceKeeper then Some(sequenceKeeper[shardId]) else None
  }

  /** The (shard, sequence number) pairs of the usable records of a batch fetched for `shardId`. */
  function ObservedPairs(shardId: string, batch: seq<Record>): set<(string, string)>
  {
    set i | 0 <= i < |batch| && Usable(batch[i]) :: (shardId, batch[i].sequenceNumber.value)
  }

  /** A table at capacity admits nothing more. */
  lemma {:induction false} ReconcileAtCapacity(leases: map<string, Worker>, limit: nat, shards: seq<string>)
    requires |leases| >= limit
    ensures Reconcile(leases, limit, shards) == leases
    decreases |shards|
  {
    if shards != [] {
      ReconcileAtCapacity(leases, limit, shards[1..]);
    }
  }

  /**
   * A tick only adds leases: existing ones are untouched, and each added one
   * is for a non-empty listed shard id that was not leased, under its `Worker` token.
   */
  lemma {:induction false} ReconcileOnlyAdds(leases: map<string, Worker>, limit: nat, shards: seq<string>)
    ensures var r := Reconcile(leases, limit, shards);
            forall s :: s in leases ==> s in r && r[s] == leases[s]
    ensures var r := Reconcile(leases, limit, shards);
            forall s :: s in r && s !in leases ==> s != "" && s in shards && r[s] == Worker(s)
    decreases |shards|
  {
    if shards != [] {
      ReconcileOnlyAdds(Admit(leases, limit, shards[0]), limit, shards[1..]);
      assert forall s :: s in shards[1..] ==> s in shards;
    }
  }

  /** A tick that starts within capacity ends within capacity. */
  lemma {:induction false} ReconcileWithinLimit(leases: map<string, Worker>, limit: nat, shards: seq<string>)
    requires |leases| <= limit
    ensures |Reconcile(leases, limit, shards)| <= limit
    decreases |shards|
  {
    if shards != [] {
      ReconcileWithinLimit(Admit(leases, limit, shards[0]), limit, shards[1..]);
    }
  }

  /** Every non-empty listed shard id ends up leased, unless the table has filled up. */
  lemma {:induction false} ReconcileComplete(leases: map<string, Worker>, limit: nat, shards: seq<string>)
    requires |leases| <= limit
    ensures var r := Reconcile(leases, limit, shards);
            forall i :: 0 <= i < |shards| && shards[i] != "" ==> shards[i] in r || |r| == limit
    decreases |shards|
  {
    if shards != [] {
      var next := Admit(leases, limit, shards[0]);
      var r := Reconcile(leases, limit, shards);
      ReconcileComplete(next, limit, shards[1..]);
      ReconcileOnlyAdds(next, limit, shards[1..]);
      if shards[0] != "" && shards[0] !in next {
        ReconcileAtCapacity(next, limit, shards[1..]);
      }
      forall i | 1 <= i < |shards| && shards[i] != ""
        ensures shards[i] in r || |r| == limit
      {
        assert shards[i] == shards[1..][i - 1];
      }
    }
  }

  /**
   * Shards are admitted in listing order: once a non-empty listed shard id is
   * turned away, the table is what it was just before it, so no later one is admitted.
   */
  lemma {:induction false} ReconcileTurnedAway(leases: map<string, Worker>, limit: nat, shards: seq<string>, i: int)
    requires 0 <= i < |shards| && shards[i] != ""
    requires shards[i] !in Reconcile(leases, limit, shards)
    ensures Reconcile(leases, limit, shards) == Reconcile(leases, limit, shards[..i])
    decreases |shards|
  {
    var next := Admit(leases, limit, shards[0]);
    ReconcileOnlyAdds(next, limit, shards[1..]);
    if i == 0 {
      ReconcileAtCapacity(leases, limit, shards[1..]);
    } else {
      assert shards[1..][i - 1] == shards[i];
      ReconcileTurnedAway(next, limit, shards[1..], i - 1);
      assert shards[1..][..i - 1] == shards[..i][1..];
    }
  }

  class Consumer {
    /** `leaseMap`: shard id to the promise of the worker consuming it. */
    const leaseMap: LimitedMap<string, Worker>
    /** `sequenceKeeper`: shard id to the sequence number to resume after. */
    var sequenceKeeper: map<string, string>
    /** Every (shard, sequence number) pair of a usable record a worker has fetched. */
    ghost var ObservedSequenceNumbers: set<(string, string)>

    ghost predicate Valid()
      reads this, leaseMap
    {
      && leaseMap.Valid()
      && leaseMap.limit == PoolSize
      && LeasesWellFormed(leaseMap.entries)
      && forall s :: s in sequenceKeeper ==>
           sequenceKeeper[s] != "" && (s, sequenceKeeper[s]) in ObservedSequenceNumbers
    }

    constructor ()
      ensures Valid() && fresh(leaseMap)
      ensures leaseMap.entries == map[] && sequenceKeeper == map[]
    {
      leaseMap := new LimitedMap<string, Worker>(PoolSize);
      sequenceKeeper := map[];
      ObservedSequenceNumbers := {};
    }

    /**
     * The `setInterval` callback, given the settled `ListShards` call: bail
     * out at capacity, otherwise lease every listed shard id in turn while
     * capacity remains. The cursors are never touched.
     */
    method Tick(listing: Fetch<Option<seq<string>>>) returns (r: TickOutcome)
      requires Valid()
      modifies leaseMap
      ensures Valid()
      ensures r == (if |old(leaseMap.entries)| >= PoolSize then SkippedAtLimit
                    else if listing.Failed? then ListingFailed
                    else Reconciled)
      ensures r == Reconciled ==>
                leaseMap.entries == Reconcile(old(leaseMap.entries), PoolSize, listing.response.GetOr([]))
      ensures r != Reconciled ==> leaseMap.entries == old(leaseMap.entries)
      ensures sequenceKeeper == old(sequenceKeeper)
    {
      var atLimit := leaseMap.AtLimit();
      if atLimit {
        return SkippedAtLimit;
      }
      if listing.Failed? {
        return ListingFailed;
      }
      var shards := listing.response.GetOr([]);
      for i := 0 to |shards|
        invariant leaseMap.Valid() && LeasesWellFormed(leaseMap.entries)
        invariant Reconcile(leaseMap.entries, PoolSize, shards[i..]) == Reconcile(old(leaseMap.entries), PoolSize, shards)
      {
        assert shards[i..][1..] == shards[i + 1..];
        var full := leaseMap.AtLimit();
        if full {
          continue;
        }
        var shardId := shards[i];
        if shardId != "" {
          var leased := leaseMap.Has(shardId);
          if !leased {
            var stored := leaseMap.Set(shardId, Worker(shardId));
            // the capacity check just above means this `set` never throws
            assert stored == Stored;
          }
        }
      }
      assert shards[|shards|..] == [];
      r := Reconciled;
    }

    /**
     * One pass of a shard's `while (true)` loop: receive from the stored
     * cursor, store the result when it is truthy, and on a throw release the
     * shard's lease (the error then propagates).
     */
    method WorkerIteration(shardId: string, kinesis: Kinesis, decodes: seq<bv8> -> bool) returns (r: Received)
      requires Valid()
      modifies this, leaseMap
      ensures Valid()
      ensures r == Receive(shardId, Cursor(old(sequenceKeeper), shardId), kinesis, decodes)
      ensures r.Returned? ==> leaseMap.entries == old(leaseMap.entries)
      ensures r.Returned? ==>
                sequenceKeeper == if Truthy(r.sequenceNumber) then old(sequenceKeeper)[shardId := r.sequenceNumber.value]
                                  else old(sequenceKeeper)
      ensures r.Threw? ==> leaseMap.entries == old(leaseMap.entries) - {shardId} && sequenceKeeper == old(sequenceKeeper)
      ensures ObservedSequenceNumbers ==
                old(ObservedSequenceNumbers) +
                ObservedPairs(shardId, Observed(FetchBatch(shardId, Cursor(old(sequenceKeeper), shardId), kinesis)))
    {
      var start := Cursor(sequenceKeeper, shardId);
      ObservedSequenceNumbers := ObservedSequenceNumbers + ObservedPairs(shardId, Observed(FetchBatch(shardId, start, kinesis)));
      r := ReceiveMessages(shardId, start, kinesis, decodes);
      if r.Threw? {
        leaseMap.Delete(shardId);
        return;
      }
      if Truthy(r.sequenceNumber) {
        ReceiveReturnsObserved(shardId, start, kinesis, decodes);
        sequenceKeeper := sequenceKeeper[shardId := r.sequenceNumber.value];
      }
    }
  }
}
