/** What holds of every run of the lookup cascade, read off its trace. */
module PipelineTheorems {
  import opened Decimal
  import opened MarketKey
  import opened Sorting
  import opened PipelineSpec
  import opened MarketPipeline

  /** Once a cancellation is raised, during whatever effect, no load, fetch, store save or cache
      save starts any more; a run that begins cancelled makes its first load and nothing else
      of the kind. */
  lemma NothingStartsAfterCancel<ID(!new), R(!new)>(c: Lookup<ID, R>, trace: seq<Step<ID, R>>, j: nat)
    requires c.Lawful() && c.Monitored(trace) && j < |trace|
    requires c.w.cancelledAtStart || exists i | 0 <= i < j :: c.w.raises(i)
    ensures var e := trace[j].effect;
            && !e.StoreLoad? && !e.MissLoad? && !e.Fetch? && !e.StoreSave? && !e.CacheSave?
            && (e.CacheLoad? ==> j == 0 && c.w.cancelledAtStart)
  {
    assert c.CancelledBy(j);
    assert trace[j].late;
    var step := trace[j];
    assert c.Allowed(c.Watch(trace[..j]), step);
    if step.effect.CacheLoad? && j > 0 {
      NotIdle(c, trace, j);
    }
  }

  /** After its first effect a run is past the start. */
  lemma NotIdle<ID(!new), R(!new)>(c: Lookup<ID, R>, trace: seq<Step<ID, R>>, j: nat)
    requires c.Lawful() && c.Monitored(trace) && 0 < j <= |trace|
    ensures c.Watch(trace[..j]).tier != Idle
  {
    hide *;
    StepAllowed(c, trace, j - 1);
    WatchStep(c, trace, j);
    LeavesIdle(c, c.Watch(trace[..j - 1]), trace[j - 1]);
  }

  lemma LeavesIdle<ID(!new), R(!new)>(c: Lookup<ID, R>, seen: Seen<ID, R>, step: Step<ID, R>)
    requires c.Lawful() && c.Allowed(seen, step)
    ensures c.Advance(seen, step.effect).tier != Idle
  {
  }

  lemma StepAllowed<ID(!new), R(!new)>(c: Lookup<ID, R>, trace: seq<Step<ID, R>>, j: nat)
    requires c.Lawful() && c.Monitored(trace) && j < |trace|
    ensures c.Allowed(c.Watch(trace[..j]), trace[j])
  {
  }

  lemma WatchStep<ID(!new), R(!new)>(c: Lookup<ID, R>, trace: seq<Step<ID, R>>, j: nat)
    requires 0 < j <= |trace|
    ensures c.Watch(trace[..j]) == c.Advance(c.Watch(trace[..j - 1]), trace[j - 1].effect)
  {
    assert trace[..j][..j - 1] == trace[..j - 1];
  }

  lemma {:induction false} AppliedEarlier<ID(!new), R(!new)>(c: Lookup<ID, R>, trace: seq<Step<ID, R>>, j: nat, r: R)
    requires j <= |trace| && r in c.Watch(trace[..j]).applied
    ensures exists i :: 0 <= i < j && trace[i].effect.Applied? && trace[i].effect.record == r
  {
    var prefix := trace[..j];
    if j > 0 {
      assert prefix[..j - 1] == trace[..j - 1];
      if !(trace[j - 1].effect.Applied? && trace[j - 1].effect.record == r) {
        AppliedEarlier(c, trace, j - 1, r);
      }
    }
  }

  lemma {:induction false} PublishedEarlier<ID(!new), R(!new)>(c: Lookup<ID, R>, trace: seq<Step<ID, R>>, j: nat, r: R)
    requires j <= |trace| && r in c.Watch(trace[..j]).published
    ensures exists q :: 0 <= q < j && trace[q].effect.Progress? && r in c.Watch(trace[..q]).applied
  {
    var prefix := trace[..j];
    if j > 0 {
      assert prefix[..j - 1] == trace[..j - 1];
      if !trace[j - 1].effect.Progress? {
        PublishedEarlier(c, trace, j - 1, r);
      }
    }
  }

  /** The records an effect hands to a store or cache write. */
  function Written<ID, R>(effect: Effect<ID, R>): seq<R> {
    match effect
    case StoreSave(records) => records
    case CacheSave(writes) => Records(writes)
    case _ => []
  }

  /** Every record handed to a store or cache write carries the key it is the outcome of, was
      applied at that key's indexes earlier in the same run, and was published in between. */
  lemma WrittenWasPublished<ID(!new), R(!new)>(c: Lookup<ID, R>, trace: seq<Step<ID, R>>, j: nat, r: R)
    requires c.Lawful() && c.Monitored(trace) && j < |trace| && r in Written(trace[j].effect)
    ensures var key := c.p.keyOf(r);
            && key in c.req.keyOrder && c.Outcome(key) == Some(r)
            && exists i, q :: 0 <= i < q < j && trace[i].effect == Applied(c.Indexes(key), r) &&
                trace[q].effect.Progress?
  {
    hide *;
    StepAllowed(c, trace, j);
    WrittenIsPublished(c, c.Watch(trace[..j]), trace[j], r);
    PublishedEarlier(c, trace, j, r);
    var q :| 0 <= q < j && trace[q].effect.Progress? && r in c.Watch(trace[..q]).applied;
    AppliedEarlier(c, trace, q, r);
    var i :| 0 <= i < q && trace[i].effect.Applied? && trace[i].effect.record == r;
    StepAllowed(c, trace, i);
    AppliedIsOutcome(c, c.Watch(trace[..i]), trace[i]);
  }

  lemma WrittenIsPublished<ID(!new), R(!new)>(c: Lookup<ID, R>, seen: Seen<ID, R>, step: Step<ID, R>, r: R)
    requires c.Lawful() && c.Allowed(seen, step) && r in Written(step.effect)
    ensures r in seen.published
  {
  }

  lemma AppliedIsOutcome<ID(!new), R(!new)>(c: Lookup<ID, R>, seen: Seen<ID, R>, step: Step<ID, R>)
    requires c.Lawful() && c.Allowed(seen, step) && step.effect.Applied?
    ensures var r := step.effect.record;
            var key := c.p.keyOf(r);
            key in c.req.keyOrder && c.Outcome(key) == Some(r) && step.effect == Applied(c.Indexes(key), r)
  {
  }

  /** A cache write is either a promotion of store records, each kept for exactly the positive
      lifetime it has left, before anything was fetched; or the second half of saving a fetched
      batch, right after the attempt to store the same records, each for the whole lifetime. */
  lemma CacheWriteKinds<ID(!new), R(!new)>(c: Lookup<ID, R>, trace: seq<Step<ID, R>>, j: nat)
    requires c.Lawful() && c.Monitored(trace) && j < |trace| && trace[j].effect.CacheSave?
    ensures var writes := trace[j].effect.writes;
            || (&& (forall i | 0 <= i < |writes| :: c.IsPromotion(writes[i]))
                && forall i | 0 <= i < j :: !trace[i].effect.Fetch?)
            || (&& j > 0 && trace[j - 1].effect == StoreSave(Records(writes))
                && forall i | 0 <= i < |writes| :: writes[i].ttl == c.p.ttl)
  {
    var seen := c.Watch(trace[..j]);
    assert c.Allowed(seen, trace[j]);
    assert j > 0 ==> trace[..j][..j - 1] == trace[..j - 1];
    if seen.tier == PipelineSpec.StoreTier {
      forall i | 0 <= i < j
        ensures !trace[i].effect.Fetch?
      {
        if trace[i].effect.Fetch? {
          assert c.Allowed(c.Watch(trace[..i]), trace[i]);
          TierOnlyAdvances(c, trace, i, j);
        }
      }
    }
  }

  function Rank(tier: Tier): nat {
    match tier case Idle => 0 case CacheTier => 1 case StoreTier => 2 case ProviderTier => 3
  }

  lemma {:induction false} TierOnlyAdvances<ID(!new), R(!new)>(c: Lookup<ID, R>, trace: seq<Step<ID, R>>, i: nat,
                                                               j: nat)
    requires c.Lawful() && c.Monitored(trace) && i <= j <= |trace|
    ensures Rank(c.Watch(trace[..i]).tier) <= Rank(c.Watch(trace[..j]).tier)
  {
    hide *;
    if i < j {
      TierOnlyAdvances(c, trace, i, j - 1);
      WatchStep(c, trace, j);
      StepAllowed(c, trace, j - 1);
      TierAdvances(c, c.Watch(trace[..j - 1]), trace[j - 1]);
    }
  }

  lemma TierAdvances<ID(!new), R(!new)>(c: Lookup<ID, R>, seen: Seen<ID, R>, step: Step<ID, R>)
    requires c.Lawful() && c.Allowed(seen, step)
    ensures Rank(seen.tier) <= Rank(c.Advance(seen, step.effect).tier)
  {
  }

  /** A key saved as a miss belongs to a batch that was fetched in this run, that the provider
      answered without error, and whose answer holds nothing for the key's identifier; no tier
      serves the key, and it is never completed in the same run. */
  lemma MissIsSound<ID(!new), R(!new)>(c: Lookup<ID, R>, trace: seq<Step<ID, R>>, j: nat, key: Key)
    requires c.Lawful() && c.Monitored(trace) && c.Sound(c.Watch(trace)) && j < |trace|
    requires trace[j].effect.MissSave? && key in trace[j].effect.missed
    ensures key in c.req.keyOrder && !c.Suppressed(key) && c.Local(key).None? && key !in c.Watch(trace).complete
    ensures exists i :: 0 <= i < j && trace[i].effect.Fetch? && key in c.req.expectedId
              && c.req.expectedId[key] in trace[i].effect.ids
              && c.w.fetch(trace[i].effect.ids).Answer? && c.Answered(trace[i].effect.ids, c.req.expectedId[key]).None?
  {
    hide *;
    StepAllowed(c, trace, j);
    MissIsKnown(c, c.Watch(trace[..j]), trace[j], key);
    var seen := c.Watch(trace[..j]);
    var id := c.req.expectedId[key];
    LastFetch(c, trace, j);
    var i :| 0 <= i < j && trace[i].effect.Fetch? && trace[i].effect.ids == seen.batches[|seen.batches| - 1];
    FetchIsSlice(c, trace, i, id);
    c.ProvidedBy(trace[i].effect.ids, key);
    NeverComplete(c, trace, key);
  }

  lemma MissIsKnown<ID(!new), R(!new)>(c: Lookup<ID, R>, seen: Seen<ID, R>, step: Step<ID, R>, key: Key)
    requires c.Lawful() && c.Allowed(seen, step) && step.effect.MissSave? && key in step.effect.missed
    ensures key in c.req.keyOrder && c.Pending(key) && !c.Suppressed(key) && c.Local(key).None?
    ensures key in c.req.expectedId
    ensures seen.batches != []
    ensures var batch := seen.batches[|seen.batches| - 1];
            c.req.expectedId[key] in batch && c.w.fetch(batch).Answer? && c.Answered(batch, c.req.expectedId[key]).None?
  {
    assert c.KnownMiss(seen.batches, key);
  }

  lemma FetchIsSlice<ID(!new), R(!new)>(c: Lookup<ID, R>, trace: seq<Step<ID, R>>, i: nat, id: ID)
    requires c.Lawful() && c.Monitored(trace) && i < |trace| && trace[i].effect.Fetch? && id in trace[i].effect.ids
    ensures c.BatchIs(trace[i].effect.ids, id)
  {
    StepAllowed(c, trace, i);
    FetchedBatchIs(c, trace[i].effect.ids, c.Watch(trace[..i]).batches, id);
  }

  lemma NeverComplete<ID(!new), R(!new)>(c: Lookup<ID, R>, trace: seq<Step<ID, R>>, key: Key)
    requires c.Lawful() && c.Sound(c.Watch(trace)) && c.Outcome(key).None?
    ensures key !in c.Watch(trace).complete
  {
  }

  lemma {:induction false} LastFetch<ID(!new), R(!new)>(c: Lookup<ID, R>, trace: seq<Step<ID, R>>, j: nat)
    requires j <= |trace| && c.Watch(trace[..j]).batches != []
    ensures var batches := c.Watch(trace[..j]).batches;
            exists i :: 0 <= i < j && trace[i].effect.Fetch? && trace[i].effect.ids == batches[|batches| - 1]
  {
    if j > 0 {
      assert trace[..j][..j - 1] == trace[..j - 1];
      if !trace[j - 1].effect.Fetch? {
        LastFetch(c, trace, j - 1);
      }
    }
  }

  /** A slice that was fetched is the one slice that holds each of its identifiers. */
  lemma FetchedBatchIs<ID(!new), R(!new)>(c: Lookup<ID, R>, batch: seq<ID>, before: seq<seq<ID>>, id: ID)
    requires c.Lawful() && before + [batch] <= c.Batches() && id in batch
    ensures c.BatchIs(batch, id)
  {
    c.IdsAre();
    var all := c.Batches();
    ChunksPartition(c.Ids(), c.Limit());
    var rest := all[|before| + 1..];
    assert all == before + [batch] + rest;
    forall i | 0 <= i < |before|
      ensures id !in before[i]
    {
      assert all[i] == before[i] && all[|before|] == batch;
      PartsAreDisjoint(all, i, |before|, id);
    }
    c.BatchOfMiddle(before, batch, rest, id);
  }

  /** Parts of a duplicate-free whole share no element. */
  lemma {:induction false} PartsAreDisjoint<T>(parts: seq<seq<T>>, i: nat, j: nat, x: T)
    requires i < j < |parts| && NoDuplicates(Flatten(parts)) && x in parts[j]
    ensures x !in parts[i]
  {
    var whole, rest := Flatten(parts), Flatten(parts[1..]);
    assert whole == parts[0] + rest;
    assert forall k | 0 <= k < |rest| :: whole[|parts[0]| + k] == rest[k];
    if i == 0 {
      PartIn(parts[1..], j - 1, x);
      var k :| 0 <= k < |rest| && rest[k] == x;
      assert whole[|parts[0]| + k] == x;
      assert forall m | 0 <= m < |parts[0]| :: parts[0][m] == whole[m];
    } else {
      PartsAreDisjoint(parts[1..], i - 1, j - 1, x);
    }
  }

  lemma {:induction false} PartIn<T>(parts: seq<seq<T>>, j: nat, x: T)
    requires j < |parts| && x in parts[j]
    ensures x in Flatten(parts)
  {
    if j > 0 {
      PartIn(parts[1..], j - 1, x);
    }
  }

  /** A key with a live miss gets a record only from a tier, never from the provider; and a key
      some tier serves gets that tier's record whatever the negative cache says. */
  lemma SuppressionIsExact<ID(!new), R(!new)>(c: Lookup<ID, R>, other: Reply<set<Key>>, key: Key)
    requires c.Lawful()
    ensures c.Suppressed(key) ==> c.Provided(key).None?
    ensures c.Local(key).Some? ==> c.(w := c.w.(misses := other)).Outcome(key) == c.Outcome(key) == c.Local(key)
  {
    var d := c.(w := c.w.(misses := other));
    assert d.Lawful();
    assert d.Local(key) == c.Local(key);
  }

  /* ----- a key's record, from what the environment answers ----- */

  /** A tier's answer holds a matching record of the key that is within its lifetime and usable. */
  predicate Offers<ID(!new), R(!new)>(c: Lookup<ID, R>, tier: Reply<map<Key, R>>, key: Key) {
    && tier.Answer? && key in tier.value
    && c.p.matches(tier.value[key], if key in c.req.expectedId then c.req.expectedId[key] else c.p.noId)
    && RemainingTTL(c.p.fetchedAt(c.p.withKey(tier.value[key], key)), c.p.now, c.p.ttl) > 0
    && c.p.usable(c.p.withKey(tier.value[key], key))
  }

  /** A key's record comes from the cache if that offers one, else from the store if that does. */
  lemma LocalIs<ID(!new), R(!new)>(c: Lookup<ID, R>, key: Key)
    ensures c.Local(key) == if Offers(c, c.w.cache, key) then Some(c.p.withKey(c.w.cache.value[key], key))
                            else if Offers(c, c.w.store, key) then Some(c.p.withKey(c.w.store.value[key], key))
                            else None
  {
    hide RemainingTTL;
  }

  /** Otherwise it comes from the provider: without a live miss, what the answer to the batch of
      its identifier holds for that identifier, if it has data and is usable. */
  lemma ProvidedIs<ID(!new), R(!new)>(c: Lookup<ID, R>, key: Key)
    requires c.Lawful() && key in c.req.keyOrder && key in c.req.expectedId
    requires !Offers(c, c.w.cache, key) && !Offers(c, c.w.store, key)
    ensures c.w.misses.Answer? && key in c.w.misses.value ==> c.Outcome(key).None?
    ensures !(c.w.misses.Answer? && key in c.w.misses.value) ==>
              exists batch :: batch in c.Batches() && c.req.expectedId[key] in batch
    ensures forall batch | batch in c.Batches() && c.req.expectedId[key] in batch
                           && !(c.w.misses.Answer? && key in c.w.misses.value) ::
              var id, reply := c.req.expectedId[key], c.w.fetch(batch);
              c.Outcome(key) == if reply.Answer? && id in reply.value && c.p.hasData(reply.value[id])
                                   && c.p.usable(c.p.withKey(reply.value[id], key))
                                then Some(c.p.withKey(reply.value[id], key)) else None
  {
    LocalIs(c, key);
    hide Lookup.Local, Lookup.Batches, Lookup.Lawful, Offers;
    if !(c.w.misses.Answer? && key in c.w.misses.value) {
      var id := c.req.expectedId[key];
      var k := PendingIsBatched(c, key);
      assert c.Batches()[k] in c.Batches();
      forall batch | batch in c.Batches() && id in batch
        ensures BatchOf(c.Batches(), id) == Some(batch)
      {
        InOneBatch(c, batch, id);
      }
    }
  }

  lemma InOneBatch<ID(!new), R(!new)>(c: Lookup<ID, R>, batch: seq<ID>, id: ID)
    requires c.Lawful() && batch in c.Batches() && id in batch
    ensures BatchOf(c.Batches(), id) == Some(batch)
  {
    hide *;
    var k :| 0 <= k < |c.Batches()| && c.Batches()[k] == batch;
    var before := c.Batches()[..k];
    assert before + [batch] == c.Batches()[..k + 1];
    FetchedBatchIs(c, batch, before, id);
    BatchIsFirst(c, batch, id);
  }

  lemma BatchIsFirst<ID(!new), R(!new)>(c: Lookup<ID, R>, batch: seq<ID>, id: ID)
    requires c.Lawful() && c.BatchIs(batch, id)
    ensures BatchOf(c.Batches(), id) == Some(batch)
  {
    hide Lookup.Batches, Lookup.Lawful;
  }

  /** Every identifier fetched is that of a requested key without a live miss that no tier offers a
      record for. */
  lemma FetchedWithoutMiss<ID(!new), R(!new)>(c: Lookup<ID, R>, trace: seq<Step<ID, R>>, j: nat, id: ID)
    requires c.Lawful() && c.Monitored(trace) && j < |trace| && trace[j].effect.Fetch? && id in trace[j].effect.ids
    ensures exists key :: key in c.req.keyOrder && key in c.req.expectedId && c.req.expectedId[key] == id
              && !(c.w.misses.Answer? && key in c.w.misses.value)
              && !Offers(c, c.w.cache, key) && !Offers(c, c.w.store, key)
  {
    FetchesAreNeeded(c, trace, j, id);
    var key :| key in c.req.keyOrder && c.Pending(key) && c.req.expectedId[key] == id;
    LocalIs(c, key);
    hide Lookup.Local, Lookup.Monitored, Lookup.Lawful, Offers;
  }

  /** In a run that follows its plan, every key without a live miss that no tier offers a record
      for is asked for. */
  lemma WithoutMissIsFetched<ID(!new), R(!new)>(c: Lookup<ID, R>, trace: seq<Step<ID, R>>, key: Key) returns (j: nat)
    requires c.Lawful() && EffectsOf(trace) == c.Plan() && key in c.req.keyOrder && key in c.req.expectedId
    requires !(c.w.misses.Answer? && key in c.w.misses.value)
    requires !Offers(c, c.w.cache, key) && !Offers(c, c.w.store, key)
    ensures j < |trace| && trace[j].effect.Fetch? && c.req.expectedId[key] in trace[j].effect.ids
  {
    LocalIs(c, key);
    IsPending(c, key);
    hide *;
    var k := PendingIsBatched(c, key);
    var at := BatchInRun(c, trace, k);
    FetchStartsBatch(c, c.Batches()[k]);
    j := at;
    assert trace[at + 0].effect == c.BatchPlan(c.Batches()[k])[0];
  }

  lemma IsPending<ID(!new), R(!new)>(c: Lookup<ID, R>, key: Key)
    ensures c.Pending(key) <==>
              c.Local(key).None? && key in c.req.expectedId && !(c.w.misses.Answer? && key in c.w.misses.value)
  {
    hide Lookup.Local;
  }

  lemma FetchStartsBatch<ID(!new), R(!new)>(c: Lookup<ID, R>, batch: seq<ID>)
    requires c.Lawful()
    ensures c.BatchPlan(batch) != [] && c.BatchPlan(batch)[0] == Fetch(batch)
  {
    hide Lookup.FetchedFor, Lookup.MissedFor, Lookup.AppliedEffects, Lookup.Lawful, Lookup.RecordSaves;
  }

  /** No key is saved as a miss that already had a live one, or that a tier offers a record for. */
  lemma SavedMissIsNew<ID(!new), R(!new)>(c: Lookup<ID, R>, trace: seq<Step<ID, R>>, j: nat, key: Key)
    requires c.Lawful() && c.Monitored(trace) && c.Sound(c.Watch(trace)) && j < |trace|
    requires trace[j].effect.MissSave? && key in trace[j].effect.missed
    ensures key in c.req.keyOrder && key in c.req.expectedId && !(c.w.misses.Answer? && key in c.w.misses.value)
    ensures !Offers(c, c.w.cache, key) && !Offers(c, c.w.store, key)
    ensures trace[j].effect.missTtl == c.p.missTtl
  {
    hide *;
    StepAllowed(c, trace, j);
    MissIsKnown(c, c.Watch(trace[..j]), trace[j], key);
    IsPending(c, key);
    LocalIs(c, key);
    SavesAreTimed(c, c.Watch(trace[..j]), trace[j]);
  }

  lemma FetchIsSmall<ID(!new), R(!new)>(c: Lookup<ID, R>, trace: seq<Step<ID, R>>, j: nat)
    requires c.Lawful() && c.Monitored(trace) && j < |trace| && trace[j].effect.Fetch?
    ensures 1 <= |trace[j].effect.ids| <= if c.p.batchLimit < 1 then 1 else c.p.batchLimit
  {
    var before := c.Watch(trace[..j]).batches;
    StepAllowed(c, trace, j);
    ChunksPartition(c.Ids(), c.Limit());
    assert c.Batches()[|before|] == trace[j].effect.ids;
  }

  /** What saves are for: misses for their own lifetime, records for a whole one, or for what is
      left of it. */
  lemma SavesAreTimed<ID(!new), R(!new)>(c: Lookup<ID, R>, seen: Seen<ID, R>, step: Step<ID, R>)
    requires c.Lawful() && c.Allowed(seen, step)
    ensures step.effect.MissSave? ==> step.effect.missTtl == c.p.missTtl
    ensures step.effect.CacheSave? ==> forall write | write in step.effect.writes ::
              write.ttl == c.p.ttl || write.ttl == RemainingTTL(c.p.fetchedAt(write.record), c.p.now, c.p.ttl) > 0
  {
    hide RemainingTTL, Lookup.Served, Lookup.Stored;
  }

  /** Every identifier fetched is the identifier of a requested key that no tier serves and no
      live miss suppresses, and no identifier is fetched twice. */
  lemma FetchesAreNeeded<ID(!new), R(!new)>(c: Lookup<ID, R>, trace: seq<Step<ID, R>>, j: nat, id: ID)
    requires c.Lawful() && c.Monitored(trace) && j < |trace| && trace[j].effect.Fetch? && id in trace[j].effect.ids
    ensures exists key :: key in c.req.keyOrder && c.Pending(key) && c.req.expectedId[key] == id
    ensures 1 <= |trace[j].effect.ids| <= if c.p.batchLimit < 1 then 1 else c.p.batchLimit
    ensures forall i | 0 <= i < j && trace[i].effect.Fetch? :: id !in trace[i].effect.ids
  {
    var before := c.Watch(trace[..j]).batches;
    var batch := trace[j].effect.ids;
    assert c.Allowed(c.Watch(trace[..j]), trace[j]);
    c.IdsAre();
    ChunksPartition(c.Ids(), c.Limit());
    assert c.Batches()[|before|] == batch;
    PartIn(c.Batches(), |before|, id);
    forall i | 0 <= i < j && trace[i].effect.Fetch?
      ensures id !in trace[i].effect.ids
    {
      FetchRecorded(c, trace, i, j);
      var k :| 0 <= k < |before| && before[k] == trace[i].effect.ids;
      assert c.Batches()[k] == before[k];
      PartsAreDisjoint(c.Batches(), k, |before|, id);
    }
  }

  lemma {:induction false} FetchRecorded<ID(!new), R(!new)>(c: Lookup<ID, R>, trace: seq<Step<ID, R>>, i: nat, j: nat)
    requires i < j <= |trace| && trace[i].effect.Fetch?
    ensures var batches := c.Watch(trace[..j]).batches;
            exists k :: 0 <= k < |batches| && batches[k] == trace[i].effect.ids
  {
    WatchStep(c, trace, j);
    hide Lookup.Watch;
    var before, batches := c.Watch(trace[..j - 1]).batches, c.Watch(trace[..j]).batches;
    if i == j - 1 {
      assert batches[|before|] == trace[i].effect.ids;
    } else {
      FetchRecorded(c, trace, i, j - 1);
      var k :| 0 <= k < |before| && before[k] == trace[i].effect.ids;
      assert batches[k] == before[k];
    }
  }

  /** The batches of a complete run: put together they are the distinct identifiers no tier
      resolved, in increasing order; none is over the limit and only the last is short of it. */
  lemma BatchesAreSlices<ID(!new), R(!new)>(c: Lookup<ID, R>)
    requires c.Lawful()
    ensures var batches := c.Batches();
            var limit := if c.p.batchLimit < 1 then 1 else c.p.batchLimit;
            && Flatten(batches) == c.Ids() && IsSorting(c.p.less, Flatten(batches), c.PendingIds())
            && (forall i | 0 <= i < |batches| :: 1 <= |batches[i]| <= limit)
            && (forall i | 0 <= i < |batches| - 1 :: |batches[i]| == limit)
  {
    c.IdsAre();
    ChunksPartition(c.Ids(), c.Limit());
  }

  /* ---------- output slots ---------- */

  /** No slot is fed by two keys, nor twice by one. */
  ghost predicate DisjointIndexes<ID>(req: Request<ID>) {
    && (forall k | k in req.indexesByKey :: NoDuplicates(req.indexesByKey[k]))
    && (forall k, l, i | k in req.indexesByKey && l in req.indexesByKey && k != l && i in req.indexesByKey[k] ::
          i !in req.indexesByKey[l])
  }

  lemma {:induction false} PutOnce<R, O>(render: (O, R) -> O, out: seq<O>, indexes: seq<nat>, r: R, slot: nat)
    requires (forall i | 0 <= i < |indexes| :: indexes[i] < |out|) && NoDuplicates(indexes) && slot < |out|
    ensures Put(render, out, indexes, r)[slot] == if slot in indexes then render(out[slot], r) else out[slot]
  {
    if indexes != [] {
      var front := indexes[..|indexes| - 1];
      PutOnce(render, out, front, r, slot);
      assert indexes == front + [indexes[|indexes| - 1]];
    }
  }

  /** With disjoint index lists and duplicate-free keys, every output slot is written at most
      once in any run: a slot of a completed key holds that key's outcome rendered over what the
      slot held at the start, and every other slot is untouched. */
  lemma {:induction false} SlotsWrittenOnce<ID(!new), R(!new), O>(c: Lookup<ID, R>, render: (O, R) -> O, start: seq<O>,
                                                             trace: seq<Step<ID, R>>, slot: nat)
    requires c.Lawful() && c.Monitored(trace) && InRange(trace, |start|) && slot < |start|
    requires NoDuplicates(c.req.keyOrder) && DisjointIndexes(c.req)
    ensures var complete, out := c.Watch(trace).complete, Output(render, start, trace);
            && (forall key | key in complete && slot in c.Indexes(key) ::
                  c.Outcome(key).Some? && out[slot] == render(start[slot], c.Outcome(key).value))
            && ((forall key | key in complete :: slot !in c.Indexes(key)) ==> out[slot] == start[slot])
  {
    if trace != [] {
      var front, step := trace[..|trace| - 1], trace[|trace| - 1];
      MonitoredPrefix(c, trace, |front|);
      assert InRange(front, |start|);
      SlotsWrittenOnce(c, render, start, front, slot);
      assert c.Allowed(c.Watch(front), step);
      if step.effect.Applied? {
        SlotApplied(c, render, start, front, step, slot);
      }
    }
  }

  lemma SlotApplied<ID(!new), R(!new), O>(c: Lookup<ID, R>, render: (O, R) -> O, start: seq<O>,
                                          front: seq<Step<ID, R>>, step: Step<ID, R>, slot: nat)
    requires c.Lawful() && c.Allowed(c.Watch(front), step) && step.effect.Applied?
    requires InRange(front, |start|) && InRange(front + [step], |start|) && slot < |start|
    requires NoDuplicates(c.req.keyOrder) && DisjointIndexes(c.req)
    requires forall key | key in c.Watch(front).complete && slot in c.Indexes(key) ::
               c.Outcome(key).Some? && Output(render, start, front)[slot] == render(start[slot], c.Outcome(key).value)
    requires (forall key | key in c.Watch(front).complete :: slot !in c.Indexes(key)) ==>
               Output(render, start, front)[slot] == start[slot]
    ensures var trace := front + [step];
            var complete, out := c.Watch(trace).complete, Output(render, start, trace);
            && (forall key | key in complete && slot in c.Indexes(key) ::
                  c.Outcome(key).Some? && out[slot] == render(start[slot], c.Outcome(key).value))
            && ((forall key | key in complete :: slot !in c.Indexes(key)) ==> out[slot] == start[slot])
  {
    hide *;
    var trace := front + [step];
    var r := step.effect.record;
    AppliedIs(c, front, step);
    StepInRange(front, step, |start|);
    OutputStep(render, start, front, step);
    PutOnce(render, Output(render, start, front), step.effect.indexes, r, slot);
    forall key | key in c.Watch(trace).complete && slot in c.Indexes(key)
      ensures c.Outcome(key).Some? && Output(render, start, trace)[slot] == render(start[slot], c.Outcome(key).value)
    {
      OtherSlots(c, c.p.keyOf(r), key, slot);
      assert slot in c.Indexes(c.p.keyOf(r)) ==> forall k | k in c.Watch(front).complete :: slot !in c.Indexes(k) by {
        forall k | k in c.Watch(front).complete
          ensures slot in c.Indexes(c.p.keyOf(r)) ==> slot !in c.Indexes(k)
        {
          OtherSlots(c, c.p.keyOf(r), k, slot);
        }
      }
    }
  }

  lemma OtherSlots<ID(!new), R(!new)>(c: Lookup<ID, R>, a: Key, b: Key, slot: nat)
    requires DisjointIndexes(c.req)
    ensures slot in c.Indexes(a) && slot in c.Indexes(b) ==> a == b
    ensures NoDuplicates(c.Indexes(a))
  {
  }

  lemma StepInRange<ID, R>(front: seq<Step<ID, R>>, step: Step<ID, R>, n: nat)
    requires InRange(front + [step], n) && step.effect.Applied?
    ensures forall j | 0 <= j < |step.effect.indexes| :: step.effect.indexes[j] < n
  {
    assert (front + [step])[|front|] == step;
  }

  lemma AppliedIs<ID(!new), R(!new)>(c: Lookup<ID, R>, front: seq<Step<ID, R>>, step: Step<ID, R>)
    requires c.Lawful() && c.Allowed(c.Watch(front), step) && step.effect.Applied?
    requires NoDuplicates(c.req.keyOrder) && DisjointIndexes(c.req)
    ensures var key := c.p.keyOf(step.effect.record);
            && step.effect.indexes == c.Indexes(key) && c.Outcome(key) == Some(step.effect.record)
            && key !in c.Watch(front).complete && NoDuplicates(c.Indexes(key))
            && c.Watch(front + [step]).complete == c.Watch(front).complete + {key}
  {
    assert (front + [step])[..|front|] == front;
  }

  lemma MonitoredPrefix<ID(!new), R(!new)>(c: Lookup<ID, R>, trace: seq<Step<ID, R>>, n: nat)
    requires c.Lawful() && c.Monitored(trace) && n <= |trace|
    ensures c.Monitored(trace[..n])
  {
    forall i | 0 <= i < n
      ensures c.Allowed(c.Watch(trace[..n][..i]), trace[..n][i]) && trace[..n][i].late == c.CancelledBy(i)
    {
      assert trace[..n][..i] == trace[..i];
    }
  }

  lemma {:induction false} CompleteGrows<ID(!new), R(!new)>(c: Lookup<ID, R>, trace: seq<Step<ID, R>>, n: nat)
    requires n <= |trace|
    ensures c.Watch(trace[..n]).complete <= c.Watch(trace).complete
  {
    if n < |trace| {
      var front := trace[..|trace| - 1];
      CompleteGrows(c, front, n);
      assert front[..n] == trace[..n];
    } else {
      assert trace[..n] == trace;
    }
  }

  /** At any point of any run, each slot holds what it held at the start or already what it
      will hold at the end, and a key completed by then stays completed. */
  lemma EverySlotIsFinalOrUntouched<ID(!new), R(!new), O>(c: Lookup<ID, R>, render: (O, R) -> O, start: seq<O>,
                                                          trace: seq<Step<ID, R>>, n: nat, slot: nat)
    requires c.Lawful() && c.Monitored(trace) && InRange(trace, |start|) && slot < |start| && n <= |trace|
    requires NoDuplicates(c.req.keyOrder) && DisjointIndexes(c.req)
    ensures InRange(trace[..n], |start|) && c.Watch(trace[..n]).complete <= c.Watch(trace).complete
    ensures var now := Output(render, start, trace[..n])[slot];
            now == start[slot] || now == Output(render, start, trace)[slot]
  {
    MonitoredPrefix(c, trace, n);
    CompleteGrows(c, trace, n);
    assert InRange(trace[..n], |start|);
    SlotsWrittenOnce(c, render, start, trace, slot);
    SlotsWrittenOnce(c, render, start, trace[..n], slot);
  }

  /* ---------- the whole run ---------- */

  function EffectsOf<ID, R>(trace: seq<Step<ID, R>>): (effects: seq<Effect<ID, R>>)
    ensures |effects| == |trace|
  {
    seq(|trace|, i requires 0 <= i < |trace| => trace[i].effect)
  }

  lemma {:induction false} WatchedEffects<ID(!new), R(!new)>(c: Lookup<ID, R>, trace: seq<Step<ID, R>>)
    ensures c.Watch(trace).effects == EffectsOf(trace)
  {
    if trace != [] {
      WatchedEffects(c, trace[..|trace| - 1]);
      assert EffectsOf(trace) == EffectsOf(trace[..|trace| - 1]) + [trace[|trace| - 1].effect];
    }
  }

  /** Whenever a run calls a tier or the provider, everything it has applied is published. */
  lemma CallsArePublished<ID(!new), R(!new)>(c: Lookup<ID, R>, trace: seq<Step<ID, R>>, j: nat)
    requires c.Lawful() && c.Monitored(trace) && j < |trace| && c.IsCall(trace[j].effect)
    ensures c.Watch(trace[..j]).applied == c.Watch(trace[..j]).published
  {
    StepAllowed(c, trace, j);
    hide Lookup.Watch, Lookup.Outcome, Lookup.Batches, Lookup.KnownMiss, Lookup.IsPromotion;
  }

  lemma {:induction false} ProvidedForAre<ID(!new), R(!new)>(c: Lookup<ID, R>, keys: seq<Key>, r: R)
    requires c.Lawful()
    ensures r in c.ProvidedFor(keys) <==> exists key :: key in keys && c.Provided(key) == Some(r)
  {
    hide Lookup.Provided;
    if keys != [] {
      var front, last := keys[..|keys| - 1], keys[|keys| - 1];
      ProvidedForAre(c, front, r);
      assert keys == front + [last];
      if c.Provided(last) == Some(r) && last in front {
        assert r in c.ProvidedFor(front);
      }
    }
  }

  /** The records saved for a batch are exactly what it provides for the keys of its identifiers. */
  lemma {:induction false} FetchedForAre<ID(!new), R(!new)>(c: Lookup<ID, R>, ids: seq<ID>, r: R)
    requires c.Lawful()
    ensures r in c.FetchedFor(ids) <==>
              exists key :: key in c.req.keyOrder && c.Pending(key) && c.req.expectedId[key] in ids &&
                  c.Provided(key) == Some(r)
  {
    hide Lookup.Provided, Lookup.Pending, Lookup.GroupOf, Lookup.ProvidedFor;
    if ids != [] {
      var front, last := ids[..|ids| - 1], ids[|ids| - 1];
      FetchedForAre(c, front, r);
      assert ids == front + [last];
      ProvidedForAre(c, c.GroupOf(c.req.keyOrder, last), r);
      c.GroupIs(c.req.keyOrder, last);
    }
  }

  /** The keys saved as missed for a batch are exactly those its answer holds nothing for. */
  lemma {:induction false} MissedForAre<ID(!new), R(!new)>(c: Lookup<ID, R>, batch: seq<ID>, ids: seq<ID>, key: Key)
    ensures key in c.MissedFor(batch, ids) <==>
              key in c.req.keyOrder && c.Pending(key) && c.req.expectedId[key] in ids
              && c.Answered(batch, c.req.expectedId[key]).None?
  {
    hide Lookup.Pending, Lookup.GroupOf, Lookup.Answered;
    if ids != [] {
      var front, last := ids[..|ids| - 1], ids[|ids| - 1];
      MissedForAre(c, batch, front, key);
      assert ids == front + [last];
      c.GroupIs(c.req.keyOrder, last);
    }
  }

  /** The promotions are exactly the store records that count, with the lifetime they have left. */
  lemma {:induction false} PromotionsAre<ID(!new), R(!new)>(c: Lookup<ID, R>, keys: seq<Key>, write: Write<R>)
    ensures write in c.Promotions(keys) <==>
              && write.ttl == RemainingTTL(c.p.fetchedAt(write.record), c.p.now, c.p.ttl)
              && exists key :: key in keys && c.Served(c.Stored(key)) == Some(write.record)
  {
    hide Lookup.Served, Lookup.Stored, RemainingTTL;
    if keys != [] {
      PromotionsAre(c, keys[..|keys| - 1], write);
      assert keys == keys[..|keys| - 1] + [keys[|keys| - 1]];
    }
  }

  /** The plan of each batch is a stretch of the plan of all. */
  lemma {:induction false} BatchInPlans<ID(!new), R(!new)>(c: Lookup<ID, R>, batches: seq<seq<ID>>, k: nat)
    returns (at: nat)
    requires c.Lawful() && k < |batches|
    ensures at + |c.BatchPlan(batches[k])| <= |c.BatchPlans(batches)|
    ensures c.BatchPlans(batches)[at..at + |c.BatchPlan(batches[k])|] == c.BatchPlan(batches[k])
  {
    hide Lookup.BatchPlan;
    var front := batches[..|batches| - 1];
    var all, before := c.BatchPlans(batches), c.BatchPlans(front);
    assert all == before + c.BatchPlan(batches[|batches| - 1]);
    if k == |front| {
      at := |before|;
    } else {
      at := BatchInPlans(c, front, k);
      assert front[k] == batches[k];
      assert all[at..at + |c.BatchPlan(batches[k])|] == before[at..at + |c.BatchPlan(batches[k])|];
    }
  }

  /** Every identifier to ask for is in one of the batches. */
  lemma PendingIsBatched<ID(!new), R(!new)>(c: Lookup<ID, R>, key: Key) returns (k: nat)
    requires c.Lawful() && key in c.req.keyOrder && c.Pending(key)
    ensures k < |c.Batches()| && c.req.expectedId[key] in c.Batches()[k]
    ensures c.BatchIs(c.Batches()[k], c.req.expectedId[key])
  {
    var id := c.req.expectedId[key];
    assert id in c.PendingIds();
    c.IdsAre();
    ChunksPartition(c.Ids(), c.Limit());
    hide Lookup.Pending, Lookup.PendingIds, Lookup.Ids;
    k := PartOf(c.Batches(), id);
    var before := c.Batches()[..k];
    assert before + [c.Batches()[k]] == c.Batches()[..k + 1];
    FetchedBatchIs(c, c.Batches()[k], before, id);
  }

  lemma {:induction false} PartOf<T>(parts: seq<seq<T>>, x: T) returns (k: nat)
    requires x in Flatten(parts)
    ensures k < |parts| && x in parts[k]
  {
    if x in parts[0] {
      k := 0;
    } else {
      k := PartOf(parts[1..], x);
      k := k + 1;
    }
  }

  /** A batch of the plan, at its place in an uncancelled run. */
  lemma BatchInRun<ID(!new), R(!new)>(c: Lookup<ID, R>, trace: seq<Step<ID, R>>, k: nat) returns (at: nat)
    requires c.Lawful() && c.req.keyOrder != [] && EffectsOf(trace) == c.Plan() && k < |c.Batches()|
    ensures at + |c.BatchPlan(c.Batches()[k])| <= |trace|
    ensures forall i | 0 <= i < |c.BatchPlan(c.Batches()[k])| :: trace[at + i].effect == c.BatchPlan(c.Batches()[k])[i]
  {
    hide Lookup.BatchPlan, Lookup.BatchPlans, Lookup.Batches, Lookup.ProviderStart, Lookup.Lawful;
    var plans, plan := c.BatchPlans(c.Batches()), c.BatchPlan(c.Batches()[k]);
    var offset := BatchInPlans(c, c.Batches(), k);
    at := |c.ProviderStart()| + offset;
    forall i | 0 <= i < |plan|
      ensures trace[at + i].effect == plan[i]
    {
      assert plans[offset..offset + |plan|][i] == plans[offset + i];
      assert EffectsOf(trace)[at + i] == plans[offset + i];
    }
  }

  /** In an uncancelled run, whatever the provider yields for a key is saved in the store, and
      the same records in the cache right after, for a whole lifetime. */
  lemma ProvidedIsSaved<ID(!new), R(!new)>(c: Lookup<ID, R>, trace: seq<Step<ID, R>>, key: Key, r: R) returns (j: nat)
    requires c.Lawful() && EffectsOf(trace) == c.Plan() && key in c.req.keyOrder && c.Provided(key) == Some(r)
    ensures j + 1 < |trace| && trace[j].effect.StoreSave? && r in trace[j].effect.records
    ensures trace[j + 1].effect == CacheSave(c.Writes(trace[j].effect.records))
  {
    ProvidedIsPending(c, key);
    hide *;
    var k := PendingIsBatched(c, key);
    var batch := c.Batches()[k];
    FetchedForAre(c, batch, r);
    c.ProvidedBy(batch, key);
    var at := BatchInRun(c, trace, k);
    SavesEndBatch(c, batch);
    j := SavesAt(trace, at, c.BatchPlan(batch));
  }

  /** The last two effects of a stretch of a run. */
  lemma SavesAt<ID(!new), R(!new)>(trace: seq<Step<ID, R>>, at: nat, plan: seq<Effect<ID, R>>) returns (j: nat)
    requires |plan| >= 2 && at + |plan| <= |trace| && forall i | 0 <= i < |plan| :: trace[at + i].effect == plan[i]
    ensures j + 1 < |trace| && trace[j].effect == plan[|plan| - 2] && trace[j + 1].effect == plan[|plan| - 1]
  {
    j := at + (|plan| - 2);
    assert trace[at + (|plan| - 1)].effect == plan[|plan| - 1];
  }

  lemma ProvidedIsPending<ID(!new), R(!new)>(c: Lookup<ID, R>, key: Key)
    requires c.Lawful() && c.Provided(key).Some?
    ensures c.Pending(key)
  {
    hide Lookup.Pending, Lookup.Batches;
  }

  lemma SavesEndBatch<ID(!new), R(!new)>(c: Lookup<ID, R>, batch: seq<ID>)
    requires c.Lawful() && c.w.fetch(batch).Answer? && c.FetchedFor(batch) != []
    ensures var plan, records := c.BatchPlan(batch), c.FetchedFor(batch);
            |plan| >= 2 && plan[|plan| - 2] == StoreSave(records) && plan[|plan| - 1] == CacheSave(c.Writes(records))
  {
    hide Lookup.FetchedFor, Lookup.MissedFor, Lookup.AppliedEffects, Lookup.Writes, Lookup.Lawful;
  }

  /** In an uncancelled run, a key the provider answered nothing for is saved as a miss. */
  lemma MissIsSaved<ID(!new), R(!new)>(c: Lookup<ID, R>, trace: seq<Step<ID, R>>, key: Key, batch: seq<ID>)
    returns (j: nat)
    requires c.Lawful() && EffectsOf(trace) == c.Plan() && key in c.req.keyOrder && c.Pending(key)
    requires c.BatchIs(batch, c.req.expectedId[key]) && c.w.fetch(batch).Answer?
    requires c.Answered(batch, c.req.expectedId[key]).None?
    ensures j < |trace| && trace[j].effect == MissSave(c.MissedFor(batch, batch), c.p.missTtl)
    ensures key in c.MissedFor(batch, batch)
  {
    hide *;
    var k := PendingIsBatched(c, key);
    OneBatchOnly(c, batch, c.Batches()[k], c.req.expectedId[key]);
    MissedForAre(c, batch, batch, key);
    var at := BatchInRun(c, trace, k);
    var i := MissesInBatch(c, batch);
    j := at + i;
  }

  lemma OneBatchOnly<ID(!new), R(!new)>(c: Lookup<ID, R>, a: seq<ID>, b: seq<ID>, id: ID)
    requires c.Lawful() && c.BatchIs(a, id) && c.BatchIs(b, id)
    ensures a == b
  {
    hide Lookup.Batches, Lookup.Lawful;
  }

  lemma MissesInBatch<ID(!new), R(!new)>(c: Lookup<ID, R>, batch: seq<ID>) returns (i: nat)
    requires c.Lawful() && c.w.fetch(batch).Answer? && c.MissedFor(batch, batch) != []
    ensures i < |c.BatchPlan(batch)| && c.BatchPlan(batch)[i] == MissSave(c.MissedFor(batch, batch), c.p.missTtl)
  {
    hide Lookup.FetchedFor, Lookup.MissedFor, Lookup.AppliedEffects, Lookup.Writes, Lookup.Lawful;
    var records := c.FetchedFor(batch);
    i := |[Fetch(batch)] + c.AppliedEffects(records) + c.Announce(records != [])|;
  }

  /** In an uncancelled run, every store record that counts is promoted, unless the cache served
      its key. */
  lemma ServedIsPromoted<ID(!new), R(!new)>(c: Lookup<ID, R>, trace: seq<Step<ID, R>>, key: Key, r: R) returns (j: nat)
    requires c.Lawful() && EffectsOf(trace) == c.Plan() && key in c.req.keyOrder
    requires c.Served(c.Cached(key)).None? && c.Served(c.Stored(key)) == Some(r)
    ensures j < |trace| && trace[j].effect.CacheSave?
    ensures Write(r, RemainingTTL(c.p.fetchedAt(r), c.p.now, c.p.ttl)) in trace[j].effect.writes
  {
    hide *;
    var left, write := c.LeftToStore(), Write(r, RemainingTTL(c.p.fetchedAt(r), c.p.now, c.p.ttl));
    LeftAre(c, key);
    PromotionsAre(c, left, write);
    j := PromotionsInPlan(c);
    assert EffectsOf(trace)[j] == c.Plan()[j];
    EffectAt(trace, j);
  }

  lemma EffectAt<ID, R>(trace: seq<Step<ID, R>>, j: nat)
    requires j < |trace|
    ensures EffectsOf(trace)[j] == trace[j].effect
  {
  }

  lemma LeftAre<ID(!new), R(!new)>(c: Lookup<ID, R>, key: Key)
    requires key in c.req.keyOrder && c.Served(c.Cached(key)).None?
    ensures key in c.LeftToStore()
  {
    c.IncompleteIs(c.req.keyOrder, c.CacheServes(c.req.keyOrder));
    hide Lookup.Served, Lookup.Cached, Lookup.Incomplete;
  }

  lemma PromotionsInPlan<ID(!new), R(!new)>(c: Lookup<ID, R>) returns (j: nat)
    requires c.Lawful() && c.req.keyOrder != [] && c.LeftToStore() != [] && c.Promotions(c.LeftToStore()) != []
    ensures j < |c.Plan()| && c.Plan()[j] == CacheSave(c.Promotions(c.LeftToStore()))
  {
    hide Lookup.CachePlan, Lookup.StoreEffects, Lookup.Announce, Lookup.Promotions, Lookup.BatchPlans, Lookup.Batches,
         Lookup.CacheServes, Lookup.LocallyServed, Lookup.LeftToStore, Lookup.Lawful, Lookup.Incomplete;
    j := |c.LocalPlan()| - 1;
    assert c.LocalPlan()[j] == CacheSave(c.Promotions(c.LeftToStore()));
  }

  /* ---------- stale records ---------- */

  /** In every run, cancelled or not, a stale record noted for a key is an expired record one of
      the tiers holds for that key. */
  lemma {:induction false} StaleIsOwn<ID(!new), R(!new)>(c: Lookup<ID, R>, trace: seq<Step<ID, R>>, key: Key)
    requires c.Lawful() && c.Monitored(trace) && key in c.Watch(trace).stale
    requires forall noted, r :: c.p.newer(noted, r) == r || Some(c.p.newer(noted, r)) == noted
    ensures var r := c.Watch(trace).stale[key];
            key in c.req.keyOrder && !c.IsFresh(r) && (c.Cached(key) == Some(r) || c.Stored(key) == Some(r))
  {
    hide *;
    if trace == [] {
      NothingWatched(c);
    } else {
      var front := trace[..|trace| - 1];
      MonitoredPrefix(c, trace, |front|);
      StepAllowed(c, trace, |front|);
      WatchStep(c, trace, |trace|);
      assert trace[..|trace|] == trace;
      if key in c.Watch(front).stale {
        StaleIsOwn(c, front, key);
      }
      StaleStep(c, c.Watch(front), trace[|front|], key);
    }
  }

  lemma NothingWatched<ID(!new), R(!new)>(c: Lookup<ID, R>)
    ensures c.Watch([]).stale == map[]
  {
  }

  lemma StaleStep<ID(!new), R(!new)>(c: Lookup<ID, R>, seen: Seen<ID, R>, step: Step<ID, R>, key: Key)
    requires c.Lawful() && c.Allowed(seen, step) && key in c.Advance(seen, step.effect).stale
    requires forall noted, r :: c.p.newer(noted, r) == r || Some(c.p.newer(noted, r)) == noted
    requires key in seen.stale ==>
               var r := seen.stale[key];
               key in c.req.keyOrder && !c.IsFresh(r) && (c.Cached(key) == Some(r) || c.Stored(key) == Some(r))
    ensures var r := c.Advance(seen, step.effect).stale[key];
            key in c.req.keyOrder && !c.IsFresh(r) && (c.Cached(key) == Some(r) || c.Stored(key) == Some(r))
  {
    hide Lookup.IsFresh, Lookup.Cached, Lookup.Stored, Lookup.Outcome, Lookup.Provided, Lookup.Batches,
         Lookup.KnownMiss,
         Lookup.IsPromotion, Lookup.Lawful;
  }

  /** What a run that follows its plan has looked at: as long as only the first tier, it has not
      loaded the store; once both, it has, unless the cache left nothing to load. */
  lemma TiersAreLoaded<ID(!new), R(!new)>(c: Lookup<ID, R>, trace: seq<Step<ID, R>>)
    requires c.Lawful() && c.Monitored(trace) && trace != [] && EffectsOf(trace) <= c.Plan()
    ensures c.TiersSeen(c.Watch(trace)) == 1 ==> forall j | 0 <= j < |trace| :: !trace[j].effect.StoreLoad?
    ensures c.TiersSeen(c.Watch(trace)) == 2 && c.LeftToStore() != [] ==>
              exists j :: 0 <= j < |trace| && trace[j].effect == StoreLoad(c.LeftToStore())
  {
    hide *;
    TiersSeenIs(c, trace);
    forall j | 0 <= j < |trace| && trace[j].effect.StoreLoad?
      ensures c.TiersSeen(c.Watch(trace)) == 2
    {
      WatchStep(c, trace, j + 1);
      StoreLoadMoves(c, c.Watch(trace[..j]), trace[j].effect);
      TierOnlyAdvances(c, trace, j + 1, |trace|);
      assert trace[..|trace|] == trace;
      RanksAre(c.Watch(trace[..j + 1]).tier, c.Watch(trace).tier);
    }
    if c.TiersSeen(c.Watch(trace)) == 2 && c.LeftToStore() != [] {
      StoreComesNext(c, trace);
    }
  }

  lemma TiersSeenIs<ID(!new), R(!new)>(c: Lookup<ID, R>, trace: seq<Step<ID, R>>)
    ensures c.TiersSeen(c.Watch(trace)) == if c.Watch(trace).tier == PipelineSpec.CacheTier then 1 else 2
  {
    hide Lookup.Watch;
  }

  lemma StoreLoadMoves<ID(!new), R(!new)>(c: Lookup<ID, R>, seen: Seen<ID, R>, effect: Effect<ID, R>)
    ensures effect.StoreLoad? ==> c.Advance(seen, effect).tier == PipelineSpec.StoreTier
  {
  }

  lemma RanksAre(a: Tier, b: Tier)
    ensures a == PipelineSpec.StoreTier && Rank(a) <= Rank(b) ==> b != PipelineSpec.CacheTier
  {
  }

  /** Past the first tier's part of the plan comes the store load. */
  lemma StoreComesNext<ID(!new), R(!new)>(c: Lookup<ID, R>, trace: seq<Step<ID, R>>)
    requires c.Lawful() && trace != [] && EffectsOf(trace) <= c.Plan() && c.LeftToStore() != []
    requires c.Watch(trace).tier != PipelineSpec.CacheTier
    ensures exists j :: 0 <= j < |trace| && trace[j].effect == StoreLoad(c.LeftToStore())
  {
    hide *;
    var at := |c.CachePlan()|;
    StoreInPlan(c);
    if |trace| <= at {
      assert EffectsOf(trace) <= c.CachePlan();
      StillCache(c, trace);
    } else {
      EffectAt(trace, at);
      assert EffectsOf(trace)[at] == c.Plan()[at];
    }
  }

  lemma StoreInPlan<ID(!new), R(!new)>(c: Lookup<ID, R>)
    requires c.Lawful() && c.LeftToStore() != []
    ensures c.req.keyOrder != [] ==>
              c.CachePlan() + [StoreLoad(c.LeftToStore())] <= c.Plan()
    ensures c.req.keyOrder == [] ==> c.Plan() == []
  {
    hide Lookup.CachePlan, Lookup.Announce, Lookup.PromotionSaves, Lookup.Promotions, Lookup.BatchPlans, Lookup.Batches,
         Lookup.CacheServes, Lookup.LocallyServed, Lookup.LeftToStore, Lookup.Lawful, Lookup.Incomplete,
         Lookup.StoreEffects;
    StoreEffectsStart(c, c.LeftToStore(), c.LeftToStore());
  }

  lemma {:induction false} StoreEffectsStart<ID(!new), R(!new)>(c: Lookup<ID, R>, keys: seq<Key>, load: seq<Key>)
    ensures [StoreLoad(load)] <= c.StoreEffects(keys, load)
  {
    hide Lookup.KeyEffects, Lookup.Stored;
    if keys != [] {
      StoreEffectsStart(c, keys[..|keys| - 1], load);
    }
  }

  /** The effects of the first tier never leave it. */
  predicate StaysInCache<ID, R>(effect: Effect<ID, R>) {
    effect.CacheLoad? || effect.Applied? || effect.Stale? || effect.Progress?
  }

  lemma {:induction false} CacheEffectsStay<ID(!new), R(!new)>(c: Lookup<ID, R>, keys: seq<Key>)
    ensures c.CacheEffects(keys) != [] && c.CacheEffects(keys)[0].CacheLoad?
    ensures forall e | e in c.CacheEffects(keys) :: StaysInCache(e)
  {
    hide Lookup.Cached, Lookup.Expired, Lookup.Served;
    if keys != [] {
      CacheEffectsStay(c, keys[..|keys| - 1]);
    }
  }

  lemma StillCache<ID(!new), R(!new)>(c: Lookup<ID, R>, trace: seq<Step<ID, R>>)
    requires trace != [] && EffectsOf(trace) <= c.CachePlan()
    ensures c.Watch(trace).tier == PipelineSpec.CacheTier
  {
    CacheEffectsStay(c, c.req.keyOrder);
    hide Lookup.CacheEffects, Lookup.CacheServes;
    assert EffectsOf(trace)[0] == c.CachePlan()[0];
    forall i | 0 <= i < |trace|
      ensures StaysInCache(trace[i].effect)
    {
      assert EffectsOf(trace)[i] == c.CachePlan()[i];
    }
    OnlyCache(c, trace);
  }

  lemma {:induction false} OnlyCache<ID(!new), R(!new)>(c: Lookup<ID, R>, trace: seq<Step<ID, R>>)
    requires trace != [] && trace[0].effect.CacheLoad? && forall i | 0 <= i < |trace| :: StaysInCache(trace[i].effect)
    ensures c.Watch(trace).tier == PipelineSpec.CacheTier
  {
    if |trace| > 1 {
      OnlyCache(c, trace[..|trace| - 1]);
    }
  }

  /* ---------- one write a slot ---------- */

  /** With disjoint index lists and duplicate-free keys, no two effects of a run write the same
      slot, and no single effect writes one twice. */
  lemma OneWriteASlot<ID(!new), R(!new)>(c: Lookup<ID, R>, trace: seq<Step<ID, R>>, i: nat, j: nat, slot: nat)
    requires c.Lawful() && c.Monitored(trace) && NoDuplicates(c.req.keyOrder) && DisjointIndexes(c.req)
    requires i < j < |trace| && trace[i].effect.Applied? && trace[j].effect.Applied?
    ensures slot in trace[i].effect.indexes ==> slot !in trace[j].effect.indexes
    ensures NoDuplicates(trace[i].effect.indexes) && NoDuplicates(trace[j].effect.indexes)
  {
    hide *;
    StepAllowed(c, trace, i);
    StepAllowed(c, trace, j);
    assert trace[..i] + [trace[i]] == trace[..i + 1] && trace[..j] + [trace[j]] == trace[..j + 1];
    AppliedIs(c, trace[..i], trace[i]);
    AppliedIs(c, trace[..j], trace[j]);
    CompleteGrows(c, trace[..j], i + 1);
    assert trace[..j][..i + 1] == trace[..i + 1];
    OtherSlots(c, c.p.keyOf(trace[i].effect.record), c.p.keyOf(trace[j].effect.record), slot);
  }
}
