/** The lookup cascade: Redis, then PostgreSQL, then the provider. */
module MarketPipeline {
  import opened Decimal
  import opened MarketKey
  import opened Sorting
  import opened PipelineSpec

  /** One write of a record at each of its output indexes. */
  function Put<R, O>(render: (O, R) -> O, out: seq<O>, indexes: seq<nat>, r: R): (next: seq<O>)
    requires forall i | 0 <= i < |indexes| :: indexes[i] < |out|
    ensures |next| == |out|
  {
    if indexes == [] then out else
      var before := Put(render, out, indexes[..|indexes| - 1], r);
      var last := indexes[|indexes| - 1];
      before[last := render(before[last], r)]
  }

  ghost predicate InRange<ID, R>(trace: seq<Step<ID, R>>, n: nat) {
    forall i, j | 0 <= i < |trace| && trace[i].effect.Applied? && 0 <= j < |trace[i].effect.indexes| ::
      trace[i].effect.indexes[j] < n
  }

  /** The output after a trace: every applied record written at its indexes, in order. */
  ghost function Output<ID, R, O>(render: (O, R) -> O, start: seq<O>, trace: seq<Step<ID, R>>): (out: seq<O>)
    requires InRange(trace, |start|)
    ensures |out| == |start|
  {
    if trace == [] then start else
      var before := Output(render, start, trace[..|trace| - 1]);
      var last := trace[|trace| - 1].effect;
      if last.Applied? then
        assert forall j | 0 <= j < |last.indexes| :: last.indexes[j] < |start|;
        Put(render, before, last.indexes, last.record)
      else before
  }

  lemma OutputStep<ID, R, O>(render: (O, R) -> O, start: seq<O>, trace: seq<Step<ID, R>>, step: Step<ID, R>)
    requires InRange(trace, |start|)
    requires step.effect.Applied? ==> forall j | 0 <= j < |step.effect.indexes| :: step.effect.indexes[j] < |start|
    ensures InRange(trace + [step], |start|)
    ensures Output(render, start, trace + [step])
            == if step.effect.Applied? then Put(render, Output(render, start, trace), step.effect.indexes,
                                                step.effect.record)
               else Output(render, start, trace)
  {
    assert (trace + [step])[..|trace|] == trace;
  }

  class Cascade<ID(==,!new), R(==,!new), O> {
    const c: Lookup<ID, R>
    const render: (O, R) -> O
    const out: array<O>
    ghost const start: seq<O>
    var trace: seq<Step<ID, R>>
    var cancelled: bool
    /** The stale records noted so far, by key. */
    var stale: map<Key, R>
    ghost var seen: Seen<ID, R>

    ghost predicate Valid()
      reads this, out
    {
      && c.Lawful() && c.Monitored(trace) && seen == c.Watch(trace)
      && c.Sound(seen) && cancelled == c.CancelledBy(|trace|) && stale == seen.stale
      && |start| == out.Length && InRange(trace, |start|) && out[..] == Output(render, start, trace)
      && (forall key, i | key in c.req.indexesByKey && 0 <= i < |c.req.indexesByKey[key]| ::
            c.req.indexesByKey[key][i] < out.Length)
    }

    constructor (c: Lookup<ID, R>, render: (O, R) -> O, out: array<O>)
      requires c.Lawful()
      requires forall key, i | key in c.req.indexesByKey && 0 <= i < |c.req.indexesByKey[key]| ::
                 c.req.indexesByKey[key][i] < out.Length
      ensures Valid() && trace == [] && this.c == c && this.render == render && this.out == out && start == out[..]
    {
      this.c, this.render, this.out := c, render, out;
      start := out[..];
      trace, cancelled, stale, seen := [], c.w.cancelledAtStart, map[], c.Start();
    }

    /** Performs an effect that writes no output; the world may raise a cancellation during it. */
    method Perform(effect: Effect<ID, R>)
      requires Valid() && !effect.Applied? && !effect.Stale? && c.Allowed(seen, Step(effect, cancelled))
      modifies this`trace, this`cancelled, this`seen
      ensures Valid() && trace == old(trace) + [Step(effect, old(cancelled))]
      ensures seen == c.Advance(old(seen), effect) && (old(cancelled) ==> cancelled)
    {
      hide Lookup.Watch, Lookup.Monitored, Lookup.CancelledBy, Lookup.Allowed, Lookup.Sound, Output, InRange;
      c.MonitorStep(trace, Step(effect, cancelled));
      OutputStep(render, start, trace, Step(effect, cancelled));
      Record(effect);
    }

    method Record(effect: Effect<ID, R>)
      modifies this`trace, this`cancelled, this`seen
      ensures trace == old(trace) + [Step(effect, old(cancelled))]
      ensures cancelled == (old(cancelled) || c.w.raises(|old(trace)|))
      ensures seen == c.Advance(old(seen), effect)
    {
      trace := trace + [Step(effect, cancelled)];
      cancelled := cancelled || c.w.raises(|trace| - 1);
      seen := c.Advance(seen, effect);
    }

    method LoadCache(keys: seq<Key>) returns (records: map<Key, R>)
      requires Valid() && c.Allowed(seen, Step(CacheLoad(keys), cancelled))
      modifies this`trace, this`cancelled, this`seen
      ensures Valid() && trace == old(trace) + [Step(CacheLoad(keys), old(cancelled))]
      ensures seen == c.Advance(old(seen), CacheLoad(keys))
      ensures records == c.Loaded(c.w.cache)
    {
      Perform(CacheLoad(keys));
      match c.w.cache
      case Answer(found) => records := found;
      case Failed => records := map[];
    }

    method LoadStore(keys: seq<Key>) returns (records: map<Key, R>)
      requires Valid() && c.Allowed(seen, Step(StoreLoad(keys), cancelled))
      modifies this`trace, this`cancelled, this`seen
      ensures Valid() && trace == old(trace) + [Step(StoreLoad(keys), old(cancelled))]
      ensures seen == c.Advance(old(seen), StoreLoad(keys))
      ensures records == c.Loaded(c.w.store)
    {
      Perform(StoreLoad(keys));
      match c.w.store
      case Answer(found) => records := found;
      case Failed => records := map[];
    }

    method LoadMisses(keys: seq<Key>) returns (missed: set<Key>)
      requires Valid() && c.Allowed(seen, Step(MissLoad(keys), cancelled))
      modifies this`trace, this`cancelled, this`seen
      ensures Valid() && trace == old(trace) + [Step(MissLoad(keys), old(cancelled))]
      ensures seen == c.Advance(old(seen), MissLoad(keys))
      ensures forall key :: key in missed <==> c.Suppressed(key)
    {
      Perform(MissLoad(keys));
      match c.w.misses
      case Answer(found) => missed := found;
      case Failed => missed := {};
    }

    method FetchBatch(ids: seq<ID>) returns (reply: Reply<map<ID, R>>)
      requires Valid() && c.Allowed(seen, Step(Fetch(ids), cancelled))
      modifies this`trace, this`cancelled, this`seen
      ensures Valid() && trace == old(trace) + [Step(Fetch(ids), old(cancelled))]
      ensures seen == c.Advance(old(seen), Fetch(ids)) && reply == c.w.fetch(ids)
    {
      Perform(Fetch(ids));
      reply := c.w.fetch(ids);
    }

    method Publish()
      requires Valid() && seen.tier != Idle
      modifies this`trace, this`cancelled, this`seen
      ensures Valid() && trace == old(trace) + [Step(Progress, old(cancelled))]
      ensures seen == c.Advance(old(seen), Progress)
    {
      Perform(Progress);
    }

    method SaveCache(writes: seq<Write<R>>) returns (ok: bool)
      requires Valid() && c.Allowed(seen, Step(CacheSave(writes), cancelled))
      modifies this`trace, this`cancelled, this`seen
      ensures Valid() && trace == old(trace) + [Step(CacheSave(writes), old(cancelled))]
      ensures seen == c.Advance(old(seen), CacheSave(writes)) && ok == c.w.saves(|old(trace)|)
    {
      Perform(CacheSave(writes));
      ok := c.w.saves(|trace| - 1);
    }

    method SaveStore(records: seq<R>) returns (ok: bool)
      requires Valid() && c.Allowed(seen, Step(StoreSave(records), cancelled))
      modifies this`trace, this`cancelled, this`seen
      ensures Valid() && trace == old(trace) + [Step(StoreSave(records), old(cancelled))]
      ensures seen == c.Advance(old(seen), StoreSave(records)) && ok == c.w.saves(|old(trace)|)
    {
      Perform(StoreSave(records));
      ok := c.w.saves(|trace| - 1);
    }

    method SaveMisses(missed: seq<Key>, ttl: int) returns (ok: bool)
      requires Valid() && c.Allowed(seen, Step(MissSave(missed, ttl), cancelled))
      modifies this`trace, this`cancelled, this`seen
      ensures Valid() && trace == old(trace) + [Step(MissSave(missed, ttl), old(cancelled))]
      ensures seen == c.Advance(old(seen), MissSave(missed, ttl)) && ok == c.w.saves(|old(trace)|)
    {
      Perform(MissSave(missed, ttl));
      ok := c.w.saves(|trace| - 1);
    }

    method NoteStale(key: Key, record: R)
      requires Valid() && c.Allowed(seen, Step(Stale(key, record), cancelled))
      modifies this`trace, this`cancelled, this`seen, this`stale
      ensures Valid() && trace == old(trace) + [Step(Stale(key, record), old(cancelled))]
      ensures seen == c.Advance(old(seen), Stale(key, record))
    {
      hide Lookup.Watch, Lookup.Monitored, Lookup.CancelledBy, Lookup.Allowed, Lookup.Sound, Output, InRange;
      c.MonitorStep(trace, Step(Stale(key, record), cancelled));
      OutputStep(render, start, trace, Step(Stale(key, record), cancelled));
      stale := stale[key := c.p.newer(if key in stale then Some(stale[key]) else None, record)];
      Record(Stale(key, record));
    }

    /** Writes a usable record at every index and reports whether it was usable. */
    method Apply(indexes: seq<nat>, record: R) returns (ok: bool)
      requires Valid()
      requires c.p.usable(record) ==> c.Allowed(seen, Step(Applied(indexes, record), cancelled))
      modifies this`trace, this`cancelled, this`seen, out
      ensures Valid() && ok == c.p.usable(record)
      ensures !ok ==> trace == old(trace) && seen == old(seen) && cancelled == old(cancelled)
      ensures ok ==> trace == old(trace) + [Step(Applied(indexes, record), old(cancelled))]
      ensures ok ==> seen == c.Advance(old(seen), Applied(indexes, record))
    {
      hide Lookup.Watch, Lookup.Monitored, Lookup.CancelledBy, Lookup.Sound, Output, InRange;
      if !c.p.usable(record) {
        return false;
      }
      WriteOutput(indexes, record);
      c.MonitorStep(trace, Step(Applied(indexes, record), cancelled));
      OutputStep(render, start, trace, Step(Applied(indexes, record), cancelled));
      Record(Applied(indexes, record));
      return true;
    }

    method WriteOutput(indexes: seq<nat>, record: R)
      requires forall i | 0 <= i < |indexes| :: indexes[i] < out.Length
      modifies out
      ensures out[..] == Put(render, old(out[..]), indexes, record)
    {
      for n := 0 to |indexes|
        invariant out[..] == Put(render, old(out[..]), indexes[..n], record)
      {
        assert indexes[..n + 1][..n] == indexes[..n];
        out[indexes[n]] := render(out[indexes[n]], record);
      }
      assert indexes[..|indexes|] == indexes;
    }

    /* ---------- the tiers ---------- */

    lemma ValidIs()
      requires Valid()
      ensures c.Lawful() && c.Sound(seen)
    {
    }

    /** Looks at one key's record of the current tier: an expired one is noted, a fresh one
        applied. */
    method Consider(key: Key, found: Option<R>) returns (ok: bool)
      requires Valid() && key in c.req.keyOrder && (NoDuplicates(c.req.keyOrder) ==> key !in seen.complete)
      requires seen.tier == PipelineSpec.CacheTier ||
                 (seen.tier == PipelineSpec.StoreTier && c.Served(c.Cached(key)).None?)
      requires found == if seen.tier == PipelineSpec.CacheTier then c.Cached(key) else c.Stored(key)
      modifies this`trace, this`cancelled, this`seen, this`stale, out
      ensures Valid() && seen == c.Considered(old(seen), key, found) && ok == c.Served(found).Some?
    {
      ValidIs();
      c.ConsideredAllowed(seen, key, cancelled);
      hide Valid, Lookup.Allowed, Lookup.Advance, Lookup.Outcome, Fresh;
      if found.None? {
        return false;
      }
      if !c.IsFresh(found.value) {
        NoteStale(key, found.value);
        return false;
      }
      ok := Apply(c.Indexes(key), found.value);
    }

    /** Publishes the results applied so far, if there are new ones. */
    method PublishIf(progressed: bool)
      requires Valid() && seen.tier != Idle
      modifies this`trace, this`cancelled, this`seen
      ensures seen.effects == old(seen.effects) + c.Announce(progressed)
      ensures Valid() && seen == if progressed then c.Advance(old(seen), Progress) else old(seen)
      ensures seen.complete == old(seen.complete) && (progressed ==> seen.published == seen.applied)
      ensures seen.applied == old(seen.applied) && seen.tier == old(seen.tier)
    {
      hide Valid;
      if progressed {
        Publish();
      }
    }

    /** Tier 1: every fresh usable matching cache record is applied, and nothing else. */
    method CacheTier() returns (complete: set<Key>)
      requires Valid() && trace == [] && seen == c.Start()
      modifies this`trace, this`cancelled, this`seen, this`stale, out
      ensures Valid() && c.CacheScanned(seen, |c.req.keyOrder|) && complete == seen.complete
      ensures seen.applied == seen.published && seen.effects == c.CachePlan()
    {
      hide *;
      var keys := c.req.keyOrder;
      var records := StartCacheTier();
      complete := {};
      var progressed := false;
      for i := 0 to |keys|
        invariant Valid() && c.CacheScanned(seen, i) && complete == seen.complete && CacheProgress(i, progressed)
      {
        ghost var before := seen;
        CacheProgressWas(i, progressed);
        var ok := CacheKey(i, c.Matching(records, keys[i]));
        CacheProgresses(before, i, progressed, ok);
        if ok {
          complete := complete + {keys[i]};
          progressed := true;
        }
      }
      CacheProgressIs(progressed);
      c.CacheScanPublished(seen, |keys|);
      TierIs(|keys|);
      PublishIf(progressed);
      CachePlanIs();
    }

    /** The first tier has followed its plan for `n` keys, and knows whether it served any. */
    ghost predicate CacheProgress(n: nat, progressed: bool)
      requires n <= |c.req.keyOrder|
      reads this
    {
      && seen.effects == c.CacheEffects(c.req.keyOrder[..n]) && (progressed <==> seen.complete != {})
      && (progressed || seen.applied == seen.published)
    }

    lemma CacheProgressWas(n: nat, progressed: bool)
      requires n <= |c.req.keyOrder| && CacheProgress(n, progressed)
      ensures seen.effects == c.CacheEffects(c.req.keyOrder[..n]) && (progressed <==> seen.complete != {})
      ensures progressed || seen.applied == seen.published
    {
      hide Lookup.CacheEffects;
    }

    lemma CacheProgresses(before: Seen<ID, R>, n: nat, progressed: bool, ok: bool)
      requires n < |c.req.keyOrder|
      requires before.effects == c.CacheEffects(c.req.keyOrder[..n]) && (progressed <==> before.complete != {})
      requires progressed || before.applied == before.published
      requires seen.complete == if ok then before.complete + {c.req.keyOrder[n]} else before.complete
      requires !ok ==> seen.applied == before.applied && seen.published == before.published
      requires seen.effects == before.effects + c.KeyEffects(c.req.keyOrder[n], c.Cached(c.req.keyOrder[n]))
      ensures CacheProgress(n + 1, progressed || ok)
    {
      c.CacheEffectsSnoc(n);
      hide Lookup.CacheEffects, Lookup.KeyEffects, Lookup.Cached;
      assert ok ==> c.req.keyOrder[n] in seen.complete;
    }

    lemma CacheProgressIs(progressed: bool)
      requires CacheProgress(|c.req.keyOrder|, progressed) && c.CacheScanned(seen, |c.req.keyOrder|)
      ensures seen.effects == c.CacheEffects(c.req.keyOrder)
      ensures progressed <==> c.CacheServes(c.req.keyOrder) != {}
      ensures progressed || seen.applied == seen.published
    {
      CacheScanIs();
      hide Lookup.CacheEffects, Lookup.CacheServes, Lookup.CacheScanned;
      assert c.req.keyOrder[..|c.req.keyOrder|] == c.req.keyOrder;
    }

    lemma CachePlanIs()
      ensures c.CachePlan() == c.CacheEffects(c.req.keyOrder) + c.Announce(c.CacheServes(c.req.keyOrder) != {})
    {
    }

    method StartCacheTier() returns (records: map<Key, R>)
      requires Valid() && trace == [] && seen == c.Start()
      modifies this`trace, this`cancelled, this`seen
      ensures Valid() && c.CacheScanned(seen, 0) && seen.complete == {} && CacheProgress(0, false)
      ensures forall key :: c.Matching(records, key) == c.Cached(key)
    {
      records := LoadCache(c.req.keyOrder);
    }

    method CacheKey(n: nat, found: Option<R>) returns (ok: bool)
      requires n < |c.req.keyOrder| && Valid() && c.CacheScanned(seen, n) && found == c.Cached(c.req.keyOrder[n])
      modifies this`trace, this`cancelled, this`seen, this`stale, out
      ensures Valid() && c.CacheScanned(seen, n + 1)
      ensures seen.complete == if ok then old(seen.complete) + {c.req.keyOrder[n]} else old(seen.complete)
      ensures !ok ==> seen.applied == old(seen.applied) && seen.published == old(seen.published)
      ensures seen.effects == old(seen.effects) + c.KeyEffects(c.req.keyOrder[n], found)
    {
      hide Valid, Lookup.Served, Lookup.CacheScanned, Lookup.Noted, Lookup.Matching, Lookup.Allowed, Lookup.Sound,
           Lookup.KeyEffects;
      ValidIs();
      c.CacheScanStep(seen, n);
      TierIs(n);
      c.ConsideredAllowed(seen, c.req.keyOrder[n], cancelled);
      ok := Consider(c.req.keyOrder[n], found);
    }

    lemma TierIs(n: nat)
      requires n <= |c.req.keyOrder| && c.CacheScanned(seen, n)
      ensures seen.tier == PipelineSpec.CacheTier
    {
    }

    method IncompleteKeys(complete: set<Key>) returns (remaining: seq<Key>)
      ensures remaining == c.Incomplete(c.req.keyOrder, complete)
    {
      var keys := c.req.keyOrder;
      remaining := [];
      for i := 0 to |keys|
        invariant remaining == c.Incomplete(keys[..i], complete)
      {
        assert keys[..i + 1][..i] == keys[..i];
        if keys[i] !in complete {
          remaining := remaining + [keys[i]];
        }
      }
      assert keys[..|keys|] == keys;
    }

    /** Tier 2: the store's records for what the cache left, promoted back into the cache with
        the lifetime they have left. */
    method StoreTier(fromCache: set<Key>) returns (complete: set<Key>)
      requires Valid() && !cancelled && c.CacheScanned(seen, |c.req.keyOrder|) && fromCache == seen.complete
      requires seen.applied == seen.published && seen.effects == c.CachePlan()
      modifies this`trace, this`cancelled, this`seen, this`stale, out
      ensures Valid() && complete == seen.complete && c.LocalTiersDone(seen) && seen.applied == seen.published
      ensures seen.effects <= c.LocalPlan() && (!cancelled ==> seen.effects == c.LocalPlan())
    {
      hide *;
      complete := fromCache;
      CacheScanIs();
      var remaining := IncompleteKeys(complete);
      LocalPlanIs(remaining);
      if |remaining| == 0 {
        c.CacheServedAll(seen);
        return;
      }
      ghost var base := seen.effects;
      var records := StartStoreTier(remaining);
      var promotions, progressed;
      complete, promotions, progressed := ScanStore(remaining, records, complete, base);
      c.StoreScanComplete(seen, remaining);
      LocallyServedIs();
      StoreTierIs(remaining, |remaining|);
      assert remaining[..|remaining|] == remaining;
      FinishStoreTier(progressed, promotions);
    }

    lemma LocalPlanIs(remaining: seq<Key>)
      requires remaining == c.Incomplete(c.req.keyOrder, c.CacheServes(c.req.keyOrder))
      ensures c.LocalPlan() == if remaining == [] then c.CachePlan() else
                c.CachePlan() + c.StoreEffects(remaining, remaining)
                + c.Announce(c.LocallyServed(c.req.keyOrder) != c.CacheServes(c.req.keyOrder))
                + c.PromotionSaves(c.Promotions(remaining))
    {
      hide Lookup.CachePlan, Lookup.StoreEffects, Lookup.Announce, Lookup.PromotionSaves, Lookup.Promotions,
           Lookup.CacheServes, Lookup.LocallyServed, Lookup.Incomplete;
    }

    lemma LocallyServedIs()
      requires c.LocalTiersDone(seen)
      ensures seen.complete == c.LocallyServed(c.req.keyOrder)
    {
    }

    method ScanStore(remaining: seq<Key>, records: map<Key, R>, fromCache: set<Key>, ghost base: seq<Effect<ID, R>>)
      returns (complete: set<Key>, promotions: seq<Write<R>>, progressed: bool)
      requires Valid() && c.StoreScanned(seen, remaining, 0) && fromCache == seen.complete
      requires fromCache == c.CacheServes(c.req.keyOrder) && seen.applied == seen.published
      requires remaining == c.Incomplete(c.req.keyOrder, c.CacheServes(c.req.keyOrder))
      requires forall key :: c.Matching(records, key) == c.Stored(key)
      requires seen.effects == base + c.StoreEffects(remaining[..0], remaining)
      modifies this`trace, this`cancelled, this`seen, this`stale, out
      ensures Valid() && c.StoreScanned(seen, remaining, |remaining|) && complete == seen.complete
      ensures PromotionsReady(seen.applied, promotions) && (progressed || seen.applied == seen.published)
      ensures seen.effects == base + c.StoreEffects(remaining[..|remaining|], remaining)
      ensures promotions == c.Promotions(remaining[..|remaining|]) && (progressed <==> complete != fromCache)
    {
      hide *;
      complete, promotions, progressed := fromCache, [], false;
      NothingPromoted(remaining);
      for n := 0 to |remaining|
        invariant Valid() && c.StoreScanned(seen, remaining, n) && complete == seen.complete
        invariant progressed || seen.applied == seen.published
        invariant PromotionsReady(seen.applied, promotions)
        invariant seen.effects == base + c.StoreEffects(remaining[..n], remaining)
        invariant promotions == c.Promotions(remaining[..n])
        invariant fromCache <= complete && (progressed <==> complete != fromCache)
      {
        c.StoreEffectsSnoc(base, remaining, n);
        LeftByCache(remaining, n);
        var record := c.Matching(records, remaining[n]);
        ghost var applied := seen.applied;
        var ok := StoreKey(remaining, n, record);
        StillReady(applied, promotions);
        if ok {
          complete := complete + {remaining[n]};
          progressed := true;
          promotions := WithPromotion(promotions, record.value);
        }
      }
    }

    lemma NothingPromoted(remaining: seq<Key>)
      ensures c.Promotions(remaining[..0]) == [] && PromotionsReady(seen.applied, [])
    {
    }

    lemma LeftByCache(remaining: seq<Key>, n: nat)
      requires n < |remaining| && remaining == c.Incomplete(c.req.keyOrder, c.CacheServes(c.req.keyOrder))
      ensures remaining[n] !in c.CacheServes(c.req.keyOrder)
    {
      c.IncompleteIs(c.req.keyOrder, c.CacheServes(c.req.keyOrder));
      hide Lookup.Incomplete, Lookup.CacheServes;
      assert remaining[n] in remaining;
    }

    lemma StillReady(applied: set<R>, promotions: seq<Write<R>>)
      requires PromotionsReady(applied, promotions) && applied <= seen.applied
      ensures PromotionsReady(seen.applied, promotions)
    {
      hide Lookup.IsPromotion;
    }

    method WithPromotion(promotions: seq<Write<R>>, record: R) returns (more: seq<Write<R>>)
      requires PromotionsReady(seen.applied, promotions) && record in seen.applied
      requires c.Served(c.Stored(c.p.keyOf(record))) == Some(record)
      ensures PromotionsReady(seen.applied, more)
      ensures more == promotions + [Write(record, RemainingTTL(c.p.fetchedAt(record), c.p.now, c.p.ttl))]
    {
      var left := RemainingTTL(c.p.fetchedAt(record), c.p.now, c.p.ttl);
      more := promotions;
      if left > 0 {
        more := more + [Write(record, left)];
      }
    }

    lemma CacheScanIs()
      requires c.CacheScanned(seen, |c.req.keyOrder|)
      ensures seen.complete == c.CacheServes(c.req.keyOrder)
    {
      assert c.req.keyOrder[..|c.req.keyOrder|] == c.req.keyOrder;
    }

    method StartStoreTier(remaining: seq<Key>) returns (records: map<Key, R>)
      requires Valid() && !cancelled && c.CacheScanned(seen, |c.req.keyOrder|)
      requires remaining == c.Incomplete(c.req.keyOrder, seen.complete) && remaining != []
      requires seen.applied == seen.published
      modifies this`trace, this`cancelled, this`seen
      ensures Valid() && c.StoreScanned(seen, remaining, 0)
      ensures seen.complete == old(seen.complete) && seen.applied == old(seen.applied)
      ensures seen.published == old(seen.published)
      ensures seen.effects == old(seen.effects) + c.StoreEffects(remaining[..0], remaining)
      ensures forall key :: c.Matching(records, key) == c.Stored(key)
    {
      assert c.req.keyOrder[..|c.req.keyOrder|] == c.req.keyOrder;
      records := LoadStore(remaining);
      forall k
        ensures c.Noted(seen, k) == old(c.Noted(seen, k))
      {
      }
    }

    /** Promotions are served store records, applied, with the lifetime they have left. */
    ghost predicate PromotionsReady(applied: set<R>, promotions: seq<Write<R>>) {
      forall i | 0 <= i < |promotions| :: c.IsPromotion(promotions[i]) && promotions[i].record in applied
    }

    method StoreKey(remaining: seq<Key>, n: nat, found: Option<R>) returns (ok: bool)
      requires Valid() && remaining == c.Incomplete(c.req.keyOrder, c.CacheServes(c.req.keyOrder))
      requires n < |remaining| && c.StoreScanned(seen, remaining, n) && found == c.Stored(remaining[n])
      modifies this`trace, this`cancelled, this`seen, this`stale, out
      ensures Valid() && c.StoreScanned(seen, remaining, n + 1)
      ensures ok <==> c.Served(found).Some?
      ensures ok ==> found.Some? && c.Served(c.Stored(c.p.keyOf(found.value))) == found == c.Served(found)
      ensures ok ==> found.value in seen.applied
      ensures seen.effects == old(seen.effects) + c.KeyEffects(remaining[n], found)
      ensures seen.complete == if ok then old(seen.complete) + {remaining[n]} else old(seen.complete)
      ensures old(seen.applied) <= seen.applied && (!ok ==> seen.applied == old(seen.applied))
      ensures seen.published == old(seen.published)
    {
      hide *;
      ValidIs();
      c.StoredCarriesKey(remaining[n]);
      c.StoreScanStep(seen, remaining, n);
      StoreTierIs(remaining, n);
      c.ConsideredAllowed(seen, remaining[n], cancelled);
      ok := Consider(remaining[n], found);
    }

    lemma StoreTierIs(remaining: seq<Key>, n: nat)
      requires n <= |remaining| && c.StoreScanned(seen, remaining, n)
      ensures seen.tier == PipelineSpec.StoreTier
    {
    }

    /** Publishes what the store tier applied, then promotes it. */
    method FinishStoreTier(progressed: bool, promotions: seq<Write<R>>)
      requires Valid() && seen.tier == PipelineSpec.StoreTier && PromotionsReady(seen.applied, promotions)
      requires c.LocalTiersDone(seen)
      requires progressed || seen.applied == seen.published
      modifies this`trace, this`cancelled, this`seen
      ensures Valid() && seen.complete == old(seen.complete) && c.LocalTiersDone(seen)
      ensures seen.applied == seen.published
      ensures var all := old(seen.effects) + c.Announce(progressed) + c.PromotionSaves(promotions);
              seen.effects <= all && (!cancelled ==> seen.effects == all)
    {
      hide *;
      c.LocalTiersStayDone(seen, Progress);
      PublishIf(progressed);
      PromotionSavesIs(promotions);
      if cancelled {
        return;
      }
      if |promotions| > 0 {
        c.LocalTiersStayDone(seen, CacheSave(promotions));
        Promote(promotions);
      }
    }

    lemma PromotionSavesIs(promotions: seq<Write<R>>)
      ensures c.PromotionSaves(promotions) == if promotions == [] then [] else [CacheSave(promotions)]
    {
    }

    method Promote(promotions: seq<Write<R>>)
      requires Valid() && !cancelled && seen.tier == PipelineSpec.StoreTier && promotions != []
      requires PromotionsReady(seen.applied, promotions) && seen.applied == seen.published
      modifies this`trace, this`cancelled, this`seen
      ensures Valid() && seen == c.Advance(old(seen), CacheSave(promotions)) && seen.applied == seen.published
      ensures seen.effects == old(seen.effects) + [CacheSave(promotions)]
    {
      hide Lookup.IsPromotion;
      var saved := SaveCache(promotions);
    }

    /* ---------- the provider tier ---------- */

    /** Groups the keys still to ask for by identifier, dropping those with a live miss. */
    method BuildGroups(complete: set<Key>, missed: set<Key>) returns (groups: map<ID, seq<Key>>)
      requires c.Lawful() && complete == c.LocallyServed(c.req.keyOrder)
      requires forall key :: key in missed <==> c.Suppressed(key)
      ensures groups.Keys == c.PendingIds()
      ensures forall id | id in groups :: groups[id] == c.GroupOf(c.req.keyOrder, id)
    {
      hide *;
      var keys := c.req.keyOrder;
      groups := map[];
      NoGroupsYet();
      for i := 0 to |keys|
        invariant GroupsUpTo(groups, i)
      {
        var key := keys[i];
        PendingIs(key, complete, missed);
        GroupsStep(groups, i);
        NextGroupsIs(groups, key);
        if key in complete || key in missed || key !in c.req.expectedId {
          continue;
        }
        var id := c.req.expectedId[key];
        groups := groups[id := Group(groups, id) + [key]];
      }
      GroupsDone(groups);
    }

    /** The groups of the first `n` keys. */
    ghost predicate GroupsUpTo(groups: map<ID, seq<Key>>, n: nat)
      requires n <= |c.req.keyOrder|
    {
      && groups.Keys == c.PendingIdsOf(c.req.keyOrder[..n])
      && forall id :: c.GroupOf(c.req.keyOrder[..n], id) == Group(groups, id)
    }

    static function Group(groups: map<ID, seq<Key>>, id: ID): seq<Key> {
      if id in groups then groups[id] else []
    }

    lemma NoGroupsYet()
      ensures GroupsUpTo(map[], 0)
    {
    }

    ghost function NextGroups(groups: map<ID, seq<Key>>, key: Key): map<ID, seq<Key>> {
      if !c.Pending(key) then groups
      else groups[c.req.expectedId[key] := Group(groups, c.req.expectedId[key]) + [key]]
    }

    lemma GroupsStep(groups: map<ID, seq<Key>>, n: nat)
      requires n < |c.req.keyOrder| && GroupsUpTo(groups, n)
      ensures GroupsUpTo(NextGroups(groups, c.req.keyOrder[n]), n + 1)
    {
      var keys, key := c.req.keyOrder, c.req.keyOrder[n];
      assert keys[..n + 1] == keys[..n] + [key];
      PendingSnoc(keys[..n], key);
      hide Lookup.Pending, Lookup.PendingIdsOf, Lookup.GroupOf, Group;
      forall id
        ensures c.GroupOf(keys[..n + 1], id) == Group(NextGroups(groups, key), id)
      {
        GroupSnoc(keys[..n], key, id);
        GroupAt(groups, key, id);
      }
    }

    lemma NextGroupsIs(groups: map<ID, seq<Key>>, key: Key)
      ensures !c.Pending(key) ==> NextGroups(groups, key) == groups
      ensures c.Pending(key) ==> key in c.req.expectedId &&
                                 var id := c.req.expectedId[key];
                                 NextGroups(groups, key) == groups[id := Group(groups, id) + [key]]
    {
    }

    lemma GroupAt(groups: map<ID, seq<Key>>, key: Key, id: ID)
      ensures Group(NextGroups(groups, key), id)
           == Group(groups, id) + if c.Pending(key) && c.req.expectedId[key] == id then [key] else []
    {
      hide Lookup.Pending;
    }

    lemma PendingSnoc(keys: seq<Key>, key: Key)
      ensures c.PendingIdsOf(keys + [key])
           == c.PendingIdsOf(keys) + if c.Pending(key) then {c.req.expectedId[key]} else {}
    {
      hide Lookup.Local, Lookup.Suppressed;
    }

    lemma GroupSnoc(keys: seq<Key>, key: Key, id: ID)
      ensures c.GroupOf(keys + [key], id)
           == c.GroupOf(keys, id) + if c.Pending(key) && c.req.expectedId[key] == id then [key] else []
    {
      hide Lookup.Local, Lookup.Suppressed;
      assert (keys + [key])[..|keys|] == keys;
    }

    lemma GroupsDone(groups: map<ID, seq<Key>>)
      requires GroupsUpTo(groups, |c.req.keyOrder|)
      ensures groups.Keys == c.PendingIds() && forall id | id in groups :: groups[id] == c.GroupOf(c.req.keyOrder, id)
    {
      hide Lookup.GroupOf, Lookup.PendingIdsOf;
      assert c.req.keyOrder[..|c.req.keyOrder|] == c.req.keyOrder;
    }

    lemma PendingIs(key: Key, complete: set<Key>, missed: set<Key>)
      requires complete == c.LocallyServed(c.req.keyOrder) && key in c.req.keyOrder
      requires forall k :: k in missed <==> c.Suppressed(k)
      ensures c.Pending(key) <==> key !in complete && key !in missed && key in c.req.expectedId
    {
    }

    method SortedIds(groups: map<ID, seq<Key>>) returns (ids: seq<ID>)
      requires c.Lawful() && groups.Keys == c.PendingIds()
      ensures ids == c.Ids()
    {
      var rest := groups.Keys;
      ids := [];
      while rest != {}
        invariant rest <= groups.Keys
        invariant forall id :: id in ids <==> id in groups.Keys && id !in rest
        invariant NoDuplicates(ids)
        decreases rest
      {
        var id :| id in rest;
        ids := ids + [id];
        rest := rest - {id};
      }
      SortIsSorting(c.p.less, ids);
      assert (set x | x in ids) == c.PendingIds();
      ids := Sort(c.p.less, ids);
      c.IdsAre();
      SortingUnique(c.p.less, ids, c.Ids(), c.PendingIds());
    }

    /** The records applied since `asked` are exactly these, in order. */
    ghost predicate AppliedSince(asked: seq<Effect<ID, R>>, records: seq<R>)
      reads this
    {
      seen.effects == asked + c.AppliedEffects(records)
    }

    /** Gives one fetched record to every key of its identifier, each with its own key. */
    method ApplyGroup(ghost batch: seq<ID>, ghost id: ID, record: R, keys: seq<Key>, soFar: set<Key>, ready: seq<R>,
                      ghost asked: seq<Effect<ID, R>>)
      returns (complete: set<Key>, fetched: seq<R>)
      requires Valid() && seen.tier == PipelineSpec.ProviderTier && id in batch && c.BatchIs(batch, id)
      requires c.Answered(batch, id) == Some(record) && AppliedSince(asked, ready)
      requires keys == c.GroupOf(c.req.keyOrder, id) && soFar == seen.complete && c.FetchedReady(seen, ready)
      requires forall k | k in keys :: k !in soFar
      modifies this`trace, this`cancelled, this`seen, out
      ensures Valid() && complete == seen.complete && c.FetchedReady(seen, fetched) && c.OnlyApplied(old(seen), seen)
      ensures c.ProvidedAmong(complete, soFar, keys)
      ensures AppliedSince(asked, fetched) && fetched == ready + c.ProvidedFor(keys)
    {
      hide *;
      complete, fetched := soFar, ready;
      GroupMembers(keys, id);
      SameIsOnlyApplied();
      c.NobodyProvided(soFar);
      c.NothingProvided([]);
      assert keys[..0] == [];
      for i := 0 to |keys|
        invariant Valid() && complete == seen.complete && c.FetchedReady(seen, fetched)
        invariant c.OnlyApplied(old(seen), seen)
        invariant seen.tier == PipelineSpec.ProviderTier
        invariant c.ProvidedAmong(complete, soFar, keys[..i])
        invariant AppliedSince(asked, fetched) && fetched == ready + c.ProvidedFor(keys[..i])
      {
        assert keys[..i + 1] == keys[..i] + [keys[i]];
        c.ProvidedAmongSnoc(soFar, complete, keys[..i], keys[i]);
        c.ProvidedForSnoc(keys[..i], keys[i]);
        CompleteInGroup(complete, soFar, keys[..i], keys[i]);
        ghost var before := seen;
        complete, fetched := ApplyKey(batch, record, keys[i], complete, fetched, asked);
        OnlyAppliedAgain(old(seen), before);
      }
      assert keys[..|keys|] == keys;
    }

    lemma CompleteInGroup(complete: set<Key>, soFar: set<Key>, keys: seq<Key>, key: Key)
      requires c.Lawful() && c.ProvidedAmong(complete, soFar, keys) && key !in soFar
      ensures c.Provided(key).Some? ==> (key in complete <==> key in keys)
    {
      hide Lookup.Provided, Lookup.Lawful;
    }

    lemma GroupMembers(keys: seq<Key>, id: ID)
      requires Valid() && keys == c.GroupOf(c.req.keyOrder, id)
      ensures c.Lawful()
      ensures forall k | k in keys ::
                k in c.req.keyOrder && c.Pending(k) && k in c.req.expectedId && c.req.expectedId[k] == id
    {
      c.GroupIs(c.req.keyOrder, id);
    }

    lemma AlreadyComplete(key: Key, batch: seq<ID>, record: R)
      requires Valid() && key in seen.complete && key in c.req.keyOrder && c.Pending(key)
      ensures c.Lawful() && c.Provided(key).Some?
    {
    }

    /** Applies the batch's record to one key of its group, unless the key is complete. */
    method ApplyKey(ghost batch: seq<ID>, record: R, key: Key, soFar: set<Key>, ready: seq<R>,
                    ghost asked: seq<Effect<ID, R>>)
      returns (complete: set<Key>, fetched: seq<R>)
      requires Valid() && seen.tier == PipelineSpec.ProviderTier && key in c.req.keyOrder && c.Pending(key)
      requires c.req.expectedId[key] in batch && AppliedSince(asked, ready)
      requires c.BatchIs(batch, c.req.expectedId[key]) && c.Answered(batch, c.req.expectedId[key]) == Some(record)
      requires soFar == seen.complete && c.FetchedReady(seen, ready)
      modifies this`trace, this`cancelled, this`seen, out
      ensures Valid() && c.FetchedReady(seen, fetched) && c.OnlyApplied(old(seen), seen)
      ensures complete == seen.complete == if c.Provided(key).Some? then soFar + {key} else soFar
      ensures AppliedSince(asked, fetched)
      ensures fetched == if c.Provided(key).Some? && key !in soFar then ready + [c.Provided(key).value] else ready
    {
      hide *;
      ValidIs();
      SameIsOnlyApplied();
      complete, fetched := soFar, ready;
      if key in complete {
        AlreadyComplete(key, batch, record);
        assert complete + {key} == complete;
        return;
      }
      c.ProvidedAllowed(seen, batch, key, record, cancelled);
      AppliedSinceIs(asked, ready);
      var keyed := c.p.withKey(record, key);
      ghost var before := seen;
      var ok := Apply(c.Indexes(key), keyed);
      if ok {
        complete := complete + {key};
        fetched := fetched + [keyed];
        OneMoreReady(before, ready, keyed);
        OneMoreApplied(before, asked, ready, keyed);
      }
    }

    lemma OneMoreReady(before: Seen<ID, R>, ready: seq<R>, keyed: R)
      requires c.FetchedReady(before, ready)
      requires seen.applied == before.applied + {keyed} && seen.fetched == before.fetched + {keyed}
      ensures c.FetchedReady(seen, ready + [keyed])
    {
    }

    lemma OneMoreApplied(before: Seen<ID, R>, asked: seq<Effect<ID, R>>, ready: seq<R>, keyed: R)
      requires before.effects == asked + c.AppliedEffects(ready)
      requires seen.effects == before.effects + [Applied(c.Indexes(c.p.keyOf(keyed)), keyed)]
      ensures AppliedSince(asked, ready + [keyed])
    {
      c.AppliedEffectsSnoc(asked, ready, keyed);
      hide Lookup.AppliedEffects, Lookup.Indexes;
    }

    /** Every identifier's group, as the batching built them. */
    ghost predicate Grouped(groups: map<ID, seq<Key>>)
      requires c.Lawful()
    {
      groups.Keys == c.PendingIds() && forall id | id in groups :: groups[id] == c.GroupOf(c.req.keyOrder, id)
    }

    /** No key still waiting for one of these identifiers is complete. */
    ghost predicate Waiting(complete: set<Key>, ids: seq<ID>)
    {
      forall k | k in complete && c.Pending(k) :: c.req.expectedId[k] !in ids
    }

    /** Deals with a batch's answer: applies what it holds, and collects the keys of identifiers
        it holds nothing for. */
    method ApplyBatch(batch: seq<ID>, records: map<ID, R>, groups: map<ID, seq<Key>>, soFar: set<Key>)
      returns (complete: set<Key>, fetched: seq<R>, misses: seq<Key>)
      requires Valid() && seen.tier == PipelineSpec.ProviderTier && c.w.fetch(batch) == Answer(records)
      requires Grouped(groups) && soFar == seen.complete && seen.applied == seen.published
      requires seen.batches != [] && seen.batches[|seen.batches| - 1] == batch && seen.fetched == {}
      requires forall id | id in batch :: c.BatchIs(batch, id) && id in groups
      requires NoDuplicates(batch) && Waiting(soFar, batch)
      modifies this`trace, this`cancelled, this`seen, out
      ensures Valid() && complete == seen.complete && c.FetchedReady(seen, fetched) && c.OnlyApplied(old(seen), seen)
      ensures c.ProvidedIn(complete, soFar, batch)
      ensures c.KnownMisses(seen.batches, misses)
      ensures AppliedSince(old(seen.effects), fetched)
      ensures fetched == c.FetchedFor(batch) && misses == c.MissedFor(batch, batch)
    {
      hide *;
      complete, fetched, misses := soFar, [], [];
      ValidIs();
      BatchStarts(batch, soFar);
      SameIsOnlyApplied();
      for j := 0 to |batch|
        invariant Valid() && complete == seen.complete && c.FetchedReady(seen, fetched)
        invariant c.OnlyApplied(old(seen), seen) && seen.batches == old(seen.batches)
        invariant seen.tier == PipelineSpec.ProviderTier
        invariant c.ProvidedIn(complete, soFar, batch[..j])
        invariant c.KnownMisses(seen.batches, misses)
        invariant AppliedSince(old(seen.effects), fetched)
        invariant fetched == c.FetchedFor(batch[..j]) && misses == c.MissedFor(batch, batch[..j])
      {
        assert batch[..j + 1] == batch[..j] + [batch[j]];
        assert batch[j] in batch;
        c.FetchedForSnoc(batch[..j], batch[j]);
        c.MissedForSnoc(batch, batch[..j], batch[j]);
        GroupWaits(batch, j, soFar, complete);
        ghost var before, beforeSeen := complete, seen;
        var missed;
        complete, fetched, missed := ApplyId(batch, batch[j], records, groups, complete, fetched, old(seen.effects));
        OnlyAppliedAgain(old(seen), beforeSeen);
        c.MoreMisses(seen.batches, misses, missed);
        misses := misses + missed;
        c.ProvidedSnoc(soFar, before, complete, batch[..j], batch[j]);
      }
      assert batch[..|batch|] == batch;
    }

    lemma BatchStarts(batch: seq<ID>, soFar: set<Key>)
      requires c.Lawful() && seen.applied == seen.published && seen.fetched == {}
      ensures c.ProvidedIn(soFar, soFar, batch[..0]) && c.FetchedReady(seen, []) && AppliedSince(seen.effects, [])
      ensures c.KnownMisses(seen.batches, [])
      ensures c.FetchedFor(batch[..0]) == [] && c.MissedFor(batch, batch[..0]) == []
    {
      hide Lookup.Provided, Lookup.KnownMiss;
    }

    /** When a batch comes to an identifier, none of the keys that wait for it is complete. */
    lemma GroupWaits(batch: seq<ID>, j: nat, soFar: set<Key>, complete: set<Key>)
      requires c.Lawful() && j < |batch| && NoDuplicates(batch) && Waiting(soFar, batch)
      requires c.ProvidedIn(complete, soFar, batch[..j])
      ensures forall k | k in c.GroupOf(c.req.keyOrder, batch[j]) :: k !in complete
    {
      c.GroupIs(c.req.keyOrder, batch[j]);
      hide Lookup.Provided, Lookup.Pending, Lookup.GroupOf;
      assert batch[j] !in batch[..j];
    }

    lemma SameIsOnlyApplied()
      ensures c.OnlyApplied(seen, seen)
    {
    }

    lemma OnlyAppliedAgain(first: Seen<ID, R>, second: Seen<ID, R>)
      requires c.OnlyApplied(first, second) && c.OnlyApplied(second, seen)
      ensures c.OnlyApplied(first, seen) && seen.tier == first.tier && second.batches == seen.batches == first.batches
    {
    }

    method ApplyId(batch: seq<ID>, id: ID, records: map<ID, R>, groups: map<ID, seq<Key>>, soFar: set<Key>,
                   ready: seq<R>,
                   ghost asked: seq<Effect<ID, R>>)
      returns (complete: set<Key>, fetched: seq<R>, missed: seq<Key>)
      requires Valid() && seen.tier == PipelineSpec.ProviderTier && c.w.fetch(batch) == Answer(records)
      requires Grouped(groups) && soFar == seen.complete && AppliedSince(asked, ready)
      requires seen.batches != [] && seen.batches[|seen.batches| - 1] == batch && c.FetchedReady(seen, ready)
      requires id in batch && c.BatchIs(batch, id) && id in groups
      requires forall k | k in c.GroupOf(c.req.keyOrder, id) :: k !in soFar
      modifies this`trace, this`cancelled, this`seen, out
      ensures Valid() && complete == seen.complete && c.FetchedReady(seen, fetched) && c.OnlyApplied(old(seen), seen)
      ensures c.ProvidedAmong(complete, soFar, c.GroupOf(c.req.keyOrder, id))
      ensures c.KnownMisses(old(seen).batches, missed)
      ensures AppliedSince(asked, fetched)
      ensures fetched == ready + c.ProvidedFor(c.GroupOf(c.req.keyOrder, id))
      ensures missed == if c.Answered(batch, id).None? then c.GroupOf(c.req.keyOrder, id) else []
    {
      hide *;
      complete, fetched, missed := soFar, ready, [];
      ValidIs();
      SameIsOnlyApplied();
      AnswerIs(batch, id, records);
      GroupIs(groups, id);
      if id !in records || !c.p.hasData(records[id]) {
        c.GroupMissed(batch, id, seen.batches, complete);
        c.NothingProvided(groups[id]);
        missed := groups[id];
      } else {
        NoMisses();
        complete, fetched := ApplyGroup(batch, id, records[id], groups[id], complete, fetched, asked);
      }
    }

    lemma AnswerIs(batch: seq<ID>, id: ID, records: map<ID, R>)
      requires c.w.fetch(batch) == Answer(records)
      ensures c.Answered(batch, id) == if id in records && c.p.hasData(records[id]) then Some(records[id]) else None
    {
    }

    lemma GroupIs(groups: map<ID, seq<Key>>, id: ID)
      requires c.Lawful() && Grouped(groups) && id in groups
      ensures groups[id] == c.GroupOf(c.req.keyOrder, id)
    {
    }

    lemma NoMisses()
      ensures c.KnownMisses(seen.batches, [])
    {
    }

    /** Publishes a batch's results, then saves its misses and its records: store first, cache
        after. */
    method Persist(fetched: seq<R>, misses: seq<Key>)
      requires Valid() && seen.tier == PipelineSpec.ProviderTier && c.FetchedReady(seen, fetched)
      requires fetched != [] || misses != [] ==> seen.batches != []
      requires c.KnownMisses(seen.batches, misses)
      modifies this`trace, this`cancelled, this`seen
      ensures Valid() && c.SameProgress(old(seen), seen) && seen.applied == seen.published
      ensures var all := old(seen.effects) + c.Announce(fetched != []) + c.MissSaves(misses) + c.RecordSaves(fetched);
              seen.effects <= all && (!cancelled ==> seen.effects == all)
    {
      hide Valid, Lookup.KnownMiss, Lookup.IsPromotion, Lookup.Writes;
      if |fetched| > 0 {
        Publish();
        if cancelled {
          return;
        }
      }
      if |misses| > 0 {
        var missesSaved := SaveMisses(misses, c.p.missTtl);
        if cancelled {
          return;
        }
      }
      if |fetched| == 0 {
        return;
      }
      SaveFetched(fetched);
    }

    method SaveFetched(fetched: seq<R>)
      requires Valid() && !cancelled && seen.tier == PipelineSpec.ProviderTier && fetched != []
      requires forall r | r in fetched :: r in seen.published && r in seen.fetched
      requires seen.applied == seen.published
      modifies this`trace, this`cancelled, this`seen
      ensures Valid() && c.SameProgress(old(seen), seen) && seen.applied == seen.published
      ensures var all := old(seen.effects) + c.RecordSaves(fetched);
              seen.effects <= all && (!cancelled ==> seen.effects == all)
    {
      hide Valid, Lookup.KnownMiss, Lookup.IsPromotion, Lookup.Writes;
      var stored := SaveStore(fetched);
      if cancelled {
        return;
      }
      var writes := c.Writes(fetched);
      WritesAre(fetched);
      var cached := SaveCache(writes);
    }

    lemma WritesAre(fetched: seq<R>)
      ensures |c.Writes(fetched)| == |fetched| && forall i | 0 <= i < |fetched| ::
                c.Writes(fetched)[i] == Write(fetched[i], c.p.ttl)
    {
    }

    /** The batches fetched since `base` were dealt with as planned, up to a cancellation. */
    ghost predicate OnPlan(base: seq<Effect<ID, R>>)
      requires c.Lawful()
      reads this
    {
      && seen.applied == seen.published && seen.effects <= base + c.BatchPlans(seen.batches)
      && (!cancelled ==> seen.effects == base + c.BatchPlans(seen.batches))
    }

    method OneBatch(ids: seq<ID>, start: nat, end: nat, groups: map<ID, seq<Key>>, soFar: set<Key>,
                    ghost base: seq<Effect<ID, R>>)
      returns (complete: set<Key>)
      requires Valid() && !cancelled && seen.tier == PipelineSpec.ProviderTier && ids == c.Ids() && start < |ids|
      requires end == if start + c.Limit() > |ids| then |ids| else start + c.Limit()
      requires Grouped(groups) && soFar == seen.complete && OnPlan(base)
      requires c.FetchedUpTo(seen.batches, start) && c.ProvidedUpTo(soFar, start)
      modifies this`trace, this`cancelled, this`seen, out
      ensures Valid() && seen.tier == PipelineSpec.ProviderTier && complete == seen.complete
      ensures seen.stale == old(seen.stale) && OnPlan(base)
      ensures c.FetchedUpTo(seen.batches, end) && c.ProvidedUpTo(complete, end)
    {
      hide *;
      complete := soFar;
      var batch := ids[start..end];
      ValidIs();
      OnPlanIs(base);
      NextFetch(batch, start, end, groups);
      BatchWaits(batch, start, end, soFar);
      c.BatchPlansSnoc(base, seen.batches, batch);
      c.BatchPlanParts(base + c.BatchPlans(seen.batches), batch);
      ghost var asked := c.Advance(seen, Fetch(batch));
      var reply := FetchBatch(batch);
      match reply
      case Failed =>
        c.FailedBatch(batch, complete);
        c.ProvidedNext(soFar, complete, start, end);
        OnPlanIs(base);
      case Answer(records) =>
        var fetched, misses;
        complete, fetched, misses := ApplyBatch(batch, records, groups, complete);
        c.ProvidedNext(soFar, complete, start, end);
        ghost var applied := seen;
        AppliedKeeps(asked);
        AppliedSinceIs(asked.effects, fetched);
        Persist(fetched, misses);
        SavedKeeps(applied);
        OnPlanIs(base);
    }

    lemma OnPlanIs(base: seq<Effect<ID, R>>)
      requires c.Lawful()
      ensures OnPlan(base) <==>
                && seen.applied == seen.published && seen.effects <= base + c.BatchPlans(seen.batches)
                && (!cancelled ==> seen.effects == base + c.BatchPlans(seen.batches))
    {
      hide Lookup.BatchPlans, Lookup.Lawful;
    }

    lemma AppliedSinceIs(asked: seq<Effect<ID, R>>, records: seq<R>)
      ensures AppliedSince(asked, records) <==> seen.effects == asked + c.AppliedEffects(records)
    {
      hide Lookup.AppliedEffects;
    }

    lemma NextFetch(batch: seq<ID>, start: nat, end: nat, groups: map<ID, seq<Key>>)
      requires Valid() && !cancelled && seen.tier == PipelineSpec.ProviderTier && start < |c.Ids()| && Grouped(groups)
      requires end == if start + c.Limit() > |c.Ids()| then |c.Ids()| else start + c.Limit()
      requires batch == c.Ids()[start..end] && c.FetchedUpTo(seen.batches, start) && seen.applied == seen.published
      ensures c.Lawful() && c.Allowed(seen, Step(Fetch(batch), cancelled)) && start <= end <= |c.Ids()|
      ensures forall id | id in batch :: c.BatchIs(batch, id) && id in groups
      ensures var next := c.Advance(seen, Fetch(batch));
              && next.tier == PipelineSpec.ProviderTier && next.complete == seen.complete && next.stale == seen.stale
              && next.fetched == {} && next.batches == seen.batches + [batch] && next.applied == next.published
              && next.effects == seen.effects + [Fetch(batch)]
              && c.FetchedUpTo(next.batches, end)
    {
      hide *;
      ValidIs();
      c.NextBatch(seen.batches, start);
      BatchIsGrouped(start, end, groups);
      FetchIs(batch);
    }

    lemma FetchIs(batch: seq<ID>)
      requires c.Lawful() && seen.tier == PipelineSpec.ProviderTier && seen.applied == seen.published
      ensures !cancelled && seen.batches + [batch] <= c.Batches() ==> c.Allowed(seen, Step(Fetch(batch), cancelled))
      ensures var next := c.Advance(seen, Fetch(batch));
              && next.tier == seen.tier && next.complete == seen.complete && next.stale == seen.stale
              && next.fetched == {} && next.batches == seen.batches + [batch]
              && next.applied == seen.applied && next.published == seen.published
              && next.effects == seen.effects + [Fetch(batch)]
    {
      hide Lookup.Batches, Lookup.Lawful;
    }

    /** A slice's identifiers are distinct, and nobody provided for so far waits for one. */
    lemma BatchWaits(batch: seq<ID>, start: nat, end: nat, complete: set<Key>)
      requires c.Lawful() && start <= end <= |c.Ids()| && batch == c.Ids()[start..end]
      requires c.ProvidedUpTo(complete, start)
      ensures NoDuplicates(batch) && Waiting(complete, batch)
    {
      c.IdsAre();
      c.SortingHasNoDuplicates(c.Ids(), c.PendingIds());
      hide Lookup.Ids, Lookup.Provided, Lookup.Lawful, IsSorting;
      var ids := c.Ids();
      assert forall i | 0 <= i < |batch| :: batch[i] == ids[start + i];
      forall k | k in complete && c.Pending(k)
        ensures c.req.expectedId[k] !in batch
      {
        assert c.req.expectedId[k] in ids[..start];
      }
    }

    lemma AppliedKeeps(before: Seen<ID, R>)
      requires c.OnlyApplied(before, seen)
      ensures seen.tier == before.tier && seen.batches == before.batches && seen.stale == before.stale
    {
    }

    lemma SavedKeeps(before: Seen<ID, R>)
      requires c.SameProgress(before, seen)
      ensures seen.tier == before.tier && seen.batches == before.batches && seen.stale == before.stale
      ensures seen.complete == before.complete
    {
    }

    lemma BatchIsGrouped(start: nat, end: nat, groups: map<ID, seq<Key>>)
      requires c.Lawful() && Grouped(groups) && start <= end <= |c.Ids()|
      ensures forall id | id in c.Ids()[start..end] :: id in groups
    {
      c.IdsAre();
    }

    /** Tier 3: asks the provider, batch by batch, for what no tier served. */
    method FetchMissing(fromTiers: set<Key>) returns (complete: set<Key>)
      requires Valid() && c.LocalTiersDone(seen) && fromTiers == seen.complete
      modifies this`trace, this`cancelled, this`seen, out
      requires !cancelled && seen.applied == seen.published && seen.effects == c.LocalPlan()
      ensures Valid() && complete == seen.complete && seen.stale == old(seen.stale)
      ensures seen.tier == PipelineSpec.ProviderTier && old(seen.complete) <= seen.complete
      ensures !cancelled ==> c.FetchedUpTo(seen.batches, |c.Ids()|) && c.ProvidedUpTo(complete, |c.Ids()|)
      ensures c.Lawful() && OnPlan(c.ProviderStart()) && seen.batches <= c.Batches()
    {
      hide *;
      complete := fromTiers;
      ValidIs();
      var remaining := IncompleteKeys(complete);
      var missed := StartProviderTier(remaining);
      var groups := BuildGroups(complete, missed);
      if |groups| == 0 {
        NoGroups(groups);
        BatchesStart();
        return;
      }
      var ids := SortedIds(groups);
      var limit := if c.p.batchLimit < 1 then 1 else c.p.batchLimit;
      LimitIs();
      GroupedIs(groups);
      complete := FetchAll(ids, limit, groups, complete);
    }

    lemma LimitIs()
      ensures c.Limit() == if c.p.batchLimit < 1 then 1 else c.p.batchLimit
    {
    }

    lemma GroupedIs(groups: map<ID, seq<Key>>)
      requires c.Lawful() && groups.Keys == c.PendingIds()
      requires forall id | id in groups :: groups[id] == c.GroupOf(c.req.keyOrder, id)
      ensures Grouped(groups)
    {
    }

    lemma BatchesStart()
      requires c.Lawful() && c.FetchedUpTo(seen.batches, 0)
      ensures seen.batches <= c.Batches()
    {
      hide Lookup.Ids, Lookup.Batches;
    }

    method StartProviderTier(remaining: seq<Key>) returns (missed: set<Key>)
      requires Valid() && !cancelled && c.LocalTiersDone(seen)
      requires remaining == c.Incomplete(c.req.keyOrder, seen.complete)
      requires seen.applied == seen.published && seen.effects == c.LocalPlan()
      modifies this`trace, this`cancelled, this`seen
      ensures Valid() && seen.tier == PipelineSpec.ProviderTier && c.Lawful() && OnPlan(c.ProviderStart())
      ensures seen.complete == old(seen.complete) == c.LocallyServed(c.req.keyOrder) && seen.stale == old(seen.stale)
      ensures c.FetchedUpTo(seen.batches, 0) && c.ProvidedUpTo(seen.complete, 0)
      ensures forall key :: key in missed <==> c.Suppressed(key)
    {
      hide *;
      ValidIs();
      c.ProviderTierStarts(seen);
      LocallyServedIs();
      MissLoadIs(remaining);
      ghost var before := seen;
      missed := LoadMisses(remaining);
      ProviderStartIs();
      c.BatchPlansSnoc(c.ProviderStart(), [], []);
      OnPlanIs(c.ProviderStart());
    }

    lemma MissLoadIs(remaining: seq<Key>)
      requires c.Lawful() && c.LocalTiersDone(seen) && seen.applied == seen.published
      requires remaining == c.Incomplete(c.req.keyOrder, seen.complete)
      ensures !cancelled ==> c.Allowed(seen, Step(MissLoad(remaining), cancelled))
      ensures var next := c.Advance(seen, MissLoad(remaining));
              && next.tier == PipelineSpec.ProviderTier && next.complete == seen.complete && next.stale == seen.stale
              && next.batches == seen.batches == [] && next.applied == seen.applied && next.published == seen.published
              && next.effects == seen.effects + [MissLoad(remaining)]
    {
      hide Lookup.Lawful, Lookup.Incomplete;
    }

    lemma ProviderStartIs()
      ensures c.ProviderStart()
              == c.LocalPlan() + [MissLoad(c.Incomplete(c.req.keyOrder, c.LocallyServed(c.req.keyOrder)))]
    {
      hide Lookup.LocalPlan, Lookup.Incomplete, Lookup.LocallyServed;
    }

    method FetchAll(ids: seq<ID>, limit: nat, groups: map<ID, seq<Key>>, fromTiers: set<Key>)
      returns (complete: set<Key>)
      requires Valid() && seen.tier == PipelineSpec.ProviderTier && fromTiers == seen.complete
      requires c.Lawful() && ids == c.Ids() && limit == c.Limit() && Grouped(groups)
      requires c.FetchedUpTo(seen.batches, 0) && c.ProvidedUpTo(fromTiers, 0) && OnPlan(c.ProviderStart())
      requires fromTiers == c.LocallyServed(c.req.keyOrder)
      modifies this`trace, this`cancelled, this`seen, out
      ensures Valid() && complete == seen.complete && seen.stale == old(seen.stale)
      ensures seen.tier == PipelineSpec.ProviderTier && fromTiers <= complete
      ensures !cancelled ==> c.FetchedUpTo(seen.batches, |c.Ids()|) && c.ProvidedUpTo(complete, |c.Ids()|)
      ensures OnPlan(c.ProviderStart()) && seen.batches <= c.Batches()
    {
      hide *;
      complete := fromTiers;
      var start := 0;
      while start < |ids|
        invariant Valid() && seen.tier == PipelineSpec.ProviderTier && complete == seen.complete
        invariant seen.stale == old(seen.stale) && OnPlan(c.ProviderStart())
        invariant 0 <= start
        invariant var done := if start > |ids| then |ids| else start;
                  c.FetchedUpTo(seen.batches, done) && c.ProvidedUpTo(complete, done)
        decreases |ids| - start
      {
        FetchedPart(start, complete);
        if cancelled {
          return;
        }
        var end := start + limit;
        if end > |ids| {
          end := |ids|;
        }
        complete := OneBatch(ids, start, end, groups, complete, c.ProviderStart());
        start := start + limit;
      }
      FetchedPart(|ids|, complete);
    }

    lemma FetchedPart(start: nat, complete: set<Key>)
      requires c.Lawful() && start <= |c.Ids()| && c.FetchedUpTo(seen.batches, start) && c.ProvidedUpTo(complete, start)
      ensures seen.batches <= c.Batches() && c.LocallyServed(c.req.keyOrder) <= complete
    {
      hide Lookup.Ids, Lookup.Batches, Lookup.Provided, Lookup.Local, Lookup.Pending, Lookup.Lawful;
    }

    lemma NoGroups(groups: map<ID, seq<Key>>)
      requires c.Lawful() && groups.Keys == c.PendingIds() && |groups| == 0
      ensures c.Ids() == []
    {
      c.IdsAre();
      assert groups == map[];
      SortingUnique(c.p.less, c.Ids(), [], {});
    }

    /** The whole cascade.  Whatever fails or is cancelled, every completed key got exactly what
        a lookup of that key alone would give it, every key left incomplete has the stale record
        of exactly the tiers looked at, everything applied is published, and the effects follow
        the plan as far as they go.  Without cancellation, every key that has an outcome is
        completed, the batches are the slices of the sorted distinct identifiers no tier
        resolved, each fetched once, and the effects are the whole plan. */
    method Run() returns (complete: set<Key>)
      requires Valid() && trace == []
      modifies this`trace, this`cancelled, this`seen, this`stale, out
      ensures Valid() && complete == seen.complete && c.Lawful()
      ensures forall key | key in complete :: key in c.req.keyOrder && c.Outcome(key).Some?
      ensures !cancelled ==> forall key | key in c.req.keyOrder && c.Outcome(key).Some? :: key in complete
      ensures !cancelled ==> seen.batches == c.Batches()
      ensures NoDuplicates(c.req.keyOrder) ==>
                forall key | key !in complete :: c.Noted(seen, key) == c.StaleIn(c.TiersSeen(seen), c.req.keyOrder, key)
      ensures !cancelled ==> c.TiersSeen(seen) == 2
      ensures seen.applied == seen.published && seen.effects <= c.Plan() && (!cancelled ==> seen.effects == c.Plan())
    {
      if |c.req.keyOrder| == 0 {
        complete := {};
        EmptyRequest();
        return;
      }
      hide *;
      ValidIs();
      complete := CacheTier();
      CachePlanFits();
      CacheScanStale();
      if !cancelled {
        complete := StoreTier(complete);
        LocalPlanFits();
        LocalTiersStale();
        if !cancelled {
          ghost var local := seen;
          complete := FetchMissing(complete);
          ProviderPlanFits();
          StaleKept(local);
          if !cancelled {
            c.RunComplete(local, seen);
          }
        }
      }
      CompleteIsSound();
      StaleIsExactIs();
    }

    lemma StaleIsExactIs()
      requires StaleIsExact()
      ensures NoDuplicates(c.req.keyOrder) ==>
                forall key | key !in seen.complete ::
                    c.Noted(seen, key) == c.StaleIn(c.TiersSeen(seen), c.req.keyOrder, key)
    {
      hide Lookup.Noted, Lookup.StaleIn;
    }

    lemma CachePlanFits()
      requires c.Lawful() && c.req.keyOrder != [] && seen.effects == c.CachePlan()
      ensures seen.effects <= c.Plan()
    {
      hide Lookup.CachePlan, Lookup.StoreEffects, Lookup.Announce, Lookup.PromotionSaves, Lookup.Promotions,
           Lookup.BatchPlans,
           Lookup.Batches, Lookup.CacheServes, Lookup.LocallyServed, Lookup.LeftToStore, Lookup.Lawful,
           Lookup.Incomplete;
    }

    lemma LocalPlanFits()
      requires c.Lawful() && c.req.keyOrder != [] && seen.effects <= c.LocalPlan()
      ensures seen.effects <= c.Plan()
    {
      hide Lookup.LocalPlan, Lookup.BatchPlans, Lookup.Batches, Lookup.Lawful, Lookup.Incomplete, Lookup.LocallyServed;
    }

    lemma ProviderPlanFits()
      requires c.Lawful() && c.req.keyOrder != [] && OnPlan(c.ProviderStart()) && seen.batches <= c.Batches()
      ensures seen.applied == seen.published && seen.effects <= c.Plan()
      ensures !cancelled && seen.batches == c.Batches() ==> seen.effects == c.Plan()
    {
      c.BatchPlansGrow(seen.batches, c.Batches());
      hide Lookup.ProviderStart, Lookup.BatchPlans, Lookup.Batches, Lookup.Lawful;
    }

    /** The stale record of every incomplete key is that of exactly the tiers looked at. */
    ghost predicate StaleIsExact()
      reads this
    {
      NoDuplicates(c.req.keyOrder) ==>
        forall key | key !in seen.complete :: c.Noted(seen, key) == c.StaleIn(c.TiersSeen(seen), c.req.keyOrder, key)
    }

    lemma CacheScanStale()
      requires c.CacheScanned(seen, |c.req.keyOrder|)
      ensures StaleIsExact()
    {
      assert c.req.keyOrder[..|c.req.keyOrder|] == c.req.keyOrder;
    }

    lemma LocalTiersStale()
      requires c.LocalTiersDone(seen)
      ensures StaleIsExact()
    {
    }

    lemma StaleKept(local: Seen<ID, R>)
      requires c.LocalTiersDone(local) && seen.stale == local.stale && local.complete <= seen.complete
      requires seen.tier == PipelineSpec.ProviderTier
      ensures StaleIsExact()
    {
    }

    lemma CompleteIsSound()
      requires Valid()
      ensures forall key | key in seen.complete :: key in c.req.keyOrder && c.Outcome(key).Some?
    {
    }

    lemma EmptyRequest()
      requires Valid() && trace == [] && c.req.keyOrder == []
      ensures seen == c.Start() && c.Lawful() && c.Batches() == []
      ensures forall key :: c.Noted(seen, key) == None
    {
      c.IdsAre();
      assert c.PendingIds() == {};
      SortingUnique(c.p.less, c.Ids(), [], {});
    }
  }
}
