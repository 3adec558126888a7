/** The reference for the market lookup cascade: what one key gets when it is looked up alone,
    and a monitor that says which effects a run may perform, and when. */
module PipelineSpec {
  import opened Decimal
  import opened MarketKey
  import opened Sorting

  /** What a provider call comes back with. */
  datatype Reply<+T> = Answer(value: T) | Failed

  datatype Write<+R> = Write(record: R, ttl: int)

  /** Everything pure that varies between providers; `less` is the order of its identifiers,
      `newer` picks between a stale record already noted and another. */
  datatype Provider<!ID(==,!new), !R(==,!new)> = Provider(
    matches: (R, ID) -> bool,
    fetchedAt: R -> int,
    keyOf: R -> Key,
    withKey: (R, Key) -> R,
    usable: R -> bool,
    hasData: R -> bool,
    newer: (Option<R>, R) -> R,
    less: (ID, ID) -> bool,
    noId: ID,
    batchLimit: int,
    ttl: int,
    missTtl: int,
    now: int)

  /** The environment of one run: what each load answers, what the provider answers for each
      batch, which effects are followed by a failed save or a raised cancellation. */
  datatype World<!ID(==,!new), !R(==,!new)> = World(
    cache: Reply<map<Key, R>>,
    store: Reply<map<Key, R>>,
    misses: Reply<set<Key>>,
    fetch: seq<ID> -> Reply<map<ID, R>>,
    saves: nat -> bool,
    raises: nat -> bool,
    cancelledAtStart: bool)

  datatype Request<ID> = Request(keyOrder: seq<Key>, expectedId: map<Key, ID>, indexesByKey: map<Key, seq<nat>>)

  datatype Effect<ID, R> =
    | CacheLoad(keys: seq<Key>)
    | StoreLoad(keys: seq<Key>)
    | MissLoad(keys: seq<Key>)
    | Fetch(ids: seq<ID>)
    | Applied(indexes: seq<nat>, record: R)
    | Stale(key: Key, expired: R)
    | Progress
    | CacheSave(writes: seq<Write<R>>)
    | StoreSave(records: seq<R>)
    | MissSave(missed: seq<Key>, missTtl: int)

  /** An effect, and whether the run was already cancelled when it started. */
  datatype Step<ID, R> = Step(effect: Effect<ID, R>, late: bool)

  datatype Tier = Idle | CacheTier | StoreTier | ProviderTier

  /** What a run has done so far. */
  datatype Seen<ID(==), R(==)> = Seen(
    tier: Tier,
    complete: set<Key>,
    applied: set<R>,
    published: set<R>,
    batches: seq<seq<ID>>,
    fetched: set<R>,
    saving: Option<seq<R>>,
    stale: map<Key, R>,
    effects: seq<Effect<ID, R>>)

  function Records<R>(writes: seq<Write<R>>): (rs: seq<R>)
    ensures |rs| == |writes|
  {
    seq(|writes|, i requires 0 <= i < |writes| => writes[i].record)
  }

  /** The first batch that holds an identifier. */
  function BatchOf<ID(==)>(batches: seq<seq<ID>>, id: ID): Option<seq<ID>> {
    if batches == [] then None
    else if id in batches[0] then Some(batches[0])
    else BatchOf(batches[1..], id)
  }

  lemma {:induction false} BatchOfIsOne<ID>(batches: seq<seq<ID>>, id: ID)
    ensures BatchOf(batches, id).Some? ==> BatchOf(batches, id).value in batches && id in BatchOf(batches, id).value
  {
    if batches != [] && id !in batches[0] {
      BatchOfIsOne(batches[1..], id);
    }
  }

  lemma NextChunk<T>(ids: seq<T>, start: nat, limit: nat)
    requires start < |ids| && limit >= 1
    ensures var end := if start + limit > |ids| then |ids| else start + limit;
            Chunks(ids[start..], limit) == [ids[start..end]] + Chunks(ids[end..], limit)
  {
    if start + limit < |ids| {
      assert ids[start..][..limit] == ids[start..start + limit] && ids[start..][limit..] == ids[start + limit..];
    } else {
      assert ids[start..] == ids[start..|ids|] && ids[|ids|..] == [];
    }
  }

  /** The next slice of a sequence without duplicates, among the slices of the whole. */
  lemma SliceIsNext<T>(ids: seq<T>, before: seq<seq<T>>, start: nat, limit: nat, all: seq<seq<T>>)
    requires start < |ids| && limit >= 1 && before + Chunks(ids[start..], limit) == all && NoDuplicates(ids)
    requires forall i | 0 <= i < |before| :: forall id | id in before[i] :: id in ids[..start]
    ensures var end := if start + limit > |ids| then |ids| else start + limit;
            var batch := ids[start..end];
            && all == before + [batch] + Chunks(ids[end..], limit)
            && (forall i | 0 <= i < |before + [batch]| :: forall id | id in (before + [batch])[i] :: id in ids[..end])
            && (forall id | id in batch :: forall i | 0 <= i < |before| :: id !in before[i])
  {
    NextChunk(ids, start, limit);
    hide *;
    var end := if start + limit > |ids| then |ids| else start + limit;
    var batch := ids[start..end];
    assert before + ([batch] + Chunks(ids[end..], limit)) == before + [batch] + Chunks(ids[end..], limit);
    SplitAt(ids, start, end);
    forall id | id in batch
      ensures forall i | 0 <= i < |before| :: id !in before[i]
    {
    }
    forall i | 0 <= i < |before + [batch]|
      ensures forall id | id in (before + [batch])[i] :: id in ids[..end]
    {
      assert (before + [batch])[i] == if i < |before| then before[i] else batch;
    }
  }

  lemma SplitAt<T>(ids: seq<T>, start: nat, end: nat)
    requires start <= end <= |ids| && NoDuplicates(ids)
    ensures forall id | id in ids[start..end] :: id !in ids[..start] && id in ids[..end]
    ensures forall id | id in ids[..start] :: id in ids[..end]
  {
    assert ids[..end] == ids[..start] + ids[start..end];
    forall id | id in ids[start..end]
      ensures id !in ids[..start]
    {
      var j :| 0 <= j < end - start && ids[start..end][j] == id;
      assert ids[start + j] == id;
    }
  }

  ghost predicate NoDuplicates<T>(s: seq<T>) {
    forall i, j | 0 <= i < j < |s| :: s[i] != s[j]
  }

  datatype Lookup<!ID(==,!new), !R(==,!new)> = Lookup(p: Provider<ID, R>, w: World<ID, R>, req: Request<ID>) {

    /** The order is total, and a record stamped with a key carries that key. */
    ghost predicate Lawful() {
      TotalOrder(p.less) && forall r, k :: p.keyOf(p.withKey(r, k)) == k
    }

    /* ----- one key at a time ----- */

    function Expected(key: Key): ID {
      if key in req.expectedId then req.expectedId[key] else p.noId
    }

    function Indexes(key: Key): seq<nat> {
      if key in req.indexesByKey then req.indexesByKey[key] else []
    }

    /** A load's records; a failed load acts as an empty tier. */
    function Loaded(reply: Reply<map<Key, R>>): map<Key, R> {
      match reply
      case Answer(records) => records
      case Failed => map[]
    }

    /** The record a tier holds for a key and its expected identifier, stamped with the key. */
    function Matching(records: map<Key, R>, key: Key): Option<R> {
      if key in records && p.matches(records[key], Expected(key)) then Some(p.withKey(records[key], key)) else None
    }

    function Cached(key: Key): Option<R> {
      Matching(Loaded(w.cache), key)
    }

    function Stored(key: Key): Option<R> {
      Matching(Loaded(w.store), key)
    }

    predicate IsFresh(r: R) {
      Fresh(p.fetchedAt(r), p.now, p.ttl)
    }

    /** A tier's record counts when it is fresh and usable. */
    function Served(found: Option<R>): Option<R> {
      if found.Some? && IsFresh(found.value) && p.usable(found.value) then found else None
    }

    /** The cache's record if it counts, else the store's. */
    function Local(key: Key): Option<R> {
      if Served(Cached(key)).Some? then Served(Cached(key)) else Served(Stored(key))
    }

    predicate Suppressed(key: Key) {
      w.misses.Answer? && key in w.misses.value
    }

    /** No tier serves the key, it has no live miss, and it has an identifier to ask for. */
    predicate Pending(key: Key)
      ensures Pending(key) ==> key in req.expectedId
    {
      Local(key).None? && !Suppressed(key) && key in req.expectedId
    }

    ghost function PendingIdsOf(keys: seq<Key>): set<ID> {
      set key | key in keys && Pending(key) :: req.expectedId[key]
    }

    ghost function PendingIds(): set<ID> {
      PendingIdsOf(req.keyOrder)
    }

    /** The distinct identifiers no tier resolved, in order. */
    ghost function Ids(): seq<ID>
      requires Lawful()
    {
      SortingExists(p.less, PendingIds());
      var ids :| IsSorting(p.less, ids, PendingIds());
      ids
    }

    function Limit(): (n: nat)
      ensures n >= 1
    {
      if p.batchLimit < 1 then 1 else p.batchLimit
    }

    ghost function Batches(): seq<seq<ID>>
      requires Lawful()
    {
      Chunks(Ids(), Limit())
    }

    /** What a successful answer to a batch holds for an identifier: data, or nothing. */
    function Answered(batch: seq<ID>, id: ID): Option<R> {
      match w.fetch(batch)
      case Failed => None
      case Answer(records) => if id in records && p.hasData(records[id]) then Some(records[id]) else None
    }

    /** The record the provider tier yields for a key. */
    ghost function Provided(key: Key): Option<R>
      requires Lawful()
    {
      if !Pending(key) || BatchOf(Batches(), req.expectedId[key]).None? then None
      else match Answered(BatchOf(Batches(), req.expectedId[key]).value, req.expectedId[key])
        case None => None
        case Some(r) => if p.usable(p.withKey(r, key)) then Some(p.withKey(r, key)) else None
    }

    /** What a key gets: the cache's fresh usable record, else the store's, else the fetched
        record of its identifier if the key is unsuppressed and its batch succeeded. */
    ghost function Outcome(key: Key): Option<R>
      requires Lawful()
    {
      if Local(key).Some? then Local(key) else Provided(key)
    }

    function Expired(found: Option<R>): Option<R> {
      if found.Some? && !IsFresh(found.value) then found else None
    }

    function NoteStale(noted: Option<R>, found: Option<R>): Option<R> {
      if Expired(found).Some? then Some(p.newer(noted, found.value)) else noted
    }

    /** The stale record both tiers together leave for a key. */
    function StaleOf(key: Key): Option<R> {
      NoteStale(NoteStale(None, Cached(key)), Stored(key))
    }

    function Incomplete(keys: seq<Key>, complete: set<Key>): seq<Key> {
      if keys == [] then [] else
        var front, last := Incomplete(keys[..|keys| - 1], complete), keys[|keys| - 1];
        if last in complete then front else front + [last]
    }

    /* ----- the effects of an uncancelled run ----- */

    /** The keys whose cache record counts. */
    ghost function CacheServes(keys: seq<Key>): set<Key> {
      set key | key in keys && Served(Cached(key)).Some?
    }

    /** The keys some tier serves. */
    ghost function LocallyServed(keys: seq<Key>): set<Key> {
      set key | key in keys && Local(key).Some?
    }

    /** What a tier's record of one key leads to: an expired one is noted, one that counts applied. */
    function KeyEffects(key: Key, found: Option<R>): seq<Effect<ID, R>> {
      if Expired(found).Some? then [Stale(key, found.value)]
      else if Served(found).Some? then [Applied(Indexes(key), found.value)]
      else []
    }

    function CacheEffects(keys: seq<Key>): seq<Effect<ID, R>> {
      if keys == [] then [CacheLoad(req.keyOrder)]
      else CacheEffects(keys[..|keys| - 1]) + KeyEffects(keys[|keys| - 1], Cached(keys[|keys| - 1]))
    }

    function StoreEffects(keys: seq<Key>, load: seq<Key>): seq<Effect<ID, R>> {
      if keys == [] then [StoreLoad(load)]
      else StoreEffects(keys[..|keys| - 1], load) + KeyEffects(keys[|keys| - 1], Stored(keys[|keys| - 1]))
    }

    function Announce(progressed: bool): seq<Effect<ID, R>> {
      if progressed then [Progress] else []
    }

    /** The store records that count, each with the lifetime it has left. */
    function Promotions(keys: seq<Key>): seq<Write<R>> {
      if keys == [] then [] else
        var front, found := Promotions(keys[..|keys| - 1]), Served(Stored(keys[|keys| - 1]));
        if found.None? then front
        else front + [Write(found.value, RemainingTTL(p.fetchedAt(found.value), p.now, p.ttl))]
    }

    function PromotionSaves(writes: seq<Write<R>>): seq<Effect<ID, R>> {
      if writes == [] then [] else [CacheSave(writes)]
    }

    /** The keys the cache leaves to the store. */
    ghost function LeftToStore(): seq<Key> {
      Incomplete(req.keyOrder, CacheServes(req.keyOrder))
    }

    ghost function CachePlan(): seq<Effect<ID, R>> {
      CacheEffects(req.keyOrder) + Announce(CacheServes(req.keyOrder) != {})
    }

    /** Both local tiers: load, scan and publish each, and promote what the store served. */
    ghost function LocalPlan(): seq<Effect<ID, R>> {
      if LeftToStore() == [] then CachePlan() else
        CachePlan() + StoreEffects(LeftToStore(), LeftToStore())
        + Announce(LocallyServed(req.keyOrder) != CacheServes(req.keyOrder))
        + PromotionSaves(Promotions(LeftToStore()))
    }

    /** The records the provider yields for a group of keys, each key once. */
    ghost function ProvidedFor(keys: seq<Key>): seq<R>
      requires Lawful()
    {
      if keys == [] then [] else
        var front, last := ProvidedFor(keys[..|keys| - 1]), keys[|keys| - 1];
        if Provided(last).Some? && last !in keys[..|keys| - 1] then front + [Provided(last).value] else front
    }

    /** The records the provider yields for identifiers, in their order. */
    ghost function FetchedFor(ids: seq<ID>): seq<R>
      requires Lawful()
    {
      if ids == [] then [] else
        FetchedFor(ids[..|ids| - 1]) + ProvidedFor(GroupOf(req.keyOrder, ids[|ids| - 1]))
    }

    /** The keys of those identifiers a batch's answer holds nothing for. */
    function MissedFor(batch: seq<ID>, ids: seq<ID>): seq<Key> {
      if ids == [] then [] else
        var front, last := MissedFor(batch, ids[..|ids| - 1]), ids[|ids| - 1];
        if Answered(batch, last).None? then front + GroupOf(req.keyOrder, last) else front
    }

    function AppliedEffects(records: seq<R>): seq<Effect<ID, R>> {
      seq(|records|, i requires 0 <= i < |records| => Applied(Indexes(p.keyOf(records[i])), records[i]))
    }

    function Writes(records: seq<R>): (writes: seq<Write<R>>)
      ensures Records(writes) == records
    {
      seq(|records|, i requires 0 <= i < |records| => Write(records[i], p.ttl))
    }

    function MissSaves(missed: seq<Key>): seq<Effect<ID, R>> {
      if missed == [] then [] else [MissSave(missed, p.missTtl)]
    }

    function RecordSaves(records: seq<R>): seq<Effect<ID, R>> {
      if records == [] then [] else [StoreSave(records), CacheSave(Writes(records))]
    }

    /** One batch: the fetch, and for an answer its records applied and published, its misses
        saved, its records saved in the store and then in the cache. */
    ghost function BatchPlan(batch: seq<ID>): seq<Effect<ID, R>>
      requires Lawful()
    {
      if w.fetch(batch).Failed? then [Fetch(batch)] else
        [Fetch(batch)] + AppliedEffects(FetchedFor(batch)) + Announce(FetchedFor(batch) != [])
        + MissSaves(MissedFor(batch, batch)) + RecordSaves(FetchedFor(batch))
    }

    ghost function BatchPlans(batches: seq<seq<ID>>): seq<Effect<ID, R>>
      requires Lawful()
    {
      if batches == [] then [] else BatchPlans(batches[..|batches| - 1]) + BatchPlan(batches[|batches| - 1])
    }

    ghost function ProviderStart(): seq<Effect<ID, R>> {
      LocalPlan() + [MissLoad(Incomplete(req.keyOrder, LocallyServed(req.keyOrder)))]
    }

    /** Every effect of an uncancelled run, in order. */
    ghost function Plan(): seq<Effect<ID, R>>
      requires Lawful()
    {
      if req.keyOrder == [] then [] else ProviderStart() + BatchPlans(Batches())
    }

    /** The keys still to ask for that share an identifier, in request order. */
    function GroupOf(keys: seq<Key>, id: ID): seq<Key> {
      if keys == [] then [] else
        var front, last := GroupOf(keys[..|keys| - 1], id), keys[|keys| - 1];
        if Pending(last) && req.expectedId[last] == id then front + [last] else front
    }

    /* ----- the monitor ----- */

    function Start(): Seen<ID, R> {
      Seen(Idle, {}, {}, {}, [], {}, None, map[], [])
    }

    function Advance(seen: Seen<ID, R>, effect: Effect<ID, R>): Seen<ID, R> {
      var next := seen.(saving := None, effects := seen.effects + [effect]);
      match effect
      case CacheLoad(_) => next.(tier := CacheTier)
      case StoreLoad(_) => next.(tier := StoreTier)
      case MissLoad(_) => next.(tier := ProviderTier)
      case Fetch(ids) => next.(batches := seen.batches + [ids], fetched := {})
      case Applied(_, r) =>
        next.(complete := seen.complete + {p.keyOf(r)}, applied := seen.applied + {r}, fetched := seen.fetched + {r})
      case Stale(key, r) =>
        next.(stale := seen.stale[key := p.newer(if key in seen.stale then Some(seen.stale[key]) else None, r)])
      case Progress => next.(published := seen.applied)
      case CacheSave(_) => next
      case StoreSave(records) => next.(saving := Some(records))
      case MissSave(_, _) => next
    }

    /** The provider answered the latest batch, and held nothing for this key's identifier. */
    ghost predicate KnownMiss(batches: seq<seq<ID>>, key: Key) {
      && key in req.keyOrder && Pending(key) && batches != []
      && var batch := batches[|batches| - 1];
         req.expectedId[key] in batch && w.fetch(batch).Answer? && Answered(batch, req.expectedId[key]).None?
    }

    /** The calls that leave the run: everything but writing output, noting and publishing. */
    predicate IsCall(effect: Effect<ID, R>) {
      !effect.Applied? && !effect.Stale? && !effect.Progress?
    }

    /** When a run may perform an effect.  Everything applied is published before any call.  Once
        cancelled, a run starts no load beyond the first, no fetch and no save of records. */
    ghost predicate Allowed(seen: Seen<ID, R>, step: Step<ID, R>)
      requires Lawful()
    {
      (IsCall(step.effect) ==> seen.applied == seen.published) &&
      match step.effect
      case CacheLoad(keys) =>
        seen == Start() && keys == req.keyOrder
      case StoreLoad(keys) =>
        !step.late && seen.tier == CacheTier && keys != [] && keys == Incomplete(req.keyOrder, seen.complete)
      case MissLoad(keys) =>
        !step.late && (seen.tier == CacheTier || seen.tier == StoreTier) &&
            keys == Incomplete(req.keyOrder, seen.complete)
      case Fetch(ids) =>
        !step.late && seen.tier == ProviderTier && seen.batches + [ids] <= Batches()
      case Applied(indexes, r) =>
        && p.keyOf(r) in req.keyOrder && indexes == Indexes(p.keyOf(r)) && Outcome(p.keyOf(r)) == Some(r)
        && (NoDuplicates(req.keyOrder) ==> p.keyOf(r) !in seen.complete)
        && (match seen.tier
            case Idle => false
            case CacheTier => Cached(p.keyOf(r)) == Some(r)
            case StoreTier => Stored(p.keyOf(r)) == Some(r)
            case ProviderTier => Provided(p.keyOf(r)) == Some(r))
      case Stale(key, r) =>
        && key in req.keyOrder && !IsFresh(r)
        && ((seen.tier == CacheTier && Cached(key) == Some(r)) || (seen.tier == StoreTier && Stored(key) == Some(r)))
      case Progress => seen.tier != Idle
      case StoreSave(records) =>
        && !step.late && seen.tier == ProviderTier && records != []
        && forall r | r in records :: r in seen.published && r in seen.fetched
      case CacheSave(writes) =>
        && !step.late && writes != []
        && (forall r | r in Records(writes) :: r in seen.published)
        && (if seen.tier == StoreTier then forall i | 0 <= i < |writes| :: IsPromotion(writes[i])
            else seen.tier == ProviderTier && seen.saving == Some(Records(writes)) &&
                 forall i | 0 <= i < |writes| :: writes[i].ttl == p.ttl)
      case MissSave(missed, ttl) =>
        && (step.late ==> seen.fetched == {}) && seen.tier == ProviderTier && missed != [] && ttl == p.missTtl
        && forall k | k in missed :: KnownMiss(seen.batches, k)
    }

    /** A record the store served, kept for exactly the lifetime it has left. */
    predicate IsPromotion(write: Write<R>) {
      && Served(Stored(p.keyOf(write.record))) == Some(write.record)
      && write.ttl == RemainingTTL(p.fetchedAt(write.record), p.now, p.ttl) > 0
    }

    /** What the monitor has seen after a trace. */
    function Watch(trace: seq<Step<ID, R>>): Seen<ID, R> {
      if trace == [] then Start() else Advance(Watch(trace[..|trace| - 1]), trace[|trace| - 1].effect)
    }

    /** The run is cancelled by the time its `n`-th effect starts. */
    predicate CancelledBy(n: nat) {
      w.cancelledAtStart || exists i | 0 <= i < n :: w.raises(i)
    }

    /** Completed keys are the keys of applied records, and every applied record is its key's
        outcome. */
    ghost predicate Sound(seen: Seen<ID, R>)
      requires Lawful()
    {
      && (forall key | key in seen.complete ::
            key in req.keyOrder && Outcome(key).Some? && Outcome(key).value in seen.applied)
      && (forall r | r in seen.applied :: p.keyOf(r) in seen.complete && Outcome(p.keyOf(r)) == Some(r))
      && seen.published <= seen.applied && seen.fetched <= seen.applied
    }

    lemma StaysSound(seen: Seen<ID, R>, step: Step<ID, R>)
      requires Lawful() && Sound(seen) && Allowed(seen, step)
      ensures Sound(Advance(seen, step.effect))
    {
      hide Outcome;
    }

    /** Every step was allowed when it was taken. */
    ghost predicate Monitored(trace: seq<Step<ID, R>>)
      requires Lawful()
    {
      forall i | 0 <= i < |trace| :: Allowed(Watch(trace[..i]), trace[i]) && trace[i].late == CancelledBy(i)
    }

    lemma MonitorStep(trace: seq<Step<ID, R>>, step: Step<ID, R>)
      requires Lawful() && Monitored(trace)
      requires Allowed(Watch(trace), step) && step.late == CancelledBy(|trace|)
      ensures Sound(Watch(trace)) ==> Sound(Advance(Watch(trace), step.effect))
      ensures Monitored(trace + [step]) && Watch(trace + [step]) == Advance(Watch(trace), step.effect)
      ensures CancelledBy(|trace| + 1) == (CancelledBy(|trace|) || w.raises(|trace|))
    {
      hide Allowed, Advance, Sound;
      if Sound(Watch(trace)) {
        StaysSound(Watch(trace), step);
      }
      var longer := trace + [step];
      assert longer[..|trace|] == trace;
      forall i | 0 <= i < |longer|
        ensures Allowed(Watch(longer[..i]), longer[i]) && longer[i].late == CancelledBy(i)
      {
        if i < |trace| {
          assert longer[..i] == trace[..i];
        }
      }
    }

    /** The stale record noted for a key after one or both tiers looked at `keys`. */
    function StaleIn(tiers: nat, keys: seq<Key>, key: Key): Option<R> {
      if key !in keys then None
      else if tiers == 1 then NoteStale(None, Cached(key))
      else StaleOf(key)
    }

    /** How many of the two tiers a run has looked at. */
    function TiersSeen(seen: Seen<ID, R>): nat {
      if seen.tier == CacheTier then 1 else 2
    }

    function Noted(seen: Seen<ID, R>, key: Key): Option<R> {
      if key in seen.stale then Some(seen.stale[key]) else None
    }

    /** What looking at one key's record in a tier does to what was seen. */
    function Considered(seen: Seen<ID, R>, key: Key, found: Option<R>): Seen<ID, R> {
      if Expired(found).Some? then Advance(seen, Stale(key, found.value))
      else if Served(found).Some? then Advance(seen, Applied(Indexes(key), found.value))
      else seen
    }

    /** Looking at a tier's record is allowed, and leaves the key complete exactly when the
        record counts. */
    lemma ConsideredAllowed(seen: Seen<ID, R>, key: Key, late: bool)
      requires Lawful() && key in req.keyOrder
      requires seen.tier == CacheTier || (seen.tier == StoreTier && Served(Cached(key)).None?)
      requires Sound(seen) && (NoDuplicates(req.keyOrder) ==> key !in seen.complete)
      ensures var found := if seen.tier == CacheTier then Cached(key) else Stored(key);
              && (Expired(found).Some? ==> Allowed(seen, Step(Stale(key, found.value), late)))
              && (Served(found).Some? ==> Allowed(seen, Step(Applied(Indexes(key), found.value), late)))
              && Noted(Considered(seen, key, found), key) == NoteStale(Noted(seen, key), found)
              && (forall k | k != key :: Noted(Considered(seen, key, found), k) == Noted(seen, k))
              && Considered(seen, key, found).complete ==
                  (if Served(found).Some? then seen.complete + {key} else seen.complete)
              && Considered(seen, key, found).published == seen.published
              && Considered(seen, key, found).effects == seen.effects + KeyEffects(key, found)
              && Considered(seen, key, found).applied ==
                  (if Served(found).Some? then seen.applied + {found.value} else seen.applied)
    {
      hide Fresh;
    }

    /** The first tier has looked at the first `n` keys. */
    ghost predicate CacheScanned(seen: Seen<ID, R>, n: nat)
      requires n <= |req.keyOrder|
    {
      var keys := req.keyOrder[..n];
      && seen.tier == CacheTier && seen.batches == []
      && seen.complete == CacheServes(keys)
      && (NoDuplicates(req.keyOrder) ==> forall k :: Noted(seen, k) == StaleIn(1, keys, k))
    }

    lemma CacheScanStep(seen: Seen<ID, R>, n: nat)
      requires Lawful() && Sound(seen) && n < |req.keyOrder| && CacheScanned(seen, n)
      ensures NoDuplicates(req.keyOrder) ==> req.keyOrder[n] !in seen.complete
      ensures CacheScanned(Considered(seen, req.keyOrder[n], Cached(req.keyOrder[n])), n + 1)
    {
      var key := req.keyOrder[n];
      assert NoDuplicates(req.keyOrder) ==> key !in req.keyOrder[..n];
      ConsideredAllowed(seen, key, false);
      hide Outcome, Allowed, Served, Cached, Lawful, Expired;
      var keys, longer := req.keyOrder[..n], req.keyOrder[..n + 1];
      assert longer == keys + [key];
      var next := Considered(seen, key, Cached(key));
      assert next.complete == CacheServes(longer);
      if NoDuplicates(req.keyOrder) {
        assert key !in keys;
        assert Noted(next, key) == StaleIn(1, longer, key);
        forall k | k != key
          ensures Noted(next, k) == StaleIn(1, longer, k)
        {
          assert Noted(next, k) == Noted(seen, k);
          assert Noted(seen, k) == StaleIn(1, keys, k);
          assert k in longer <==> k in keys;
        }
      }
    }

    lemma {:induction false} IncompleteIs(keys: seq<Key>, complete: set<Key>)
      ensures forall k :: k in Incomplete(keys, complete) <==> k in keys && k !in complete
      ensures NoDuplicates(keys) ==> NoDuplicates(Incomplete(keys, complete))
    {
      if keys != [] {
        var front, last := keys[..|keys| - 1], keys[|keys| - 1];
        IncompleteIs(front, complete);
        assert keys == front + [last];
        assert NoDuplicates(keys) ==> last !in front;
      }
    }

    lemma StoredCarriesKey(key: Key)
      requires Lawful()
      ensures Served(Stored(key)).Some? ==> p.keyOf(Stored(key).value) == key && Served(Stored(key)) == Stored(key)
    {
    }

    lemma CacheScanPublished(seen: Seen<ID, R>, n: nat)
      requires n <= |req.keyOrder| && CacheScanned(seen, n)
      ensures CacheScanned(Advance(seen, Progress), n)
    {
      forall k
        ensures Noted(Advance(seen, Progress), k) == Noted(seen, k)
      {
      }
    }

    /** The second tier has looked at the first `n` of the keys the first left incomplete. */
    ghost predicate StoreScanned(seen: Seen<ID, R>, remaining: seq<Key>, n: nat)
      requires n <= |remaining|
    {
      && seen.tier == StoreTier && seen.batches == []
      && (forall k :: k in seen.complete <==>
            k in req.keyOrder && (Served(Cached(k)).Some? || (k in remaining[..n] && Local(k).Some?)))
      && (NoDuplicates(req.keyOrder) ==>
            forall k :: Noted(seen, k) == if k in remaining[..n] then StaleOf(k) else StaleIn(1, req.keyOrder, k))
    }

    lemma StoreScanStep(seen: Seen<ID, R>, remaining: seq<Key>, n: nat)
      requires Lawful() && Sound(seen) && n < |remaining| && StoreScanned(seen, remaining, n)
      requires remaining == Incomplete(req.keyOrder, CacheServes(req.keyOrder))
      ensures remaining[n] in req.keyOrder && Served(Cached(remaining[n])).None?
      ensures NoDuplicates(req.keyOrder) ==> remaining[n] !in seen.complete
      ensures StoreScanned(Considered(seen, remaining[n], Stored(remaining[n])), remaining, n + 1)
    {
      NextRemaining(seen, remaining, n);
      var key := remaining[n];
      ConsideredAllowed(seen, key, false);
      hide Outcome, Allowed, Lawful, Expired, Fresh, Matching, Incomplete, Noted, StaleOf, StaleIn;
      var keys, longer := remaining[..n], remaining[..n + 1];
      assert longer == keys + [key];
      var next := Considered(seen, key, Stored(key));
      if NoDuplicates(req.keyOrder) {
        assert key !in keys;
        StaleAdvances(key);
        assert Noted(seen, key) == StaleIn(1, req.keyOrder, key);
        forall k | k != key
          ensures Noted(next, k) == if k in longer then StaleOf(k) else StaleIn(1, req.keyOrder, k)
        {
          assert Noted(next, k) == Noted(seen, k);
          assert k in longer <==> k in keys;
        }
      }
    }

    lemma NextRemaining(seen: Seen<ID, R>, remaining: seq<Key>, n: nat)
      requires n < |remaining| && StoreScanned(seen, remaining, n)
      requires remaining == Incomplete(req.keyOrder, CacheServes(req.keyOrder))
      ensures var key := remaining[n];
              && key in req.keyOrder && Served(Cached(key)).None? && seen.tier == StoreTier
              && (NoDuplicates(req.keyOrder) ==> key !in remaining[..n] && key !in seen.complete)
    {
      IncompleteIs(req.keyOrder, CacheServes(req.keyOrder));
      hide Incomplete, Served, Cached, Noted, StaleOf, StaleIn, Local;
      assert remaining[n] in remaining;
    }

    lemma StaleAdvances(key: Key)
      requires key in req.keyOrder
      ensures NoteStale(StaleIn(1, req.keyOrder, key), Stored(key)) == StaleOf(key)
    {
    }

    /** What both local tiers leave behind: exactly the keys a tier serves are complete, and
        every other key has the newest stale record of the two. */
    ghost predicate LocalTiersDone(seen: Seen<ID, R>) {
      && (seen.tier == CacheTier || seen.tier == StoreTier) && seen.batches == []
      && seen.complete == LocallyServed(req.keyOrder)
      && (seen.tier == CacheTier ==> forall k | k in req.keyOrder :: k in seen.complete)
      && (NoDuplicates(req.keyOrder) ==>
            forall k | k !in seen.complete :: Noted(seen, k) == if k in req.keyOrder then StaleOf(k) else None)
    }

    lemma LocalTiersStayDone(seen: Seen<ID, R>, effect: Effect<ID, R>)
      requires LocalTiersDone(seen) && (effect.Progress? || effect.CacheSave?)
      ensures LocalTiersDone(Advance(seen, effect)) && Advance(seen, effect).complete == seen.complete
    {
      forall k
        ensures Noted(Advance(seen, effect), k) == Noted(seen, k)
      {
      }
    }

    lemma StoreScanComplete(seen: Seen<ID, R>, remaining: seq<Key>)
      requires remaining == Incomplete(req.keyOrder, CacheServes(req.keyOrder))
      requires StoreScanned(seen, remaining, |remaining|)
      ensures LocalTiersDone(seen)
    {
      IncompleteIs(req.keyOrder, CacheServes(req.keyOrder));
      hide Incomplete, Served, StaleOf;
      assert remaining[..|remaining|] == remaining;
      assert seen.complete == LocallyServed(req.keyOrder);
    }

    /** When the cache served every key, the second tier has nothing to do. */
    lemma CacheServedAll(seen: Seen<ID, R>)
      requires CacheScanned(seen, |req.keyOrder|)
      requires Incomplete(req.keyOrder, CacheServes(req.keyOrder)) == []
      ensures LocalTiersDone(seen)
    {
      IncompleteIs(req.keyOrder, CacheServes(req.keyOrder));
      hide Incomplete, Served, StaleOf;
      assert req.keyOrder[..|req.keyOrder|] == req.keyOrder;
      assert forall k | k in req.keyOrder :: k in CacheServes(req.keyOrder);
      assert seen.complete == LocallyServed(req.keyOrder);
    }

    /* ----- following the plan ----- */

    lemma CacheEffectsSnoc(n: nat)
      requires n < |req.keyOrder|
      ensures var key := req.keyOrder[n];
              CacheEffects(req.keyOrder[..n + 1]) == CacheEffects(req.keyOrder[..n]) + KeyEffects(key, Cached(key))
    {
      hide KeyEffects, Cached;
      assert req.keyOrder[..n + 1][..n] == req.keyOrder[..n];
    }

    lemma StoreEffectsSnoc(base: seq<Effect<ID, R>>, keys: seq<Key>, n: nat)
      requires n < |keys|
      ensures base + StoreEffects(keys[..n + 1], keys)
              == base + StoreEffects(keys[..n], keys) + KeyEffects(keys[n], Stored(keys[n]))
      ensures Promotions(keys[..n + 1]) == Promotions(keys[..n]) +
                var found := Served(Stored(keys[n]));
                if found.None? then [] else [Write(found.value, RemainingTTL(p.fetchedAt(found.value), p.now, p.ttl))]
    {
      hide KeyEffects, Stored, Served, RemainingTTL;
      assert keys[..n + 1][..n] == keys[..n];
    }

    lemma ProvidedForSnoc(keys: seq<Key>, key: Key)
      requires Lawful()
      ensures ProvidedFor(keys + [key])
              == ProvidedFor(keys) + if Provided(key).Some? && key !in keys then [Provided(key).value] else []
    {
      hide Provided;
      assert (keys + [key])[..|keys|] == keys;
    }

    lemma {:induction false} NothingProvided(keys: seq<Key>)
      requires Lawful() && forall k | k in keys :: Provided(k).None?
      ensures ProvidedFor(keys) == []
    {
      hide Provided;
      if keys != [] {
        NothingProvided(keys[..|keys| - 1]);
      }
    }

    lemma FetchedForSnoc(ids: seq<ID>, id: ID)
      requires Lawful()
      ensures FetchedFor(ids + [id]) == FetchedFor(ids) + ProvidedFor(GroupOf(req.keyOrder, id))
      ensures FetchedFor([]) == []
    {
      hide ProvidedFor, GroupOf;
      assert (ids + [id])[..|ids|] == ids;
    }

    lemma MissedForSnoc(batch: seq<ID>, ids: seq<ID>, id: ID)
      ensures MissedFor(batch, ids + [id])
              == MissedFor(batch, ids) + if Answered(batch, id).None? then GroupOf(req.keyOrder, id) else []
      ensures MissedFor(batch, []) == []
    {
      hide Answered, GroupOf;
      assert (ids + [id])[..|ids|] == ids;
    }

    lemma AppliedEffectsSnoc(base: seq<Effect<ID, R>>, records: seq<R>, r: R)
      ensures base + AppliedEffects(records + [r]) == base + AppliedEffects(records) + [Applied(Indexes(p.keyOf(r)), r)]
      ensures base + AppliedEffects([]) == base
    {
      hide Indexes;
    }

    lemma BatchPlansSnoc(base: seq<Effect<ID, R>>, batches: seq<seq<ID>>, batch: seq<ID>)
      requires Lawful()
      ensures base + BatchPlans(batches + [batch]) == base + BatchPlans(batches) + BatchPlan(batch)
      ensures base + BatchPlans([]) == base
    {
      hide BatchPlan;
      assert (batches + [batch])[..|batches|] == batches;
    }

    lemma BatchPlanParts(base: seq<Effect<ID, R>>, batch: seq<ID>)
      requires Lawful()
      ensures w.fetch(batch).Failed? ==> base + BatchPlan(batch) == base + [Fetch(batch)]
      ensures w.fetch(batch).Answer? ==>
                base + BatchPlan(batch)
                == base + [Fetch(batch)] + AppliedEffects(FetchedFor(batch)) + Announce(FetchedFor(batch) != [])
                   + MissSaves(MissedFor(batch, batch)) + RecordSaves(FetchedFor(batch))
    {
      hide AppliedEffects, FetchedFor, MissedFor, MissSaves, RecordSaves, Announce;
    }

    lemma {:induction false} BatchPlansGrow(some: seq<seq<ID>>, all: seq<seq<ID>>)
      requires Lawful() && some <= all
      ensures BatchPlans(some) <= BatchPlans(all)
    {
      hide BatchPlan;
      if |some| < |all| {
        BatchPlansGrow(some, all[..|all| - 1]);
      } else {
        assert some == all;
      }
    }

    /* ----- the provider tier ----- */

    lemma {:induction false} GroupIs(keys: seq<Key>, id: ID)
      ensures forall k :: k in GroupOf(keys, id) <==> k in keys && Pending(k) && req.expectedId[k] == id
    {
      if keys != [] {
        GroupIs(keys[..|keys| - 1], id);
        assert keys == keys[..|keys| - 1] + [keys[|keys| - 1]];
      }
    }

    /** The batches fetched so far cover exactly the identifiers before `start`, and the rest of
        the slices are still to come. */
    ghost predicate FetchedUpTo(batches: seq<seq<ID>>, start: nat)
      requires Lawful()
    {
      && start <= |Ids()|
      && batches + Chunks(Ids()[start..], Limit()) == Batches()
      && forall i | 0 <= i < |batches| :: forall id | id in batches[i] :: id in Ids()[..start]
    }

    lemma IdsAre()
      requires Lawful()
      ensures IsSorting(p.less, Ids(), PendingIds())
    {
    }

    /** The next slice is an allowed batch, and is the one batch that holds its identifiers. */
    lemma NextBatch(batches: seq<seq<ID>>, start: nat)
      requires Lawful() && FetchedUpTo(batches, start) && start < |Ids()|
      ensures var end := if start + Limit() > |Ids()| then |Ids()| else start + Limit();
              var batch := Ids()[start..end];
              && batches + [batch] <= Batches()
              && FetchedUpTo(batches + [batch], end)
              && (forall id | id in batch :: BatchIs(batch, id))
    {
      IdsAre();
      SortingHasNoDuplicates(Ids(), PendingIds());
      hide *;
      var end := if start + Limit() > |Ids()| then |Ids()| else start + Limit();
      var batch := Ids()[start..end];
      FetchedUpToIs(batches, start);
      SliceIsNext(Ids(), batches, start, Limit(), Batches());
      FetchedUpToIs(batches + [batch], end);
      forall id | id in batch
        ensures BatchIs(batch, id)
      {
        BatchOfMiddle(batches, batch, Chunks(Ids()[end..], Limit()), id);
        BatchIsTheOne(batch, id);
      }
    }

    lemma SortingHasNoDuplicates(ids: seq<ID>, elements: set<ID>)
      requires Lawful() && IsSorting(p.less, ids, elements)
      ensures NoDuplicates(ids)
    {
    }

    lemma FetchedUpToIs(batches: seq<seq<ID>>, start: nat)
      requires Lawful() && start <= |Ids()|
      ensures FetchedUpTo(batches, start) <==>
                && batches + Chunks(Ids()[start..], Limit()) == Batches()
                && forall i | 0 <= i < |batches| :: forall id | id in batches[i] :: id in Ids()[..start]
    {
      hide Ids, Batches, Chunks, Limit, Lawful;
    }

    lemma BatchIsTheOne(batch: seq<ID>, id: ID)
      requires Lawful()
      ensures BatchIs(batch, id) <==> BatchOf(Batches(), id) == Some(batch)
    {
      hide Batches, BatchOf, Lawful;
    }

    lemma {:induction false} BatchOfMiddle(before: seq<seq<ID>>, batch: seq<ID>, after: seq<seq<ID>>, id: ID)
      requires id in batch && forall i | 0 <= i < |before| :: id !in before[i]
      ensures BatchOf(before + [batch] + after, id) == Some(batch)
    {
      var all := before + [batch] + after;
      if before != [] {
        BatchOfMiddle(before[1..], batch, after, id);
        assert all[1..] == before[1..] + [batch] + after;
      }
    }

    /** After the batches up to `start` have been dealt with: complete are the locally served
        keys and the keys those batches provided for. */
    ghost predicate ProvidedUpTo(complete: set<Key>, start: nat)
      requires Lawful() && start <= |Ids()|
    {
      forall k :: k in complete <==>
        k in req.keyOrder &&
        (Local(k).Some? || (Pending(k) && req.expectedId[k] in Ids()[..start] && Provided(k).Some?))
    }

    /** Once every batch has been dealt with, complete are exactly the keys with an outcome. */
    lemma AllProvided(complete: set<Key>)
      requires Lawful() && ProvidedUpTo(complete, |Ids()|)
      ensures forall k :: k in complete <==> k in req.keyOrder && Outcome(k).Some?
    {
      IdsAre();
      assert Ids()[..|Ids()|] == Ids();
      forall k | k in req.keyOrder && Pending(k)
        ensures req.expectedId[k] in Ids()
      {
        assert req.expectedId[k] in PendingIds();
      }
    }

    /** What a batch's answer means for a key of one of its identifiers. */
    lemma ProvidedBy(batch: seq<ID>, key: Key)
      requires Lawful() && key in req.keyOrder && Pending(key) && req.expectedId[key] in batch
      requires BatchIs(batch, req.expectedId[key])
      ensures Outcome(key) == Provided(key)
      ensures var r := Answered(batch, req.expectedId[key]);
              Provided(key) == if r.Some? && p.usable(p.withKey(r.value, key)) then Some(p.withKey(r.value, key))
                  else None
      ensures w.fetch(batch).Failed? ==> Provided(key).None?
    {
    }

    /** The batch is the one that holds the identifier. */
    ghost predicate BatchIs(batch: seq<ID>, id: ID)
      requires Lawful()
    {
      BatchOf(Batches(), id) == Some(batch)
    }

    /** `after` adds to `before` exactly the keys of these identifiers that are provided for. */
    ghost predicate ProvidedIn(after: set<Key>, before: set<Key>, ids: seq<ID>)
      requires Lawful()
    {
      forall k :: k in after <==>
        k in before || (k in req.keyOrder && Pending(k) && req.expectedId[k] in ids && Provided(k).Some?)
    }

    /** `after` adds to `before` exactly those of the keys that are provided for. */
    ghost predicate ProvidedAmong(after: set<Key>, before: set<Key>, keys: seq<Key>)
      requires Lawful()
    {
      forall k :: k in after <==> k in before || (k in keys && Provided(k).Some?)
    }

    lemma NobodyProvided(complete: set<Key>)
      requires Lawful()
      ensures ProvidedAmong(complete, complete, [])
    {
    }

    lemma ProvidedAmongSnoc(before: set<Key>, now: set<Key>, keys: seq<Key>, key: Key)
      requires Lawful() && ProvidedAmong(now, before, keys)
      ensures ProvidedAmong(if Provided(key).Some? then now + {key} else now, before, keys + [key])
    {
      hide Provided;
    }

    lemma ProvidedNext(before: set<Key>, after: set<Key>, start: nat, end: nat)
      requires Lawful() && start <= end <= |Ids()| && ProvidedUpTo(before, start)
      requires ProvidedIn(after, before, Ids()[start..end])
      ensures ProvidedUpTo(after, end)
    {
      hide Provided, Ids, Local, Pending;
      assert Ids()[..end] == Ids()[..start] + Ids()[start..end];
    }

    lemma ProvidedSnoc(before: set<Key>, middle: set<Key>, after: set<Key>, ids: seq<ID>, id: ID)
      requires Lawful() && ProvidedIn(middle, before, ids)
      requires ProvidedAmong(after, middle, GroupOf(req.keyOrder, id))
      ensures ProvidedIn(after, before, ids + [id])
    {
      GroupIs(req.keyOrder, id);
      hide Provided, Pending, GroupOf;
    }

    /** Records of the latest batch, applied and waiting to be saved. */
    ghost predicate FetchedReady(seen: Seen<ID, R>, fetched: seq<R>) {
      && (forall r | r in fetched :: r in seen.applied && r in seen.fetched)
      && (fetched == [] ==> seen.fetched == {} && seen.applied == seen.published)
    }

    /** Applying records leaves the rest of what was seen alone. */
    predicate OnlyApplied(before: Seen<ID, R>, after: Seen<ID, R>) {
      && after.tier == before.tier && after.published == before.published && after.batches == before.batches
      && after.stale == before.stale
    }

    /** A fetched record may be applied to a key that waits for it. */
    lemma ProvidedAllowed(seen: Seen<ID, R>, batch: seq<ID>, key: Key, record: R, late: bool)
      requires Lawful() && Sound(seen) && key in req.keyOrder && Pending(key) && req.expectedId[key] in batch
      requires BatchIs(batch, req.expectedId[key])
      requires Answered(batch, req.expectedId[key]) == Some(record) && key !in seen.complete
      requires seen.tier == ProviderTier
      ensures var keyed := p.withKey(record, key);
              && (p.usable(keyed) <==> Provided(key).Some?)
              && (p.usable(keyed) ==> Allowed(seen, Step(Applied(Indexes(key), keyed), late)))
              && (p.usable(keyed) ==> Provided(key) == Some(keyed) && p.keyOf(keyed) == key)
              && var next := Advance(seen, Applied(Indexes(key), keyed));
                 && OnlyApplied(seen, next) && next.complete == seen.complete + {key}
                 && next.applied == seen.applied + {keyed} && next.fetched == seen.fetched + {keyed}
                 && next.effects == seen.effects + [Applied(Indexes(key), keyed)]
    {
      ProvidedBy(batch, key);
      hide Provided, Batches;
    }

    /** When a batch answers without data for an identifier, its whole group is a known miss and
        provided with nothing. */
    lemma GroupMissed(batch: seq<ID>, id: ID, batches: seq<seq<ID>>, complete: set<Key>)
      requires Lawful() && id in batch && BatchIs(batch, id) && w.fetch(batch).Answer? && Answered(batch, id).None?
      requires batches != [] && batches[|batches| - 1] == batch
      ensures KnownMisses(batches, GroupOf(req.keyOrder, id))
      ensures ProvidedAmong(complete, complete, GroupOf(req.keyOrder, id))
    {
      GroupIs(req.keyOrder, id);
      forall k | k in GroupOf(req.keyOrder, id)
        ensures KnownMiss(batches, k) && Provided(k).None?
      {
        ProvidedBy(batch, k);
      }
    }

    ghost predicate KnownMisses(batches: seq<seq<ID>>, keys: seq<Key>) {
      forall k | k in keys :: KnownMiss(batches, k)
    }

    lemma MoreMisses(batches: seq<seq<ID>>, some: seq<Key>, more: seq<Key>)
      requires KnownMisses(batches, some) && KnownMisses(batches, more)
      ensures KnownMisses(batches, some + more)
    {
      hide KnownMiss;
    }

    /** A failed batch provides for nobody. */
    lemma FailedBatch(batch: seq<ID>, complete: set<Key>)
      requires Lawful() && w.fetch(batch).Failed? && forall id | id in batch :: BatchIs(batch, id)
      ensures ProvidedIn(complete, complete, batch)
    {
      forall k | k in req.keyOrder && Pending(k) && req.expectedId[k] in batch
        ensures Provided(k).None?
      {
        ProvidedBy(batch, k);
      }
    }

    /** Publishing and saving leave completion, batches and stale records alone. */
    predicate SameProgress(before: Seen<ID, R>, after: Seen<ID, R>) {
      && after.tier == before.tier && after.complete == before.complete && after.batches == before.batches
      && after.stale == before.stale
    }

    lemma ProviderTierStarts(seen: Seen<ID, R>)
      requires Lawful() && LocalTiersDone(seen)
      ensures FetchedUpTo(seen.batches, 0) && ProvidedUpTo(seen.complete, 0)
    {
      assert Ids()[0..] == Ids();
      assert [] + Batches() == Batches();
    }

    /** Every batch dealt with on top of the local tiers: the run is complete. */
    lemma RunComplete(local: Seen<ID, R>, seen: Seen<ID, R>)
      requires Lawful() && LocalTiersDone(local) && seen.stale == local.stale
      requires FetchedUpTo(seen.batches, |Ids()|) && ProvidedUpTo(seen.complete, |Ids()|)
      ensures forall key | key in req.keyOrder && Outcome(key).Some? :: key in seen.complete
      ensures seen.batches == Batches()
      ensures NoDuplicates(req.keyOrder) ==>
                forall key | key !in seen.complete ::
                  Noted(seen, key) == if key in req.keyOrder then StaleOf(key) else None
    {
      AllProvided(seen.complete);
      assert Ids()[|Ids()|..] == [];
      assert seen.batches + [] == seen.batches;
      forall key
        ensures Noted(seen, key) == Noted(local, key)
      {
      }
      hide Provided, StaleOf, Ids;
      assert local.complete <= seen.complete;
    }
  }
}
