/** What a comparison's response shows of the two lookups behind it. */
module CompareLookups {
  import opened Decimal
  import opened MarketKey
  import opened PipelineSpec
  import opened MarketPipeline
  import opened ComparisonSlots
  import opened CompareRuns

  /** Two finished lookups, each handing out its columns. */
  ghost function Comparing<A(!new), R(!new), B(!new), S(!new)>(
      showA: R -> Market<A>, traceA: seq<Step<A, R>>,
      showB: S -> Market<B>, traceB: seq<Step<B, S>>, n: nat): Comparison<Market<A>, Market<B>>
    requires InRange(traceA, n) && InRange(traceB, n)
  {
    Comparison(Columns(showA, n, traceA), Columns(showB, n, traceB), n)
  }

  lemma LookupIsWellFormed<ID(!new), R(!new)>(c: Lookup<ID, R>, show: R -> Market<ID>, n: nat, trace: seq<Step<ID, R>>)
    requires Finished(c, show, n, trace)
    ensures c.Lawful() && InRange(trace, n)
    ensures WellFormed(Columns(show, n, trace), n) && Final(Columns(show, n, trace), n) == Answered(show, n, trace)
  {
    hide *;
    FinishedParts(c, show, n, trace);
    ColumnsGrow(c, show, n, trace);
    WellFormedIs(Columns(show, n, trace), n);
  }

  lemma WellFormedIs<T>(columns: seq<seq<Option<T>>>, n: nat)
    requires Growing(columns) && columns != [] && forall i | 0 <= i < |columns| :: |columns[i]| == n
    ensures WellFormed(columns, n) && Final(columns, n) == columns[|columns| - 1]
  {
    hide Growing;
  }

  /** A slot of a response shows nothing, or the outcome of its token's key. */
  ghost predicate SlotIsOutcome<ID(!new), R(!new)>(c: Lookup<ID, R>, show: R -> Market<ID>, slot: Option<Market<ID>>,
                                                   key: Key)
    requires c.Lawful()
  {
    slot.Some? ==> c.Outcome(key).Some? && slot == Some(show(c.Outcome(key).value))
  }

  /** No requested key feeds the slot. */
  ghost predicate IsUnfed<ID(!new), R(!new)>(c: Lookup<ID, R>, i: nat) {
    forall key | key in c.req.keyOrder :: i !in c.Indexes(key)
  }

  lemma FinalIsEmpty<ID(!new), R(!new)>(c: Lookup<ID, R>, show: R -> Market<ID>, n: nat, trace: seq<Step<ID, R>>,
                                        i: nat)
    requires Finished(c, show, n, trace) && i < n && IsUnfed(c, i)
    ensures InRange(trace, n) && Answered(show, n, trace)[i].None?
  {
    FinishedParts(c, show, n, trace);
    hide Lookup.Outcome, Lookup.Indexes, Lookup.Lawful, Finished, Answered, Lookup.CancelledBy, InRange;
  }

  lemma FinalIsOutcome<ID(!new), R(!new)>(c: Lookup<ID, R>, show: R -> Market<ID>, n: nat, trace: seq<Step<ID, R>>,
                                          i: nat, key: Key)
    requires Finished(c, show, n, trace) && i < n && i in c.Indexes(key)
    ensures c.Lawful() && InRange(trace, n) && SlotIsOutcome(c, show, Answered(show, n, trace)[i], key)
    ensures !c.CancelledBy(|trace|) && c.Outcome(key).Some? ==> Answered(show, n, trace)[i].Some?
  {
    FinishedParts(c, show, n, trace);
    hide Lookup.Outcome, Lookup.Indexes, Lookup.Lawful, Finished, Answered, Lookup.CancelledBy, InRange;
  }

  /** In every interleaving of two lookups and the deadline, a response shows in each slot nothing
      or the outcome of its token's key, from the very cascade that a lookup of that key alone
      would be. */
  lemma ResponseShowsOutcomes<A(!new), R(!new), B(!new), S(!new)>(
      c: Lookup<A, R>, showA: R -> Market<A>, traceA: seq<Step<A, R>>,
      d: Lookup<B, S>, showB: S -> Market<B>, traceB: seq<Step<B, S>>, n: nat, schedule: seq<Action>)
    requires Finished(c, showA, n, traceA) && Finished(d, showB, n, traceB)
    requires var all := Comparing(showA, traceA, showB, traceB, n);
             all.Runs(schedule) && all.After(schedule).response.Returned?
    ensures var pairs := Comparing(showA, traceA, showB, traceB, n).After(schedule).response.pairs;
            && |pairs| == n && c.Lawful() && d.Lawful()
            && (forall i, key | 0 <= i < n && i in c.Indexes(key) :: SlotIsOutcome(c, showA, pairs[i].cg, key))
            && (forall i, key | 0 <= i < n && i in d.Indexes(key) :: SlotIsOutcome(d, showB, pairs[i].cmc, key))
            && (forall i | 0 <= i < n && IsUnfed(c, i) :: pairs[i].cg.None?)
            && (forall i | 0 <= i < n && IsUnfed(d, i) :: pairs[i].cmc.None?)
  {
    hide *;
    LookupIsWellFormed(c, showA, n, traceA);
    LookupIsWellFormed(d, showB, n, traceB);
    var all := Comparing(showA, traceA, showB, traceB, n);
    ComparingIs(showA, traceA, showB, traceB, n);
    all.ResponseIsPartial(schedule);
    var pairs := all.After(schedule).response.pairs;
    forall i, key | 0 <= i < n && i in c.Indexes(key)
      ensures SlotIsOutcome(c, showA, pairs[i].cg, key)
    {
      FinalIsOutcome(c, showA, n, traceA, i, key);
      EmptySlot(c, showA, key);
    }
    forall i, key | 0 <= i < n && i in d.Indexes(key)
      ensures SlotIsOutcome(d, showB, pairs[i].cmc, key)
    {
      FinalIsOutcome(d, showB, n, traceB, i, key);
      EmptySlot(d, showB, key);
    }
    forall i | 0 <= i < n && IsUnfed(c, i)
      ensures pairs[i].cg.None?
    {
      FinalIsEmpty(c, showA, n, traceA, i);
    }
    forall i | 0 <= i < n && IsUnfed(d, i)
      ensures pairs[i].cmc.None?
    {
      FinalIsEmpty(d, showB, n, traceB, i);
    }
  }

  /** The slot shows its key's outcome exactly. */
  ghost predicate SlotIsFull<ID(!new), R(!new)>(c: Lookup<ID, R>, show: R -> Market<ID>, slot: Option<Market<ID>>,
                                                key: Key)
    requires c.Lawful()
  {
    slot == if c.Outcome(key).Some? then Some(show(c.Outcome(key).value)) else None
  }

  /** A lookup that is not cancelled and closes before the deadline is shown exactly: every slot
      whose key has an outcome shows it, and no other does. */
  lemma LookupInTimeIsFull<A(!new), R(!new), B(!new), S(!new)>(
      c: Lookup<A, R>, showA: R -> Market<A>, traceA: seq<Step<A, R>>,
      d: Lookup<B, S>, showB: S -> Market<B>, traceB: seq<Step<B, S>>, n: nat, schedule: seq<Action>, m: nat)
    requires Finished(c, showA, n, traceA) && Finished(d, showB, n, traceB) && m <= |schedule|
    requires var all := Comparing(showA, traceA, showB, traceB, n);
             && all.Runs(schedule) && all.After(schedule).response.Returned?
             && all.Runs(schedule[..m]) && !all.After(schedule[..m]).expired
    ensures var all := Comparing(showA, traceA, showB, traceB, n);
            var early, pairs := all.After(schedule[..m]), all.After(schedule).response.pairs;
            && |pairs| == n && c.Lawful() && d.Lawful()
            && (early.cg.closed && !c.CancelledBy(|traceA|) ==>
                  forall i, key | 0 <= i < n && i in c.Indexes(key) :: SlotIsFull(c, showA, pairs[i].cg, key))
            && (early.cmc.closed && !d.CancelledBy(|traceB|) ==>
                  forall i, key | 0 <= i < n && i in d.Indexes(key) :: SlotIsFull(d, showB, pairs[i].cmc, key))
            && (forall i | 0 <= i < n && IsUnfed(c, i) :: pairs[i].cg.None?)
            && (forall i | 0 <= i < n && IsUnfed(d, i) :: pairs[i].cmc.None?)
  {
    hide *;
    LookupIsWellFormed(c, showA, n, traceA);
    LookupIsWellFormed(d, showB, n, traceB);
    ComparingIs(showA, traceA, showB, traceB, n);
    var all := Comparing(showA, traceA, showB, traceB, n);
    all.InTimeIsFull(schedule, m);
    ResponseShowsOutcomes(c, showA, traceA, d, showB, traceB, n, schedule);
    var early, pairs := all.After(schedule[..m]), all.After(schedule).response.pairs;
    forall i, key | 0 <= i < n && i in c.Indexes(key) && early.cg.closed && !c.CancelledBy(|traceA|)
      ensures SlotIsFull(c, showA, pairs[i].cg, key)
    {
      FinalIsOutcome(c, showA, n, traceA, i, key);
      OutcomeFills(c, showA, pairs[i].cg, key);
    }
    forall i, key | 0 <= i < n && i in d.Indexes(key) && early.cmc.closed && !d.CancelledBy(|traceB|)
      ensures SlotIsFull(d, showB, pairs[i].cmc, key)
    {
      FinalIsOutcome(d, showB, n, traceB, i, key);
      OutcomeFills(d, showB, pairs[i].cmc, key);
    }
  }

  lemma ComparingIs<A(!new), R(!new), B(!new), S(!new)>(
      showA: R -> Market<A>, traceA: seq<Step<A, R>>, showB: S -> Market<B>, traceB: seq<Step<B, S>>, n: nat)
    requires InRange(traceA, n) && InRange(traceB, n)
    requires WellFormed(Columns(showA, n, traceA), n) && WellFormed(Columns(showB, n, traceB), n)
    ensures var all := Comparing(showA, traceA, showB, traceB, n);
            && all.Valid() && all.slots == n
            && all.cg == Columns(showA, n, traceA) && all.cmc == Columns(showB, n, traceB)
  {
    hide WellFormed, Columns, InRange;
  }

  lemma EmptySlot<ID(!new), R(!new)>(c: Lookup<ID, R>, show: R -> Market<ID>, key: Key)
    requires c.Lawful()
    ensures SlotIsOutcome(c, show, None, key)
  {
  }

  lemma OutcomeFills<ID(!new), R(!new)>(c: Lookup<ID, R>, show: R -> Market<ID>, slot: Option<Market<ID>>, key: Key)
    requires c.Lawful() && SlotIsOutcome(c, show, slot, key) && (c.Outcome(key).Some? ==> slot.Some?)
    ensures SlotIsFull(c, show, slot, key)
  {
    hide Lookup.Outcome;
  }
}
