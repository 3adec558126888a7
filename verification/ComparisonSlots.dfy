/** Output slots of a lookup run, at its end and at every point where its progress is published. */
module ComparisonSlots {
  import opened Decimal
  import opened MarketKey
  import opened PipelineSpec
  import opened MarketPipeline
  import opened PipelineTheorems

  /** Comparison data of one provider for one token. */
  datatype Market<+ID> = Market(id: ID, priceUSD: Option<string>, change24HPercent: Option<real>)

  /** A finished run's slots, from what holds of its trace. */
  lemma SlotsOfRun<ID(!new), R(!new), O>(run: Cascade<ID, R, O>)
    requires run.Valid() && NoDuplicates(run.c.req.keyOrder) && DisjointIndexes(run.c.req)
    ensures run.c.Lawful() && |run.start| == run.out.Length
    ensures forall i, key | 0 <= i < run.out.Length && i in run.c.Indexes(key) ::
              if key in run.seen.complete then
                run.c.Outcome(key).Some? && run.out[i] == run.render(run.start[i], run.c.Outcome(key).value)
              else run.out[i] == run.start[i]
    ensures forall i | 0 <= i < run.out.Length &&
            (forall key | key in run.c.req.keyOrder :: i !in run.c.Indexes(key)) ::
              run.out[i] == run.start[i]
  {
    RunFacts(run);
    hide *;
    forall i | 0 <= i < run.out.Length
      ensures forall key | i in run.c.Indexes(key) ::
                if key in run.seen.complete then
                  run.c.Outcome(key).Some? && run.out[i] == run.render(run.start[i], run.c.Outcome(key).value)
                else run.out[i] == run.start[i]
      ensures (forall key | key in run.c.req.keyOrder :: i !in run.c.Indexes(key)) ==> run.out[i] == run.start[i]
    {
      SlotsWrittenOnce(run.c, run.render, run.start, run.trace, i);
      assert run.out[i] == run.out[..][i];
      forall key | i in run.c.Indexes(key)
        ensures forall other | other in run.seen.complete && i in run.c.Indexes(other) :: other == key
      {
        forall other | other in run.seen.complete && i in run.c.Indexes(other)
          ensures other == key
        {
          OtherSlots(run.c, key, other, i);
        }
      }
    }
  }

  lemma RunFacts<ID(!new), R(!new), O>(run: Cascade<ID, R, O>)
    requires run.Valid()
    ensures run.c.Lawful() && run.c.Monitored(run.trace) && InRange(run.trace, |run.start|)
    ensures |run.start| == run.out.Length
    ensures run.out[..] == Output(run.render, run.start, run.trace) && run.seen == run.c.Watch(run.trace)
    ensures forall key | key in run.seen.complete :: key in run.c.req.keyOrder
    ensures run.seen.effects == EffectsOf(run.trace) && run.cancelled == run.c.CancelledBy(|run.trace|)
  {
    WatchedEffects(run.c, run.trace);
    hide EffectsOf, Output, InRange;
  }

  /* ---------- partial views ---------- */

  /** The later column shows everything the earlier one shows, unchanged. */
  ghost predicate KeptBy<T>(earlier: seq<Option<T>>, later: seq<Option<T>>) {
    |earlier| == |later| && forall i | 0 <= i < |earlier| && earlier[i].Some? :: later[i] == earlier[i]
  }

  /** Each column shows everything every earlier one shows. */
  ghost predicate Growing<T>(columns: seq<seq<Option<T>>>) {
    forall i, j | 0 <= i <= j < |columns| :: KeptBy(columns[i], columns[j])
  }

  lemma KeptByAll<T>(a: seq<Option<T>>, b: seq<Option<T>>, c: seq<Option<T>>)
    requires KeptBy(a, b) && KeptBy(b, c)
    ensures KeptBy(a, c)
  {
  }

  /** What the output holds at each progress call of a run, and last when the run is over. */
  ghost function Published<ID(!new), R(!new), O>(render: (O, R) -> O, start: seq<O>,
                                                 trace: seq<Step<ID, R>>): (columns: seq<seq<O>>)
    requires InRange(trace, |start|)
    ensures |columns| > 0 && columns[|columns| - 1] == Output(render, start, trace)
  {
    Calls(render, start, trace) + [Output(render, start, trace)]
  }

  ghost function Calls<ID(!new), R(!new), O>(render: (O, R) -> O, start: seq<O>, trace: seq<Step<ID, R>>): seq<seq<O>>
    requires InRange(trace, |start|)
  {
    if trace == [] then [] else
      Calls(render, start, trace[..|trace| - 1]) + if trace[|trace| - 1].effect.Progress? then
          [Output(render, start, trace)] else []
  }

  /** Every call of a run's progress callback shows what it will show at the end or nothing, slot
      by slot, and nothing shown is taken back. */
  lemma {:induction false} PublishedGrows<ID(!new), R(!new), T>(c: Lookup<ID, R>, render: (Option<T>, R) -> Option<T>,
                                                                start: seq<Option<T>>,
                                                                 trace: seq<Step<ID, R>>)
    requires c.Lawful() && c.Monitored(trace) && InRange(trace, |start|)
    requires NoDuplicates(c.req.keyOrder) && DisjointIndexes(c.req)
    requires forall i | 0 <= i < |start| :: start[i].None?
    ensures Growing(Published(render, start, trace))
  {
    hide *;
    if trace == [] {
      PublishedNothing<ID, R, T>(render, start);
    } else {
      var front := trace[..|trace| - 1];
      FrontFacts(c, render, start, trace);
      PublishedGrows(c, render, start, front);
      LaterKeeps(c, render, start, trace);
      PublishedParts(render, start, trace);
      GrowsStep(Calls(render, start, front), Output(render, start, front), Output(render, start, trace),
                Published(render, start, trace));
    }
  }

  lemma PublishedNothing<ID(!new), R(!new), T>(render: (Option<T>, R) -> Option<T>, start: seq<Option<T>>)
    ensures InRange<ID, R>([], |start|) && Growing(Published<ID, R, Option<T>>(render, start, []))
  {
  }

  lemma FrontFacts<ID(!new), R(!new), T>(c: Lookup<ID, R>, render: (Option<T>, R) -> Option<T>, start: seq<Option<T>>,
                                               trace: seq<Step<ID, R>>)
    requires trace != [] && c.Lawful() && c.Monitored(trace) && InRange(trace, |start|)
    ensures c.Monitored(trace[..|trace| - 1]) && InRange(trace[..|trace| - 1], |start|)
  {
    MonitoredPrefix(c, trace, |trace| - 1);
  }

  lemma LaterKeeps<ID(!new), R(!new), T>(c: Lookup<ID, R>, render: (Option<T>, R) -> Option<T>, start: seq<Option<T>>,
                                               trace: seq<Step<ID, R>>)
    requires trace != [] && c.Lawful() && c.Monitored(trace) && InRange(trace, |start|)
    requires InRange(trace[..|trace| - 1], |start|)
    requires NoDuplicates(c.req.keyOrder) && DisjointIndexes(c.req)
    requires forall i | 0 <= i < |start| :: start[i].None?
    ensures KeptBy(Output(render, start, trace[..|trace| - 1]), Output(render, start, trace))
  {
    hide *;
    forall i | 0 <= i < |start|
      ensures var now := Output(render, start, trace[..|trace| - 1])[i];
              now == start[i] || now == Output(render, start, trace)[i]
    {
      EverySlotIsFinalOrUntouched(c, render, start, trace, |trace| - 1, i);
    }
    KeptFromStart(start, Output(render, start, trace[..|trace| - 1]), Output(render, start, trace));
  }

  lemma KeptFromStart<T>(start: seq<Option<T>>, now: seq<Option<T>>, later: seq<Option<T>>)
    requires |start| == |now| == |later| && forall i | 0 <= i < |start| :: start[i].None?
    requires forall i | 0 <= i < |start| :: now[i] == start[i] || now[i] == later[i]
    ensures KeptBy(now, later)
  {
  }

  lemma PublishedParts<ID(!new), R(!new), T>(render: (Option<T>, R) -> Option<T>, start: seq<Option<T>>,
                                             trace: seq<Step<ID, R>>)
    requires trace != [] && InRange(trace, |start|) && InRange(trace[..|trace| - 1], |start|)
    ensures var front, now := trace[..|trace| - 1], Output(render, start, trace);
            var before := Calls(render, start, front);
            && Published(render, start, front) == before + [Output(render, start, front)]
            && (|| Published(render, start, trace) == before + [now]
                || Published(render, start, trace) == before + [now] + [now])
  {
    hide Output, InRange;
  }

  lemma GrowsStep<T>(before: seq<seq<Option<T>>>, last: seq<Option<T>>, now: seq<Option<T>>,
                     columns: seq<seq<Option<T>>>)
    requires Growing(before + [last]) && KeptBy(last, now)
    requires columns == before + [now] || columns == before + [now] + [now]
    ensures Growing(columns)
  {
    hide *;
    KeepAllToo(before, last, now);
    SelfKept(now);
    GrowsBy(before, now, columns);
  }

  lemma SelfKept<T>(column: seq<Option<T>>)
    ensures KeptBy(column, column)
  {
  }

  lemma KeepAllToo<T>(before: seq<seq<Option<T>>>, last: seq<Option<T>>, now: seq<Option<T>>)
    requires Growing(before + [last]) && KeptBy(last, now)
    ensures Growing(before) && forall i | 0 <= i < |before| :: KeptBy(before[i], now)
  {
    hide KeptBy;
    var all := before + [last];
    forall i | 0 <= i < |before|
      ensures KeptBy(before[i], now)
    {
      assert KeptBy(all[i], all[|before|]);
      KeptByAll(before[i], last, now);
    }
    forall i, j | 0 <= i <= j < |before|
      ensures KeptBy(before[i], before[j])
    {
      assert KeptBy(all[i], all[j]);
    }
  }

  lemma GrowsBy<T>(before: seq<seq<Option<T>>>, now: seq<Option<T>>, columns: seq<seq<Option<T>>>)
    requires Growing(before) && KeptBy(now, now) && (forall i | 0 <= i < |before| :: KeptBy(before[i], now))
    requires columns == before + [now] || columns == before + [now] + [now]
    ensures Growing(columns)
  {
    hide KeptBy;
    forall i, j | 0 <= i <= j < |columns|
      ensures KeptBy(columns[i], columns[j])
    {
      assert columns[i] == if i < |before| then before[i] else now;
      assert columns[j] == if j < |before| then before[j] else now;
    }
  }

  /* ---------- a comparison lookup ---------- */

  /** Each slot is empty or shows the outcome of its token's key; without cancellation it shows it
      exactly when there is one.  A slot no key feeds is empty. */
  ghost predicate ShowsOutcomes<ID(!new), R(!new)>(c: Lookup<ID, R>, show: R -> Market<ID>, cancelled: bool,
                                                   result: seq<Option<Market<ID>>>)
    requires c.Lawful()
  {
    && (forall i, key | 0 <= i < |result| && i in c.Indexes(key) ::
          && (result[i].Some? ==> c.Outcome(key).Some? && result[i] == Some(show(c.Outcome(key).value)))
          && (!cancelled && c.Outcome(key).Some? ==> result[i].Some?))
    && (forall i | 0 <= i < |result| && (forall key | key in c.req.keyOrder :: i !in c.Indexes(key)) :: result[i].None?)
  }

  ghost predicate IndexesFit<ID(!new), R(!new)>(c: Lookup<ID, R>, n: nat) {
    && NoDuplicates(c.req.keyOrder) && DisjointIndexes(c.req)
    && (forall key, i | key in c.req.indexesByKey && 0 <= i < |c.req.indexesByKey[key]| ::
        c.req.indexesByKey[key][i] < n)
    && (forall key | key in c.req.indexesByKey :: key in c.req.keyOrder)
  }

  lemma EmptyFits<ID(!new), R(!new)>(c: Lookup<ID, R>, n: nat)
    ensures c.req == Request([], map[], map[]) ==> IndexesFit(c, n)
  {
  }

  /** A comparison slot shows a record whatever it showed before. */
  function Rendering<ID, R>(show: R -> Market<ID>): (Option<Market<ID>>, R) -> Option<Market<ID>> {
    (slot, r) => Some(show(r))
  }

  function Blank<T>(n: nat): (column: seq<Option<T>>)
    ensures |column| == n && forall i | 0 <= i < n :: column[i].None?
  {
    seq(n, _ => None)
  }

  /** What a lookup has written after a trace. */
  ghost function Answered<ID(!new), R(!new)>(show: R -> Market<ID>, n: nat,
                                             trace: seq<Step<ID, R>>): (answer: seq<Option<Market<ID>>>)
    requires InRange(trace, n)
    ensures |answer| == n
  {
    Output(Rendering(show), Blank(n), trace)
  }

  /** What a lookup hands to its progress callback, at each progress call of its trace, and its
      answer last. */
  ghost function Columns<ID(!new), R(!new)>(show: R -> Market<ID>, n: nat,
                                            trace: seq<Step<ID, R>>): (columns: seq<seq<Option<Market<ID>>>>)
    requires InRange(trace, n)
    ensures columns != [] && columns[|columns| - 1] == Answered(show, n, trace)
  {
    Published(Rendering(show), Blank(n), trace)
  }

  /** The trace of a finished lookup over `n` slots: every effect was allowed, the effects follow
      the plan as far as a cancellation let them, and the answer shows outcomes. */
  ghost predicate Finished<ID(!new), R(!new)>(c: Lookup<ID, R>, show: R -> Market<ID>, n: nat,
                                              trace: seq<Step<ID, R>>) {
    && c.Lawful() && IndexesFit(c, n) && c.Monitored(trace) && InRange(trace, n)
    && EffectsOf(trace) <= c.Plan() && (!c.CancelledBy(|trace|) ==> EffectsOf(trace) == c.Plan())
    && ShowsOutcomes(c, show, c.CancelledBy(|trace|), Answered(show, n, trace))
  }

  /** The slot shows the outcome of a requested key that feeds it. */
  ghost predicate ShowsFed<ID(!new), R(!new)>(c: Lookup<ID, R>, show: R -> Market<ID>, i: nat, slot: Market<ID>)
    requires c.Lawful()
  {
    exists key :: key in c.req.keyOrder && i in c.Indexes(key) && c.Outcome(key).Some?
               && slot == show(c.Outcome(key).value)
  }

  method LookupColumn<ID(==,!new), R(==,!new)>(c: Lookup<ID, R>, show: R -> Market<ID>, n: nat)
    returns (result: seq<Option<Market<ID>>>, ghost trace: seq<Step<ID, R>>)
    requires c.Lawful() && IndexesFit(c, n)
    ensures |result| == n
    ensures forall i | 0 <= i < n && result[i].Some? :: ShowsFed(c, show, i, result[i].value)
    ensures Finished(c, show, n, trace) && result == Answered(show, n, trace)
  {
    hide *;
    var out := new Option<Market<ID>>[n](_ => None);
    FitFacts(c, n);
    var cascade := new Cascade(c, Rendering(show), out);
    assert out[..] == Blank(n);
    var complete := cascade.Run();
    result, trace := out[..], cascade.trace;
    SlotsOfRun(cascade);
    RunFacts(cascade);
    RenderingIs(show);
    ShownByRun(cascade, show, result, complete);
    FinishedIs(c, show, n, trace, result);
    forall i | 0 <= i < n && result[i].Some?
      ensures ShowsFed(c, show, i, result[i].value)
    {
      var key := FilledIsFed(c, show, n, trace, i);
      FedIs(c, show, i, key);
    }
  }

  lemma FedIs<ID(!new), R(!new)>(c: Lookup<ID, R>, show: R -> Market<ID>, i: nat, key: Key)
    requires c.Lawful() && key in c.req.keyOrder && i in c.Indexes(key) && c.Outcome(key).Some?
    ensures ShowsFed(c, show, i, show(c.Outcome(key).value))
  {
  }

  lemma RenderingIs<ID(!new), R(!new)>(show: R -> Market<ID>)
    ensures forall slot, r :: Rendering(show)(slot, r) == Some(show(r))
  {
  }

  lemma FinishedIs<ID(!new), R(!new)>(c: Lookup<ID, R>, show: R -> Market<ID>, n: nat, trace: seq<Step<ID, R>>,
                                      result: seq<Option<Market<ID>>>)
    requires c.Lawful() && IndexesFit(c, n) && c.Monitored(trace) && InRange(trace, n)
    requires EffectsOf(trace) <= c.Plan() && (!c.CancelledBy(|trace|) ==> EffectsOf(trace) == c.Plan())
    requires result == Output(Rendering(show), Blank(n), trace)
    requires ShowsOutcomes(c, show, c.CancelledBy(|trace|), result)
    ensures Finished(c, show, n, trace) && result == Answered(show, n, trace)
  {
    hide ShowsOutcomes, IndexesFit, Lookup.Monitored, Lookup.CancelledBy, Lookup.Plan, InRange, EffectsOf, Output,
         Lookup.Lawful;
  }

  /** A finished lookup hands out growing columns of one length, and ends with its answer. */
  lemma ColumnsGrow<ID(!new), R(!new)>(c: Lookup<ID, R>, show: R -> Market<ID>, n: nat, trace: seq<Step<ID, R>>)
    requires Finished(c, show, n, trace)
    ensures Growing(Columns(show, n, trace))
    ensures forall i | 0 <= i < |Columns(show, n, trace)| :: |Columns(show, n, trace)[i]| == n
  {
    hide *;
    FinishedParts(c, show, n, trace);
    FitFacts(c, n);
    PublishedGrows(c, Rendering(show), Blank(n), trace);
    ColumnsAre(show, n, trace);
    SameLength(Columns(show, n, trace));
  }

  lemma FinishedParts<ID(!new), R(!new)>(c: Lookup<ID, R>, show: R -> Market<ID>, n: nat, trace: seq<Step<ID, R>>)
    requires Finished(c, show, n, trace)
    ensures c.Lawful() && IndexesFit(c, n) && c.Monitored(trace) && InRange(trace, n)
    ensures EffectsOf(trace) <= c.Plan() && (!c.CancelledBy(|trace|) ==> EffectsOf(trace) == c.Plan())
    ensures ShowsOutcomes(c, show, c.CancelledBy(|trace|), Answered(show, n, trace))
  {
    hide ShowsOutcomes, IndexesFit, Lookup.Monitored, Lookup.CancelledBy, Lookup.Plan, InRange, EffectsOf, Output,
         Lookup.Lawful;
  }

  /** A slot that shows something shows the outcome of every key it belongs to. */
  lemma FilledShows<ID(!new), R(!new)>(c: Lookup<ID, R>, show: R -> Market<ID>, n: nat, trace: seq<Step<ID, R>>, i: nat,
                                       key: Key)
    requires Finished(c, show, n, trace) && i < n && InRange(trace, n) && Answered(show, n, trace)[i].Some?
    requires i in c.Indexes(key)
    ensures c.Lawful() && c.Outcome(key).Some? && Answered(show, n, trace)[i] == Some(show(c.Outcome(key).value))
  {
    FinishedParts(c, show, n, trace);
    hide Lookup.Outcome, Lookup.Indexes, Lookup.Lawful, Finished, Answered, Lookup.CancelledBy, InRange;
  }

  /** A slot that shows something shows the outcome of a key that feeds it, and at most one effect
      of the lookup wrote it. */
  lemma FilledIsFed<ID(!new), R(!new)>(c: Lookup<ID, R>, show: R -> Market<ID>, n: nat, trace: seq<Step<ID, R>>, i: nat)
    returns (key: Key)
    requires Finished(c, show, n, trace) && i < n && InRange(trace, n) && Answered(show, n, trace)[i].Some?
    ensures c.Lawful() && key in c.req.keyOrder && i in c.Indexes(key) && c.Outcome(key).Some?
    ensures Answered(show, n, trace)[i] == Some(show(c.Outcome(key).value))
    ensures forall j, k | 0 <= j < k < |trace| && trace[j].effect.Applied? && trace[k].effect.Applied? ::
              !(i in trace[j].effect.indexes && i in trace[k].effect.indexes)
  {
    hide *;
    FinishedParts(c, show, n, trace);
    FitFacts(c, n);
    key := FeedingKey(c, show, c.CancelledBy(|trace|), Answered(show, n, trace), i);
    forall j, k | 0 <= j < k < |trace| && trace[j].effect.Applied? && trace[k].effect.Applied?
      ensures !(i in trace[j].effect.indexes && i in trace[k].effect.indexes)
    {
      OneWriteASlot(c, trace, j, k, i);
    }
  }

  lemma FeedingKey<ID(!new), R(!new)>(c: Lookup<ID, R>, show: R -> Market<ID>, cancelled: bool,
                                      result: seq<Option<Market<ID>>>,
                                      i: nat) returns (key: Key)
    requires c.Lawful() && ShowsOutcomes(c, show, cancelled, result) && i < |result| && result[i].Some?
    ensures key in c.req.keyOrder && i in c.Indexes(key) && c.Outcome(key).Some?
    ensures result[i] == Some(show(c.Outcome(key).value))
  {
    hide Lookup.Outcome, Lookup.Indexes, Lookup.Lawful;
    key :| key in c.req.keyOrder && i in c.Indexes(key);
  }

  lemma ColumnsAre<ID(!new), R(!new)>(show: R -> Market<ID>, n: nat, trace: seq<Step<ID, R>>)
    requires InRange(trace, n)
    ensures Columns(show, n, trace) == Published(Rendering(show), Blank(n), trace)
  {
    hide Published, InRange;
  }

  lemma SameLength<T>(columns: seq<seq<Option<T>>>)
    requires Growing(columns) && columns != []
    ensures forall i | 0 <= i < |columns| :: |columns[i]| == |columns[|columns| - 1]|
  {
    forall i | 0 <= i < |columns|
      ensures |columns[i]| == |columns[|columns| - 1]|
    {
      assert KeptBy(columns[i], columns[|columns| - 1]);
    }
  }

  lemma FitFacts<ID(!new), R(!new)>(c: Lookup<ID, R>, n: nat)
    requires IndexesFit(c, n)
    ensures NoDuplicates(c.req.keyOrder) && DisjointIndexes(c.req)
    ensures forall key, i | key in c.req.indexesByKey && 0 <= i < |c.req.indexesByKey[key]| ::
              c.req.indexesByKey[key][i] < n
    ensures forall i, key | i in c.Indexes(key) :: key in c.req.keyOrder
  {
    hide NoDuplicates, DisjointIndexes;
  }

  lemma ShownByRun<ID(!new), R(!new)>(run: Cascade<ID, R, Option<Market<ID>>>, show: R -> Market<ID>,
                                      result: seq<Option<Market<ID>>>, complete: set<Key>)
    requires run.c.Lawful() && complete == run.seen.complete && result == run.out[..] && |run.start| == run.out.Length
    requires forall i | 0 <= i < |run.start| :: run.start[i].None?
    requires forall slot, r :: run.render(slot, r) == Some(show(r))
    requires forall i, key | 0 <= i < run.out.Length && i in run.c.Indexes(key) ::
               if key in complete then
                 run.c.Outcome(key).Some? && run.out[i] == run.render(run.start[i], run.c.Outcome(key).value)
               else run.out[i] == run.start[i]
    requires forall i | 0 <= i < run.out.Length &&
             (forall key | key in run.c.req.keyOrder :: i !in run.c.Indexes(key)) ::
               run.out[i] == run.start[i]
    requires forall i, key | i in run.c.Indexes(key) :: key in run.c.req.keyOrder
    requires !run.cancelled ==> forall key | key in run.c.req.keyOrder && run.c.Outcome(key).Some? :: key in complete
    ensures ShowsOutcomes(run.c, show, run.cancelled, result)
  {
    hide Lookup.Outcome, Lookup.Indexes, Lookup.Lawful;
  }
}
