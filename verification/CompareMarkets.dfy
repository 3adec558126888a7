/** What a comparison of the two providers' prices shows, field by field. */
module CompareMarkets {
  import opened Decimal
  import opened MarketKey
  import opened PipelineSpec
  import opened ComparisonSlots
  import opened CompareRuns
  import opened CompareLookups
  import CG = CoinGeckoMarket
  import CMC = CoinMarketCapMarket

  /** In every interleaving, each half of a pair is empty or has the identifier, the price and the
      change of its key's outcome; a half that no requested key feeds is empty. */
  lemma PairsShowRecords(
      c: Lookup<string, CG.Record>, traceA: seq<Step<string, CG.Record>>,
      d: Lookup<int, CMC.Record>, traceB: seq<Step<int, CMC.Record>>, n: nat, schedule: seq<Action>)
    requires Finished(c, CG.ToMarket, n, traceA) && Finished(d, CMC.ToMarket, n, traceB)
    requires var all := Comparing(CG.ToMarket, traceA, CMC.ToMarket, traceB, n);
             all.Runs(schedule) && all.After(schedule).response.Returned?
    ensures c.Lawful() && d.Lawful()
    ensures var pairs := Comparing(CG.ToMarket, traceA, CMC.ToMarket, traceB, n).After(schedule).response.pairs;
            && |pairs| == n
            && (forall i, key | 0 <= i < n && i in c.Indexes(key) && pairs[i].cg.Some? ::
                  && c.Outcome(key).Some?
                  && pairs[i].cg.value.id == c.Outcome(key).value.coinGeckoID
                  && pairs[i].cg.value.priceUSD == c.Outcome(key).value.priceUSD
                  && pairs[i].cg.value.change24HPercent == c.Outcome(key).value.change24HPercent)
            && (forall i, key | 0 <= i < n && i in d.Indexes(key) && pairs[i].cmc.Some? ::
                  && d.Outcome(key).Some?
                  && pairs[i].cmc.value.id == d.Outcome(key).value.coinMarketCapID
                  && pairs[i].cmc.value.priceUSD == d.Outcome(key).value.priceUSD
                  && pairs[i].cmc.value.change24HPercent == d.Outcome(key).value.change24H)
            && (forall i | 0 <= i < n && (forall key | key in c.req.keyOrder :: i !in c.Indexes(key)) ::
                  pairs[i].cg.None?)
            && (forall i | 0 <= i < n && (forall key | key in d.req.keyOrder :: i !in d.Indexes(key)) ::
                  pairs[i].cmc.None?)
  {
    ResponseShowsOutcomes(c, CG.ToMarket, traceA, d, CMC.ToMarket, traceB, n, schedule);
    hide *;
    var pairs := Comparing(CG.ToMarket, traceA, CMC.ToMarket, traceB, n).After(schedule).response.pairs;
    forall i, key | 0 <= i < n && i in c.Indexes(key) && pairs[i].cg.Some?
      ensures c.Outcome(key).Some? && pairs[i].cg == Some(CG.ToMarket(c.Outcome(key).value))
    {
      SlotIs(c, CG.ToMarket, pairs[i].cg, key);
    }
    forall i, key | 0 <= i < n && i in d.Indexes(key) && pairs[i].cmc.Some?
      ensures d.Outcome(key).Some? && pairs[i].cmc == Some(CMC.ToMarket(d.Outcome(key).value))
    {
      SlotIs(d, CMC.ToMarket, pairs[i].cmc, key);
    }
    forall r
      ensures CG.ToMarket(r) == Market(r.coinGeckoID, r.priceUSD, r.change24HPercent)
    {
      CG.ShownIs(r);
    }
    forall r
      ensures CMC.ToMarket(r) == Market(r.coinMarketCapID, r.priceUSD, r.change24H)
    {
      CMC.ShownIs(r);
    }
    forall i | 0 <= i < n
      ensures (forall key | key in c.req.keyOrder :: i !in c.Indexes(key)) ==> IsUnfed(c, i)
      ensures (forall key | key in d.req.keyOrder :: i !in d.Indexes(key)) ==> IsUnfed(d, i)
    {
      UnfedIs(c, i);
      UnfedIs(d, i);
    }
  }

  lemma SlotIs<ID(!new), R(!new)>(c: Lookup<ID, R>, show: R -> Market<ID>, slot: Option<Market<ID>>, key: Key)
    requires c.Lawful() && SlotIsOutcome(c, show, slot, key) && slot.Some?
    ensures c.Outcome(key).Some? && slot == Some(show(c.Outcome(key).value))
  {
    hide Lookup.Outcome, Lookup.Lawful;
  }

  lemma UnfedIs<ID(!new), R(!new)>(c: Lookup<ID, R>, i: nat)
    ensures IsUnfed(c, i) <==> forall key | key in c.req.keyOrder :: i !in c.Indexes(key)
  {
    hide Lookup.Indexes;
  }
}
