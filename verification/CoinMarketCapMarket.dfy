/** CoinMarketCap lookups: resolving tokens to catalog identifiers, and the comparison lookup. */
module CoinMarketCapMarket {
  import opened Decimal
  import opened MarketKey
  import opened PipelineSpec
  import opened MarketPipeline
  import opened PipelineTheorems
  import opened ComparisonSlots
  import opened Requests
  import opened Wallet
  import Catalogs = CoinMarketCapCatalog

  const PRICE_BATCH_LIMIT := 50

  datatype Record = Record(key: Key, coinMarketCapID: int, priceUSD: Option<string>, change24H: Option<real>,
                           fetchedAt: int)

  /** One identifier's answer from the price client; absent fields are absent or invalid. */
  datatype SimplePrice = SimplePrice(id: int, usd: Option<string>, change24h: Option<real>)

  /** Service settings. */
  datatype Service = Service(platformID: int, nativeID: int, chain: string, ttl: int, missTtl: int, now: int)

  /* ---------- resolving tokens ---------- */

  predicate ReadsAsNative(t: Token) {
    t.isNative || t.tokenAddress.None?
  }

  function KeyOf(s: Service, t: Token): Key {
    if ReadsAsNative(t) then NativeKey(s.chain, t.symbol) else ContractKey(s.chain, t.tokenAddress.value)
  }

  /** The configured native identifier, or what a scan of the catalog rows gives the contract. */
  ghost function IdOf(s: Service, rows: iset<Catalogs.CoinMapping>, t: Token): Option<int> {
    if ReadsAsNative(t) then (if s.nativeID > 0 then Some(s.nativeID) else None)
    else if TrimSpace(t.tokenAddress.value) != "" then
      Catalogs.ContractScan(rows, s.platformID, t.tokenAddress.value, t.symbol)
    else None
  }

  ghost function Resolved(s: Service, rows: iset<Catalogs.CoinMapping>, t: Token): Resolution<int> {
    match IdOf(s, rows, t) case None => None case Some(id) => Some((KeyOf(s, t), id))
  }

  ghost function ResolvedAll(s: Service, rows: iset<Catalogs.CoinMapping>, tokens: seq<Token>): seq<Resolution<int>> {
    seq(|tokens|, i requires 0 <= i < |tokens| => Resolved(s, rows, tokens[i]))
  }

  /** The request lists each key once, and feeds it exactly the tokens that have that key and
      resolve to the identifier of the first of them. */
  ghost predicate Resolves(s: Service, rows: iset<Catalogs.CoinMapping>, tokens: seq<Token>, req: Request<int>) {
    Collects(true, ResolvedAll(s, rows, tokens), req)
  }

  ghost function RowsOf(catalog: Option<Catalogs.Catalog>,
                        rows: seq<Catalogs.CoinMapping>): iset<Catalogs.CoinMapping> {
    if catalog.None? then iset{} else Catalogs.RowSet(rows)
  }

  method ResolveToken(s: Service, catalog: Option<Catalogs.Catalog>, ghost rows: seq<Catalogs.CoinMapping>,
                      token: Token)
    returns (resolution: Resolution<int>)
    requires catalog.Some? ==> Catalogs.Indexes(catalog.value, rows)
    ensures resolution == Resolved(s, RowsOf(catalog, rows), token)
  {
    hide TrimSpace, ContractKey, NativeKey, Catalogs.ContractScan, Catalogs.Indexes;
    if token.isNative || token.tokenAddress.None? {
      return if s.nativeID > 0 then Some((NativeKey(s.chain, token.symbol), s.nativeID)) else None;
    }
    if TrimSpace(token.tokenAddress.value) == "" {
      return None;
    }
    var id := None;
    if catalog.Some? {
      id := Catalogs.ResolveContract(catalog.value, rows, s.platformID, token.tokenAddress.value, token.symbol);
    } else {
      NoRows(s.platformID, token.tokenAddress.value, token.symbol);
    }
    if id.None? {
      return None;
    }
    return Some((ContractKey(s.chain, token.tokenAddress.value), id.value));
  }

  /** Without a catalog there are no rows, and no contract resolves. */
  lemma NoRows(platformID: int, address: string, symbol: string)
    ensures Catalogs.ContractScan(iset{}, platformID, address, symbol) == None
  {
    hide Catalogs.IsContractRow, Catalogs.ContractLookupKey, Catalogs.SymbolMatches, TrimSpace;
    assert Catalogs.ScanIds(iset{}, platformID, address, "") == iset{};
    assert Catalogs.ScanIds(iset{}, platformID, address, TrimSpace(symbol)) == iset{};
  }

  method Resolve(s: Service, catalog: Option<Catalogs.Catalog>, ghost rows: seq<Catalogs.CoinMapping>,
                 tokens: seq<Token>)
    returns (req: Request<int>)
    requires catalog.Some? ==> Catalogs.Indexes(catalog.value, rows)
    ensures Resolves(s, RowsOf(catalog, rows), tokens, req)
  {
    hide *;
    req := Request([], map[], map[]);
    NothingCollected<int>(true);
    ghost var all := ResolvedAll(s, RowsOf(catalog, rows), tokens);
    assert all[..0] == [];
    AllResolved(s, RowsOf(catalog, rows), tokens);
    for i := 0 to |tokens|
      invariant Collects(true, all[..i], req)
    {
      var resolution := ResolveToken(s, catalog, rows, tokens[i]);
      assert all[..i + 1] == all[..i] + [resolution];
      CollectStep(true, all[..i], req, resolution);
      req := WithToken(true, req, resolution, i);
    }
    assert all[..|tokens|] == all;
    ResolvesIs(s, RowsOf(catalog, rows), tokens, req);
  }

  lemma AllResolved(s: Service, rows: iset<Catalogs.CoinMapping>, tokens: seq<Token>)
    ensures |ResolvedAll(s, rows, tokens)| == |tokens|
    ensures forall i | 0 <= i < |tokens| :: ResolvedAll(s, rows, tokens)[i] == Resolved(s, rows, tokens[i])
  {
  }

  lemma ResolvesIs(s: Service, rows: iset<Catalogs.CoinMapping>, tokens: seq<Token>, req: Request<int>)
    ensures Resolves(s, rows, tokens, req) <==> Collects(true, ResolvedAll(s, rows, tokens), req)
  {
  }

  /** Every token of a key, whatever its kind, resolves to the identifier the request expects for
      the key; a token left out of its key's list resolves to another one, or to none. */
  lemma TokensAgree(s: Service, rows: iset<Catalogs.CoinMapping>, tokens: seq<Token>, req: Request<int>, i: nat)
    requires Resolves(s, rows, tokens, req) && i < |tokens|
    ensures var key := KeyOf(s, tokens[i]);
            (exists k :: k in req.indexesByKey && i in req.indexesByKey[k]) <==>
              key in req.expectedId && IdOf(s, rows, tokens[i]) == Some(req.expectedId[key])
    ensures forall k | k in req.indexesByKey && i in req.indexesByKey[k] :: k == KeyOf(s, tokens[i])
  {
    AllResolved(s, rows, tokens);
    hide IdOf, KeyOf, ResolvedAll, FirstDecides;
    var key := KeyOf(s, tokens[i]);
    if key in req.expectedId && IdOf(s, rows, tokens[i]) == Some(req.expectedId[key]) {
      assert key in req.indexesByKey && i in req.indexesByKey[key];
    }
  }

  lemma ResolvedFits(s: Service, rows: iset<Catalogs.CoinMapping>, tokens: seq<Token>, c: Lookup<int, Record>)
    requires Resolves(s, rows, tokens, c.req)
    ensures IndexesFit(c, |tokens|)
  {
    CollectedIsDisjoint(true, ResolvedAll(s, rows, tokens), c.req);
    hide IdOf, KeyOf, DisjointIndexes, NoDuplicates, Feeds, FirstDecides;
  }

  /* ---------- the provider half of the cascade ---------- */

  predicate Matches(r: Record, expected: int) {
    r.coinMarketCapID == expected
  }

  function FetchedAt(r: Record): int {
    r.fetchedAt
  }

  function RecordKey(r: Record): Key {
    r.key
  }

  function WithKey(r: Record, key: Key): Record {
    r.(key := key)
  }

  /** A record is worth showing, and counts as an answer, if it has a price or a change. */
  predicate HasData(r: Record) {
    r.priceUSD.Some? || r.change24H.Some?
  }

  /** A comparison has no use for stale records; the last one seen is as good as any. */
  function LastSeen(noted: Option<Record>, r: Record): Record {
    r
  }

  predicate IntLess(a: int, b: int) {
    a < b
  }

  /** What a run meets outside: loads, price answers by batch with the time of the answer, save
      outcomes and cancellations by effect. */
  datatype Calls = Calls(
    cache: Reply<map<Key, Record>>,
    store: Reply<map<Key, Record>>,
    misses: Reply<set<Key>>,
    prices: seq<int> -> Reply<map<int, SimplePrice>>,
    answeredAt: seq<int> -> int,
    saves: nat -> bool,
    raises: nat -> bool,
    cancelledAtStart: bool)

  function RecordFromPrice(id: int, price: SimplePrice, fetchedAt: int): Record {
    Record(Key("", ""), id, price.usd, price.change24h, fetchedAt)
  }

  /** The records of one batch: the asked identifiers whose answer names that same identifier. */
  function RecordsFrom(prices: Reply<map<int, SimplePrice>>, ids: seq<int>, fetchedAt: int): Reply<map<int, Record>> {
    match prices
    case Failed => Failed
    case Answer(found) => Answer(map id | id in ids && id in found && found[id].id == id ::
                                 RecordFromPrice(id, found[id], fetchedAt))
  }

  method FetchRecords(prices: Reply<map<int, SimplePrice>>, ids: seq<int>, fetchedAt: int)
    returns (records: Reply<map<int, Record>>)
    ensures records == RecordsFrom(prices, ids, fetchedAt)
  {
    if prices.Failed? {
      return Failed;
    }
    var found: map<int, Record> := map[];
    for i := 0 to |ids|
      invariant found == map id | id in ids[..i] && id in prices.value && prices.value[id].id == id ::
                           RecordFromPrice(id, prices.value[id], fetchedAt)
    {
      assert ids[..i + 1] == ids[..i] + [ids[i]];
      if ids[i] !in prices.value || prices.value[ids[i]].id != ids[i] {
        continue;
      }
      found := found[ids[i] := RecordFromPrice(ids[i], prices.value[ids[i]], fetchedAt)];
    }
    assert ids[..|ids|] == ids;
    return Answer(found);
  }

  function WorldOf(calls: Calls): World<int, Record> {
    World(calls.cache, calls.store, calls.misses,
          ids => RecordsFrom(calls.prices(ids), ids, calls.answeredAt(ids)),
          calls.saves, calls.raises, calls.cancelledAtStart)
  }

  function ProviderOf(s: Service): Provider<int, Record> {
    Provider(Matches, FetchedAt, RecordKey, WithKey, HasData, HasData, LastSeen, IntLess, 0, PRICE_BATCH_LIMIT,
             s.ttl, s.missTtl, s.now)
  }

  function LookupOf(s: Service, calls: Calls, req: Request<int>): Lookup<int, Record> {
    Lookup(ProviderOf(s), WorldOf(calls), req)
  }

  lemma LookupIsLawful(s: Service, calls: Calls, req: Request<int>)
    ensures LookupOf(s, calls, req).Lawful() && LookupOf(s, calls, req).req == req
    ensures LookupOf(s, calls, req) == LookupOf(s, calls, LookupOf(s, calls, req).req)
  {
  }

  /** The record is what one batch answered for its identifier, at the time of that answer. */
  predicate AnsweredIn(calls: Calls, ids: seq<int>, r: Record) {
    && calls.prices(ids).Answer? && r.coinMarketCapID in ids && r.coinMarketCapID in calls.prices(ids).value
    && calls.prices(ids).value[r.coinMarketCapID] == SimplePrice(r.coinMarketCapID, r.priceUSD, r.change24H)
    && r.fetchedAt == calls.answeredAt(ids)
  }

  /** Whatever a lookup gives a key carries that key and the identifier expected for it, has
      something to show, and is either within its lifetime or was just fetched. */
  lemma OutcomeIsOwn(s: Service, calls: Calls, req: Request<int>, key: Key)
    requires LookupOf(s, calls, req).Lawful() && LookupOf(s, calls, req).Outcome(key).Some?
    ensures var c := LookupOf(s, calls, req);
            var r := c.Outcome(key).value;
            && r.key == key && HasData(r) && (key in req.expectedId ==> r.coinMarketCapID == req.expectedId[key])
            && (c.IsFresh(r) || exists ids :: ids in c.Batches() && AnsweredIn(calls, ids, r))
  {
    var c := LookupOf(s, calls, req);
    if c.Local(key).None? {
      var id := req.expectedId[key];
      var ids := BatchOf(c.Batches(), id).value;
      BatchOfIsOne(c.Batches(), id);
      assert ids in c.Batches() && AnsweredIn(calls, ids, c.Outcome(key).value);
    }
  }

  /* ---------- what a key gets, from what the calls answer ---------- */

  /** A tier's answer holds a record of the key and identifier that is within its lifetime and shows
      a price or a change. */
  predicate TierHas(s: Service, tier: Reply<map<Key, Record>>, key: Key, id: int) {
    && tier.Answer? && key in tier.value && tier.value[key].coinMarketCapID == id
    && RemainingTTL(tier.value[key].fetchedAt, s.now, s.ttl) > 0
    && (tier.value[key].priceUSD.Some? || tier.value[key].change24H.Some?)
  }

  /** The answer to a batch shows a price or a change for an identifier, under that identifier. */
  predicate AnswerHas(answer: Reply<map<int, SimplePrice>>, id: int) {
    && answer.Answer? && id in answer.value && answer.value[id].id == id
    && (answer.value[id].usd.Some? || answer.value[id].change24h.Some?)
  }

  predicate HasMiss(calls: Calls, key: Key) {
    calls.misses.Answer? && key in calls.misses.value
  }

  /** A requested key gets the cache's record if that counts, else the store's, else, without a live
      miss, the answer of the one batch that asks for its identifier. */
  lemma OutcomeInFull(s: Service, calls: Calls, req: Request<int>, key: Key)
    requires key in req.keyOrder && key in req.expectedId
    ensures var c, id := LookupOf(s, calls, req), req.expectedId[key];
            && c.Lawful()
            && if TierHas(s, calls.cache, key, id) then c.Outcome(key) == Some(calls.cache.value[key].(key := key))
               else if TierHas(s, calls.store, key, id) then c.Outcome(key) == Some(calls.store.value[key].(key := key))
               else if HasMiss(calls, key) then c.Outcome(key) == None
               else
                 && (exists batch :: batch in c.Batches() && id in batch)
                 && forall batch | batch in c.Batches() && id in batch ::
                      c.Outcome(key) == if !AnswerHas(calls.prices(batch), id) then None else
                                          var price := calls.prices(batch).value[id];
                                          Some(Record(key, id, price.usd, price.change24h, calls.answeredAt(batch)))
  {
    var c, id := LookupOf(s, calls, req), req.expectedId[key];
    LookupIsLawful(s, calls, req);
    TierHasIs(s, calls, req, key);
    LocalIs(c, key);
    hide *;
    LookupCalls(s, calls, req, key);
    OutcomeOfTier(c, key);
    if !TierHas(s, calls.cache, key, id) && !TierHas(s, calls.store, key, id) {
      ProvidedIs(c, key);
      forall batch | batch in c.Batches() && id in batch && !HasMiss(calls, key)
        ensures c.Outcome(key) == if !AnswerHas(calls.prices(batch), id) then None else
                                    var price := calls.prices(batch).value[id];
                                    Some(Record(key, id, price.usd, price.change24h, calls.answeredAt(batch)))
      {
        AnswerHasIs(s, calls, req, batch, key);
      }
    }
  }

  lemma TierHasIs(s: Service, calls: Calls, req: Request<int>, key: Key)
    requires key in req.expectedId
    ensures var c := LookupOf(s, calls, req);
            && (Offers(c, c.w.cache, key) <==> TierHas(s, calls.cache, key, req.expectedId[key]))
            && (Offers(c, c.w.store, key) <==> TierHas(s, calls.store, key, req.expectedId[key]))
            && (Offers(c, c.w.cache, key) ==>
                  c.p.withKey(c.w.cache.value[key], key) == calls.cache.value[key].(key := key))
            && (Offers(c, c.w.store, key) ==>
                  c.p.withKey(c.w.store.value[key], key) == calls.store.value[key].(key := key))
  {
    hide RemainingTTL;
  }

  lemma LookupCalls(s: Service, calls: Calls, req: Request<int>, key: Key)
    ensures var c := LookupOf(s, calls, req);
            HasMiss(calls, key) <==> c.w.misses.Answer? && key in c.w.misses.value
  {
  }

  lemma OutcomeOfTier(c: Lookup<int, Record>, key: Key)
    requires c.Lawful()
    ensures c.Local(key).Some? ==> c.Outcome(key) == c.Local(key)
  {
    hide Lookup.Local, Lookup.Lawful;
  }

  lemma AnswerHasIs(s: Service, calls: Calls, req: Request<int>, batch: seq<int>, key: Key)
    requires key in req.expectedId && req.expectedId[key] in batch
    ensures var c, id := LookupOf(s, calls, req), req.expectedId[key];
            var reply := c.w.fetch(batch);
            (if reply.Answer? && id in reply.value && c.p.hasData(reply.value[id])
                && c.p.usable(c.p.withKey(reply.value[id], key))
             then Some(c.p.withKey(reply.value[id], key)) else None)
            == if !AnswerHas(calls.prices(batch), id) then None else
                 var price := calls.prices(batch).value[id];
                 Some(Record(key, id, price.usd, price.change24h, calls.answeredAt(batch)))
  {
  }

  /** What a run asks and saves: at most fifty identifiers a batch, misses for their own lifetime,
      fetched records for a whole one, promoted ones for what is left of it. */
  lemma CallsAsConfigured(s: Service, calls: Calls, req: Request<int>, trace: seq<Step<int, Record>>, j: nat)
    requires var c := LookupOf(s, calls, req); c.Lawful() && c.Monitored(trace)
    requires j < |trace|
    ensures trace[j].effect.Fetch? ==> 1 <= |trace[j].effect.ids| <= 50
    ensures trace[j].effect.MissSave? ==> trace[j].effect.missTtl == s.missTtl
    ensures trace[j].effect.CacheSave? ==> forall write | write in trace[j].effect.writes ::
              write.ttl == s.ttl || write.ttl == RemainingTTL(write.record.fetchedAt, s.now, s.ttl) > 0
  {
    var c := LookupOf(s, calls, req);
    hide *;
    SettingsAre(s, calls, req);
    if trace[j].effect.Fetch? {
      FetchIsSmall(c, trace, j);
    }
    StepAllowed(c, trace, j);
    SavesAreTimed(c, c.Watch(trace[..j]), trace[j]);
  }

  lemma SettingsAre(s: Service, calls: Calls, req: Request<int>)
    ensures var p := LookupOf(s, calls, req).p;
            && p.ttl == s.ttl && p.missTtl == s.missTtl && p.now == s.now && p.batchLimit == 50
            && forall r: Record :: p.fetchedAt(r) == r.fetchedAt
  {
  }

  /* ---------- the comparison lookup ---------- */

  function ToMarket(r: Record): Market<int> {
    Market(r.coinMarketCapID, r.priceUSD, r.change24H)
  }

  /** Fresh comparison data aligned with the tokens, as a lookup of the resolved request leaves it. */
  method LookupFresh(s: Service, catalog: Option<Catalogs.Catalog>, ghost rows: seq<Catalogs.CoinMapping>,
                     tokens: seq<Token>, calls: Calls)
    returns (result: seq<Option<Market<int>>>, ghost c: Lookup<int, Record>, ghost trace: seq<Step<int, Record>>)
    requires catalog.Some? ==> Catalogs.Indexes(catalog.value, rows)
    ensures c == LookupOf(s, calls, c.req) && Resolves(s, RowsOf(catalog, rows), tokens, c.req)
    ensures Finished(c, ToMarket, |tokens|, trace) && result == Answered(ToMarket, |tokens|, trace)
    ensures |result| == |tokens|
    ensures forall i | 0 <= i < |tokens| && result[i].Some? ::
              IdOf(s, RowsOf(catalog, rows), tokens[i]) == Some(result[i].value.id)
    ensures forall i, key | 0 <= i < |tokens| && result[i].Some? && i in c.Indexes(key) ::
              && c.Lawful() && c.Outcome(key).Some?
              && result[i].value.id == c.Outcome(key).value.coinMarketCapID
              && result[i].value.priceUSD == c.Outcome(key).value.priceUSD
              && result[i].value.change24HPercent == c.Outcome(key).value.change24H
  {
    hide *;
    var req := Resolve(s, catalog, rows, tokens);
    var lookup := LookupOf(s, calls, req);
    c := lookup;
    LookupIsLawful(s, calls, req);
    ResolvedFits(s, RowsOf(catalog, rows), tokens, lookup);
    result, trace := LookupColumn(lookup, ToMarket, |tokens|);
    FinishedParts(c, ToMarket, |tokens|, trace);
    forall i | 0 <= i < |tokens| && result[i].Some?
      ensures IdOf(s, RowsOf(catalog, rows), tokens[i]) == Some(result[i].value.id)
    {
      var key := SlotIsOwn(s, RowsOf(catalog, rows), tokens, calls, c, trace, i);
    }
    forall i, key | 0 <= i < |tokens| && result[i].Some? && i in c.Indexes(key)
      ensures c.Lawful() && c.Outcome(key).Some? && result[i] == Some(ToMarket(c.Outcome(key).value))
    {
      FilledShows(c, ToMarket, |tokens|, trace, i, key);
    }
    forall r
      ensures ToMarket(r) == Market(r.coinMarketCapID, r.priceUSD, r.change24H)
    {
      ShownIs(r);
    }
  }

  /** The record is within its lifetime, or what a batch of the lookup just answered for it. */
  ghost predicate IsCurrent(c: Lookup<int, Record>, calls: Calls, r: Record)
    requires c.Lawful()
  {
    c.IsFresh(r) || exists ids :: ids in c.Batches() && AnsweredIn(calls, ids, r)
  }

  /** A slot that shows something was written once, with a current record of the token's own
      identifier. */
  lemma SlotIsOwn(s: Service, rows: iset<Catalogs.CoinMapping>, tokens: seq<Token>, calls: Calls,
                  c: Lookup<int, Record>, trace: seq<Step<int, Record>>, i: nat) returns (key: Key)
    requires c == LookupOf(s, calls, c.req) && Resolves(s, rows, tokens, c.req)
    requires Finished(c, ToMarket, |tokens|, trace) && InRange(trace, |tokens|)
    requires i < |tokens| && Answered(ToMarket, |tokens|, trace)[i].Some?
    ensures c.Lawful() && i in c.Indexes(key) && c.Outcome(key).Some? && IsCurrent(c, calls, c.Outcome(key).value)
    ensures Answered(ToMarket, |tokens|, trace)[i] == Some(ToMarket(c.Outcome(key).value))
    ensures IdOf(s, rows, tokens[i]) == Some(Answered(ToMarket, |tokens|, trace)[i].value.id)
    ensures forall j, k | 0 <= j < k < |trace| && trace[j].effect.Applied? && trace[k].effect.Applied? ::
              !(i in trace[j].effect.indexes && i in trace[k].effect.indexes)
  {
    hide *;
    key := FilledIsFed(c, ToMarket, |tokens|, trace, i);
    IndexesAre(c, key, i);
    TokensAgree(s, rows, tokens, c.req, i);
    OutcomeIsOwn(s, calls, c.req, key);
    CurrentIs(c, calls, c.Outcome(key).value);
    ShownIs(c.Outcome(key).value);
  }

  lemma IndexesAre(c: Lookup<int, Record>, key: Key, i: nat)
    requires i in c.Indexes(key)
    ensures key in c.req.indexesByKey && i in c.req.indexesByKey[key]
  {
  }

  lemma CurrentIs(c: Lookup<int, Record>, calls: Calls, r: Record)
    requires c.Lawful()
    ensures IsCurrent(c, calls, r) <==> c.IsFresh(r) || exists ids :: ids in c.Batches() && AnsweredIn(calls, ids, r)
  {
    hide Lookup.IsFresh, Lookup.Batches, Lookup.Lawful, AnsweredIn;
  }

  lemma ShownIs(r: Record)
    ensures ToMarket(r) == Market(r.coinMarketCapID, r.priceUSD, r.change24H)
  {
  }
}
