/** The catalog lifecycle both providers share: bootstrap, durable fallback, refresh. */
module CatalogLifecycle {
  import opened Decimal
  import opened PipelineSpec
  import CG = CoinGeckoCatalog
  import CMC = CoinMarketCapCatalog

  /** Durable rows, and the rows the installed catalog was built from. */
  datatype State<M> = State(durable: seq<M>, installed: Option<seq<M>>)

  /** One cycle and what its steps meet: the fetch, whether the replacement is stored, and what
      the durable load answers. */
  datatype Cycle<M> =
    | Bootstrap(fetched: Reply<seq<M>>, stores: bool, loaded: Reply<seq<M>>)
    | Refresh(fetched: Reply<seq<M>>, stores: bool)

  /** A fetch never answers an empty catalog, and a load answers the durable rows in some order. */
  ghost predicate Possible<M>(s: State<M>, cycle: Cycle<M>) {
    && (cycle.fetched.Answer? ==> cycle.fetched.value != [])
    && (cycle.Bootstrap? && cycle.loaded.Answer? ==> multiset(cycle.loaded.value) == multiset(s.durable))
  }

  /** The cycle fetched a catalog and stored it. */
  predicate Succeeds<M>(cycle: Cycle<M>) {
    cycle.fetched.Answer? && cycle.stores
  }

  class Source<M> {
    var durable: seq<M>
    var installed: Option<seq<M>>

    function Now(): State<M>
      reads this
    {
      State(durable, installed)
    }

    constructor (durable: seq<M>)
      ensures Now() == State(durable, None)
    {
      this.durable, installed := durable, None;
    }

    /** Replaces all durable rows, or none. */
    method Replace(rows: seq<M>, stores: bool) returns (ok: bool)
      modifies this`durable
      ensures ok == stores && durable == if stores then rows else old(durable)
    {
      if stores {
        durable := rows;
      }
      ok := stores;
    }

    method Install(rows: seq<M>)
      modifies this`installed
      ensures installed == Some(rows)
    {
      installed := Some(rows);
    }

    /** Installs a fetched and stored catalog, else the last durable one if it has rows. */
    method Bootstrap(fetched: Reply<seq<M>>, stores: bool, loaded: Reply<seq<M>>)
      modifies this
      ensures Now() == Next(old(Now()), Cycle.Bootstrap(fetched, stores, loaded))
      ensures fetched.Answer? && stores ==> durable == fetched.value && installed == Some(fetched.value)
      ensures !(fetched.Answer? && stores) ==>
                && durable == old(durable)
                && installed == if loaded.Answer? && loaded.value != [] then Some(loaded.value) else old(installed)
    {
      if fetched.Answer? {
        var ok := Replace(fetched.value, stores);
        if ok {
          Install(fetched.value);
          return;
        }
      }
      if loaded.Answer? && |loaded.value| > 0 {
        Install(loaded.value);
      }
    }

    /** One refresh cycle, keeping the prior catalog on any failure. */
    method Refresh(fetched: Reply<seq<M>>, stores: bool)
      modifies this
      ensures Now() == Next(old(Now()), Cycle.Refresh(fetched, stores))
      ensures fetched.Answer? && stores ==> durable == fetched.value && installed == Some(fetched.value)
      ensures !(fetched.Answer? && stores) ==> durable == old(durable) && installed == old(installed)
    {
      if fetched.Failed? {
        return;
      }
      var ok := Replace(fetched.value, stores);
      if !ok {
        return;
      }
      Install(fetched.value);
    }

    /** A run of cycles, one after the other. */
    method Follow(cycles: seq<Cycle<M>>)
      modifies this
      ensures Now() == After(old(Now()), cycles)
    {
      hide Next;
      for i := 0 to |cycles|
        invariant Now() == After(old(Now()), cycles[..i])
      {
        assert cycles[..i + 1][..i] == cycles[..i];
        match cycles[i] {
          case Bootstrap(fetched, stores, loaded) => Bootstrap(fetched, stores, loaded);
          case Refresh(fetched, stores) => Refresh(fetched, stores);
        }
      }
      assert cycles[..|cycles|] == cycles;
    }
  }

  /** The state after one cycle: a successful one moves both sides to the fetched rows; a failed
      bootstrap installs non-empty durable rows; anything else changes nothing. */
  function Next<M>(s: State<M>, cycle: Cycle<M>): State<M> {
    if Succeeds(cycle) then State(cycle.fetched.value, Some(cycle.fetched.value))
    else if cycle.Bootstrap? && cycle.loaded.Answer? && cycle.loaded.value != [] then
        s.(installed := Some(cycle.loaded.value))
    else s
  }

  function After<M>(s: State<M>, cycles: seq<Cycle<M>>): State<M> {
    if cycles == [] then s else Next(After(s, cycles[..|cycles| - 1]), cycles[|cycles| - 1])
  }

  ghost predicate AllPossible<M>(s: State<M>, cycles: seq<Cycle<M>>) {
    forall i | 0 <= i < |cycles| :: Possible(After(s, cycles[..i]), cycles[i])
  }

  /** An installed catalog has rows, and they are the durable rows up to order. */
  ghost predicate InStep<M>(s: State<M>) {
    s.installed.Some? ==> s.installed.value != [] && multiset(s.installed.value) == multiset(s.durable)
  }

  /** In every run of cycles, whatever fails, an installed catalog is non-empty and holds the
      durable rows; once there is one it never goes away; and a failed refresh changes neither. */
  lemma {:induction false} InstalledIsDurable<M>(s: State<M>, cycles: seq<Cycle<M>>)
    requires InStep(s) && AllPossible(s, cycles)
    ensures InStep(After(s, cycles))
    ensures s.installed.Some? ==> After(s, cycles).installed.Some?
    ensures forall i | 0 <= i < |cycles| && cycles[i].Refresh? && !Succeeds(cycles[i]) ::
              After(s, cycles[..i + 1]) == After(s, cycles[..i])
  {
    if cycles != [] {
      var front := cycles[..|cycles| - 1];
      forall i | 0 <= i < |front|
        ensures Possible(After(s, front[..i]), front[i])
      {
        assert front[..i] == cycles[..i];
      }
      InstalledIsDurable(s, front);
      assert Possible(After(s, cycles[..|front|]), cycles[|front|]);
      assert cycles[..|front|] == front;
    }
    forall i | 0 <= i < |cycles| && cycles[i].Refresh? && !Succeeds(cycles[i])
      ensures After(s, cycles[..i + 1]) == After(s, cycles[..i])
    {
      assert cycles[..i + 1][..i] == cycles[..i];
    }
  }

  /** The last cycle that fetched and stored a catalog decides both sides: its rows are the durable
      ones, and those installed up to order. */
  lemma {:induction false} LastSuccessDecides<M>(s: State<M>, cycles: seq<Cycle<M>>, i: nat)
    requires InStep(s) && AllPossible(s, cycles) && i < |cycles|
    requires cycles[i].fetched.Answer? && cycles[i].stores
    requires forall j | i < j < |cycles| :: !(cycles[j].fetched.Answer? && cycles[j].stores)
    ensures var after := After(s, cycles);
            && after.durable == cycles[i].fetched.value
            && after.installed.Some? && multiset(after.installed.value) == multiset(cycles[i].fetched.value)
  {
    InstalledIsDurable(s, cycles);
    var front := cycles[..|cycles| - 1];
    if i < |front| {
      forall k | 0 <= k < |front|
        ensures Possible(After(s, front[..k]), front[k])
      {
        assert front[..k] == cycles[..k];
      }
      LastSuccessDecides(s, front, i);
    }
  }

  lemma SameRows<M>(a: seq<M>, b: seq<M>)
    requires multiset(a) == multiset(b)
    ensures forall row :: row in a <==> row in b
  {
    forall row
      ensures row in a <==> row in b
    {
      assert row in a <==> row in multiset(a);
      assert row in b <==> row in multiset(b);
    }
  }

  /** After any run, a catalog built from the installed rows resolves every contract and native
      symbol exactly as a linear uniqueness scan over the durable rows would. */
  lemma CoinGeckoResolvesDurable(s: State<CG.CoinMapping>, cycles: seq<Cycle<CG.CoinMapping>>,
                                 chain: string, address: string, symbol: string, allowed: set<string>)
    requires InStep(s) && AllPossible(s, cycles) && After(s, cycles).installed.Some?
    ensures var durable, rows := CG.RowSet(After(s, cycles).durable),
                                 CG.RowSet(After(s, cycles).installed.value);
            && CG.ContractScan(rows, chain, address) == CG.ContractScan(durable, chain, address)
            && CG.NativeScan(rows, symbol, allowed) == CG.NativeScan(durable, symbol, allowed)
  {
    InstalledIsDurable(s, cycles);
    SameRows(After(s, cycles).installed.value, After(s, cycles).durable);
    assert CG.RowSet(After(s, cycles).durable) == CG.RowSet(After(s, cycles).installed.value);
  }

  lemma CoinMarketCapResolvesDurable(s: State<CMC.CoinMapping>,
                                     cycles: seq<Cycle<CMC.CoinMapping>>,
                                     platformId: int, address: string, symbol: string)
    requires InStep(s) && AllPossible(s, cycles) && After(s, cycles).installed.Some?
    ensures var durable, rows := CMC.RowSet(After(s, cycles).durable),
                                 CMC.RowSet(After(s, cycles).installed.value);
            CMC.ContractScan(rows, platformId, address, symbol)
            == CMC.ContractScan(durable, platformId, address, symbol)
  {
    InstalledIsDurable(s, cycles);
    SameRows(After(s, cycles).installed.value, After(s, cycles).durable);
    assert CMC.RowSet(After(s, cycles).durable) == CMC.RowSet(After(s, cycles).installed.value);
  }

  /** After any run of cycles, the catalog built from what is installed resolves a contract and a
      native symbol to what a linear scan of the durable rows gives; there is nothing to resolve
      with before one is installed. */
  method ResolveCoinGecko(source: Source<CG.CoinMapping>,
                          ghost s: State<CG.CoinMapping>, ghost cycles: seq<Cycle<CG.CoinMapping>>,
                          chain: string, address: string, symbol: string, allowed: set<string>)
    returns (contract: Option<string>, native: Option<string>)
    requires InStep(s) && AllPossible(s, cycles) && source.Now() == After(s, cycles)
    ensures source.installed.None? ==> contract == native == None
    ensures source.installed.Some? ==>
              && contract == CG.ContractScan(CG.RowSet(source.durable), chain, address)
              && native == CG.NativeScan(CG.RowSet(source.durable), symbol, allowed)
  {
    hide *;
    NowIs(source);
    if source.installed.None? {
      return None, None;
    }
    var rows := source.installed.value;
    var catalog := CG.NewCatalog(rows);
    contract := CG.ResolveContract(catalog, rows, chain, address);
    native := CG.ResolveNative(catalog, rows, symbol, allowed);
    CoinGeckoResolvesDurable(s, cycles, chain, address, symbol, allowed);
  }

  method ResolveCoinMarketCap(source: Source<CMC.CoinMapping>,
                              ghost s: State<CMC.CoinMapping>, ghost cycles: seq<Cycle<CMC.CoinMapping>>,
                              platformId: int, address: string, symbol: string)
    returns (contract: Option<int>)
    requires InStep(s) && AllPossible(s, cycles) && source.Now() == After(s, cycles)
    ensures contract == if source.installed.None? then None
                        else CMC.ContractScan(CMC.RowSet(source.durable), platformId, address, symbol)
  {
    hide *;
    NowIs(source);
    if source.installed.None? {
      return None;
    }
    var rows := source.installed.value;
    var catalog := CMC.NewCatalog(rows);
    contract := CMC.ResolveContract(catalog, rows, platformId, address, symbol);
    CoinMarketCapResolvesDurable(s, cycles, platformId, address, symbol);
  }

  lemma NowIs<M>(source: Source<M>)
    ensures source.Now() == State(source.durable, source.installed)
  {
  }

  /** The CoinGecko fetch: one list call; no usable row is an error. */
  method FetchCoinGecko(coins: Reply<seq<CG.Coin>>) returns (rows: Reply<seq<CG.CoinMapping>>)
    ensures rows.Answer? <==> coins.Answer? && exists row :: CG.YieldedBy(coins.value, row)
    ensures rows.Answer? ==> rows.value != []
    ensures rows.Answer? ==> forall row :: row in rows.value <==> CG.YieldedBy(coins.value, row)
    ensures rows.Answer? ==> forall row :: multiset(rows.value)[row] == CG.TimesYielded(coins.value, row)
  {
    if coins.Failed? {
      return Failed;
    }
    hide CG.YieldedBy;
    var mappings := CG.BuildMappings(coins.value);
    if |mappings| == 0 {
      return Failed;
    }
    assert mappings[0] in mappings;
    return Answer(mappings);
  }

  /** The CoinMarketCap fetch walks the listing page by page until a short page; a failed page
      fails it.  When it answers, no coin of the listing was skipped or repeated. */
  method FetchPages<Coin>(listing: seq<Coin>, pageLimit: nat, fails: nat -> bool) returns (coins: Reply<seq<Coin>>)
    requires pageLimit > 0
    ensures coins.Answer? ==> coins.value == listing
    ensures coins.Failed? <==> exists k: nat :: k * pageLimit <= |listing| && fails(k)
  {
    var all: seq<Coin> := [];
    var start, page := 1, 0;
    while true
      invariant start == 1 + page * pageLimit && 0 <= page && page * pageLimit <= |listing|
      invariant all == listing[..start - 1]
      invariant forall k: nat | k < page :: !fails(k)
      decreases |listing| + 1 - start
    {
      if fails(page) {
        return Failed;
      }
      var end := if start - 1 + pageLimit > |listing| then |listing| else start - 1 + pageLimit;
      var coinsOnPage := listing[start - 1..end];
      assert listing[..end] == listing[..start - 1] + coinsOnPage;
      all := all + coinsOnPage;
      if |coinsOnPage| < pageLimit {
        LastPage(page, pageLimit, |listing|);
        assert listing[..end] == listing;
        return Answer(all);
      }
      assert (page + 1) * pageLimit == page * pageLimit + pageLimit;
      start, page := start + pageLimit, page + 1;
    }
  }

  lemma LastPage(page: nat, pageLimit: nat, n: nat)
    requires n - page * pageLimit < pageLimit
    ensures forall k: nat | k * pageLimit <= n :: k <= page
  {
    forall k: nat | k * pageLimit <= n
      ensures k <= page
    {
      if k > page {
        MulMonotone(page + 1, k, pageLimit);
      }
    }
  }

  /** The CoinMarketCap fetch: the whole listing, page by page, and its rows; no usable row is an
      error, so a fetch never answers an empty catalog. */
  method FetchCoinMarketCap(listing: seq<CMC.Coin>, supported: set<int>, pageLimit: nat, fails: nat -> bool)
    returns (rows: Reply<seq<CMC.CoinMapping>>)
    requires pageLimit > 0
    ensures rows.Answer? <==>
              && (forall k: nat | k * pageLimit <= |listing| :: !fails(k))
              && exists row :: CMC.YieldedBy(listing, supported, row)
    ensures rows.Answer? ==> rows.value != []
    ensures rows.Answer? ==> forall row :: row in rows.value <==> CMC.YieldedBy(listing, supported, row)
    ensures rows.Answer? ==> forall row :: multiset(rows.value)[row] == CMC.TimesYielded(listing, supported, row)
  {
    var coins := FetchPages(listing, pageLimit, fails);
    if coins.Failed? {
      return Failed;
    }
    hide CMC.YieldedBy;
    var mappings := CMC.BuildMappings(coins.value, supported);
    if |mappings| == 0 {
      return Failed;
    }
    assert mappings[0] in mappings;
    return Answer(mappings);
  }
}
