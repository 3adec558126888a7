/** The CoinMarketCap catalog: contract identity first, symbol only for ambiguity. */
module CoinMarketCapCatalog {
  import opened Decimal
  import opened MarketKey
  import opened Sorting
  import opened Texts

  datatype CoinMapping = CoinMapping(id: int, name: string, symbol: string, platformId: int, address: string)

  datatype Platform = Platform(id: int, tokenAddress: string)

  datatype Coin = Coin(id: int, name: string, symbol: string, isActive: int, platform: Option<Platform>)

  datatype Catalog = Catalog(byContract: map<string, seq<CoinMapping>>, count: nat)

  predicate RowLess(a: CoinMapping, b: CoinMapping) {
    if a.id != b.id then a.id < b.id
    else if a.platformId != b.platformId then a.platformId < b.platformId
    else LexLess(a.address, b.address)
  }

  /** An active entry with an address on a supported platform. */
  predicate Usable(coin: Coin, supported: set<int>) {
    && coin.id > 0 && coin.isActive == 1 && coin.platform.Some? && coin.platform.value.id in supported
    && NormalizePlatformAddress(coin.platform.value.tokenAddress) != ""
  }

  function Row(coin: Coin): CoinMapping
    requires coin.platform.Some?
  {
    CoinMapping(coin.id, TrimSpace(coin.name), TrimSpace(coin.symbol), coin.platform.value.id,
                NormalizePlatformAddress(coin.platform.value.tokenAddress))
  }

  /** One row per usable entry, in row order. */
  method BuildMappings(coins: seq<Coin>, supported: set<int>) returns (mappings: seq<CoinMapping>)
    ensures forall row :: row in mappings <==> YieldedBy(coins, supported, row)
    ensures forall row :: multiset(mappings)[row] == TimesYielded(coins, supported, row)
    ensures Ordered(RowLess, mappings)
  {
    hide *;
    var rows := [];
    NoRows(coins[..0], supported);
    for i := 0 to |coins|
      invariant AreRows(coins[..i], supported, rows)
    {
      var more := CoinRows(coins[i], supported);
      MoreRows(coins, supported, i, rows, more);
      rows := rows + more;
    }
    assert coins[..|coins|] == coins;
    RowOrder();
    SortOrders(RowLess, rows);
    mappings := Sort(RowLess, rows);
    SameRows(coins, supported, rows, mappings);
  }

  /** The rows are those of the usable coins, each as often as coins stand for it. */
  ghost predicate AreRows(coins: seq<Coin>, supported: set<int>, rows: seq<CoinMapping>) {
    && (forall row :: row in rows <==> YieldedBy(coins, supported, row))
    && (forall row :: multiset(rows)[row] == TimesYielded(coins, supported, row))
  }

  lemma NoRows(coins: seq<Coin>, supported: set<int>)
    requires coins == []
    ensures AreRows(coins, supported, [])
  {
  }

  lemma MoreRows(coins: seq<Coin>, supported: set<int>, n: nat, rows: seq<CoinMapping>, more: seq<CoinMapping>)
    requires n < |coins| && AreRows(coins[..n], supported, rows)
    requires forall row :: row in more <==> Yields(coins[n], supported, row)
    requires forall row :: multiset(more)[row] == if Yields(coins[n], supported, row) then 1 else 0
    ensures AreRows(coins[..n + 1], supported, rows + more)
  {
    YieldedSnoc(coins, supported, n);
    TimesSnoc(coins, supported, n);
    hide YieldedBy, Yields, TimesYielded;
  }

  lemma SameRows(coins: seq<Coin>, supported: set<int>, rows: seq<CoinMapping>, sorted: seq<CoinMapping>)
    requires AreRows(coins, supported, rows) && multiset(sorted) == multiset(rows)
    ensures forall row :: row in sorted <==> YieldedBy(coins, supported, row)
    ensures forall row :: multiset(sorted)[row] == TimesYielded(coins, supported, row)
  {
    hide YieldedBy, TimesYielded;
    forall row
      ensures row in sorted <==> row in rows
    {
      assert row in sorted <==> row in multiset(sorted);
      assert row in rows <==> row in multiset(rows);
    }
  }

  method CoinRows(coin: Coin, supported: set<int>) returns (rows: seq<CoinMapping>)
    ensures forall row :: row in rows <==> Yields(coin, supported, row)
    ensures forall row :: multiset(rows)[row] == if Yields(coin, supported, row) then 1 else 0
  {
    hide Row, TrimSpace, NormalizePlatformAddress;
    if coin.id <= 0 || coin.isActive != 1 || coin.platform.None? {
      return [];
    }
    if coin.platform.value.id !in supported {
      return [];
    }
    if NormalizePlatformAddress(coin.platform.value.tokenAddress) == "" {
      return [];
    }
    return [Row(coin)];
  }

  predicate Yields(coin: Coin, supported: set<int>, row: CoinMapping) {
    Usable(coin, supported) && row == Row(coin)
  }

  /** The one row an active coin on a supported platform stands for, field by field. */
  lemma YieldsInFull(coin: Coin, supported: set<int>, row: CoinMapping)
    ensures Yields(coin, supported, row) <==>
              && coin.id > 0 && coin.isActive == 1 && coin.platform.Some?
              && coin.platform.value.id in supported && !Blank(coin.platform.value.tokenAddress)
              && row.id == coin.id && row.name == TrimSpace(coin.name) && row.symbol == TrimSpace(coin.symbol)
              && row.platformId == coin.platform.value.id
              && row.address == NormalizePlatformAddress(coin.platform.value.tokenAddress)
  {
    if coin.platform.Some? {
      var before, after := TrimSplits(coin.platform.value.tokenAddress);
    }
    hide TrimSpace, ToLower, Blank, Bare;
  }

  /** A symbol admits a row with the same symbol but for the case of letters; none admits all. */
  lemma SymbolMatchesIs(row: CoinMapping, symbol: string)
    ensures SymbolMatches(row, symbol) <==> symbol == "" || SameLetters(TrimSpace(row.symbol), symbol)
  {
    CaseForgets(TrimSpace(row.symbol), symbol);
    hide TrimSpace, ToLower, SameLetters;
  }

  /** How many coins of a listing stand for a row. */
  ghost function TimesYielded(coins: seq<Coin>, supported: set<int>, row: CoinMapping): nat {
    if coins == [] then 0
    else
      TimesYielded(coins[..|coins| - 1], supported, row)
      + if Yields(coins[|coins| - 1], supported, row) then 1 else 0
  }

  lemma TimesSnoc(coins: seq<Coin>, supported: set<int>, n: nat)
    requires n < |coins|
    ensures forall row :: TimesYielded(coins[..n + 1], supported, row)
                       == TimesYielded(coins[..n], supported, row) + if Yields(coins[n], supported, row) then 1 else 0
  {
    hide Yields;
    assert coins[..n + 1][..n] == coins[..n];
  }

  ghost predicate YieldedBy(coins: seq<Coin>, supported: set<int>, row: CoinMapping) {
    exists k :: 0 <= k < |coins| && Yields(coins[k], supported, row)
  }

  lemma YieldedSnoc(coins: seq<Coin>, supported: set<int>, n: nat)
    requires n < |coins|
    ensures forall row :: YieldedBy(coins[..n + 1], supported, row) <==>
              YieldedBy(coins[..n], supported, row) || Yields(coins[n], supported, row)
  {
    hide Yields;
    var longer := coins[..n + 1];
    assert longer == coins[..n] + [coins[n]];
    assert longer[n] == coins[n];
    forall row
      ensures YieldedBy(longer, supported, row) <==>
                YieldedBy(coins[..n], supported, row) || Yields(coins[n], supported, row)
    {
      if YieldedBy(coins[..n], supported, row) {
        var k :| 0 <= k < n && Yields(coins[..n][k], supported, row);
        assert longer[k] == coins[..n][k];
      }
    }
  }

  lemma RowOrder()
    ensures WeakOrder(RowLess)
  {
    forall a, b, c
      ensures RowLess(a, b) ==> !RowLess(b, a)
      ensures !RowLess(b, a) && !RowLess(c, b) ==> !RowLess(c, a)
    {
      LexFacts(a.address, b.address, c.address);
      hide LexLess;
    }
  }

  /** Rows go by identifier, then platform, then address. */
  lemma RowOrderIs(a: CoinMapping, b: CoinMapping)
    ensures RowLess(a, b) <==>
              || a.id < b.id
              || (a.id == b.id && a.platformId < b.platformId)
              || (a.id == b.id && a.platformId == b.platformId && LexLess(a.address, b.address))
  {
  }

  function ContractLookupKey(platformId: int, address: string): string {
    OfInt(platformId) + "\0" + NormalizePlatformAddress(address)
  }

  predicate IsContractRow(row: CoinMapping, key: string) {
    ContractLookupKey(row.platformId, row.address) == key
  }

  function Select(rows: seq<CoinMapping>, key: string): seq<CoinMapping> {
    if rows == [] then [] else
      var front, last := Select(rows[..|rows| - 1], key), rows[|rows| - 1];
      if IsContractRow(last, key) then front + [last] else front
  }

  function Lookup(m: map<string, seq<CoinMapping>>, key: string): seq<CoinMapping> {
    if key in m then m[key] else []
  }

  ghost predicate Indexes(catalog: Catalog, rows: seq<CoinMapping>) {
    catalog.count == |rows| && forall key :: Lookup(catalog.byContract, key) == Select(rows, key)
  }

  method NewCatalog(mappings: seq<CoinMapping>) returns (catalog: Catalog)
    ensures Indexes(catalog, mappings)
  {
    hide ContractLookupKey;
    var byContract: map<string, seq<CoinMapping>> := map[];
    for i := 0 to |mappings|
      invariant forall key :: Lookup(byContract, key) == Select(mappings[..i], key)
    {
      var mapping := mappings[i];
      assert mappings[..i + 1][..i] == mappings[..i];
      var key := ContractLookupKey(mapping.platformId, mapping.address);
      byContract := byContract[key := Lookup(byContract, key) + [mapping]];
    }
    assert mappings[..|mappings|] == mappings;
    catalog := Catalog(byContract, |mappings|);
  }

  /** The row qualifies under a symbol; the empty symbol asks for nothing. */
  predicate SymbolMatches(row: CoinMapping, symbol: string) {
    symbol == "" || ToLower(TrimSpace(row.symbol)) == ToLower(symbol)
  }

  ghost function IdsAmong(candidates: seq<CoinMapping>, symbol: string): iset<int> {
    iset row | row in candidates && SymbolMatches(row, symbol) :: row.id
  }

  /** The distinct identifiers of the candidates a symbol admits, in order. */
  method UniqueIDs(candidates: seq<CoinMapping>, symbol: string) returns (ids: seq<int>)
    ensures StrictlySorted((a, b) => a < b, ids) && forall x :: x in ids <==> x in IdsAmong(candidates, symbol)
    ensures |ids| == 1 <==> TheOne(IdsAmong(candidates, symbol)).Some?
    ensures |ids| == 1 ==> TheOne(IdsAmong(candidates, symbol)) == Some(ids[0])
    ensures |ids| == 0 ==> IdsAmong(candidates, symbol) == iset{}
  {
    hide SymbolMatches;
    var seen: set<int> := {};
    for i := 0 to |candidates|
      invariant forall x :: x in seen <==>
                  exists k :: 0 <= k < i && SymbolMatches(candidates[k], symbol) && candidates[k].id == x
    {
      if !SymbolMatches(candidates[i], symbol) {
        continue;
      }
      seen := seen + {candidates[i].id};
    }
    forall x
      ensures x in seen <==> x in IdsAmong(candidates, symbol)
    {
      if x in seen {
        var k :| 0 <= k < |candidates| && SymbolMatches(candidates[k], symbol) && candidates[k].id == x;
        assert candidates[k] in candidates;
      }
    }
    ids := SortedInts(seen);
    SizeOne(seen, IdsAmong(candidates, symbol));
    assert forall x :: x in IdsAmong(candidates, symbol) <==> x in ids;
    assert |ids| == 0 ==> forall x :: x !in IdsAmong(candidates, symbol);
    assert |ids| == 1 ==> ids[0] in ids;
  }

  method SortedInts(elements: set<int>) returns (s: seq<int>)
    ensures IsSorting((a, b) => a < b, s, elements) && |s| == |elements|
  {
    var rest := elements;
    s := [];
    while rest != {}
      invariant rest <= elements && |s| + |rest| == |elements|
      invariant forall x :: x in s <==> x in elements && x !in rest
      invariant forall i, j | 0 <= i < j < |s| :: s[i] != s[j]
      decreases rest
    {
      var x := Pick(rest);
      s := s + [x];
      rest := rest - {x};
    }
    var less := (a: int, b: int) => a < b;
    SortIsSorting(less, s);
    SortOrders(less, s);
    assert |multiset(Sort(less, s))| == |multiset(s)|;
    s := Sort(less, s);
  }

  lemma {:induction false} SelectMembers(rows: seq<CoinMapping>, key: string)
    ensures forall row :: row in Select(rows, key) <==> row in rows && IsContractRow(row, key)
  {
    hide IsContractRow;
    if rows != [] {
      SelectMembers(rows[..|rows| - 1], key);
      assert rows == rows[..|rows| - 1] + [rows[|rows| - 1]];
    }
  }

  ghost function RowSet(rows: seq<CoinMapping>): iset<CoinMapping> {
    iset row | row in rows
  }

  ghost function ScanIds(rows: iset<CoinMapping>, platformId: int, address: string, symbol: string): iset<int> {
    iset row | row in rows && IsContractRow(row, ContractLookupKey(platformId, address)) &&
        SymbolMatches(row, symbol) :: row.id
  }

  /** What a linear scan over rows, in whatever order, makes of a contract: the one identifier
      of its rows, else the one among the rows that carry the symbol. */
  ghost function ContractScan(rows: iset<CoinMapping>, platformId: int, address: string, symbol: string): Option<int> {
    if TheOne(ScanIds(rows, platformId, address, "")).Some? then TheOne(ScanIds(rows, platformId, address, ""))
    else TheOne(ScanIds(rows, platformId, address, TrimSpace(symbol)))
  }

  method ResolveContract(catalog: Catalog, ghost rows: seq<CoinMapping>, platformId: int, address: string,
                         symbol: string)
    returns (id: Option<int>)
    requires Indexes(catalog, rows)
    ensures id == ContractScan(RowSet(rows), platformId, address, symbol)
  {
    var key := ContractLookupKey(platformId, address);
    var candidates := Lookup(catalog.byContract, key);
    ScanIsSelection(candidates, rows, platformId, address, "");
    ScanIsSelection(candidates, rows, platformId, address, TrimSpace(symbol));
    hide TheOne, ScanIds, ContractLookupKey, SymbolMatches, IdsAmong;
    var ids := UniqueIDs(candidates, "");
    if |ids| == 1 {
      return Some(ids[0]);
    }
    if |ids| <= 1 {
      NoIds(candidates, TrimSpace(symbol));
      return None;
    }
    ids := UniqueIDs(candidates, TrimSpace(symbol));
    if |ids| != 1 {
      return None;
    }
    return Some(ids[0]);
  }

  lemma ScanIsSelection(candidates: seq<CoinMapping>, rows: seq<CoinMapping>, platformId: int, address: string,
                        symbol: string)
    requires candidates == Select(rows, ContractLookupKey(platformId, address))
    ensures IdsAmong(candidates, symbol) == ScanIds(RowSet(rows), platformId, address, symbol)
  {
    SelectMembers(rows, ContractLookupKey(platformId, address));
    hide IsContractRow, ContractLookupKey, SymbolMatches;
  }

  lemma NoIds(candidates: seq<CoinMapping>, symbol: string)
    requires IdsAmong(candidates, "") == iset{}
    ensures TheOne(IdsAmong(candidates, symbol)) == None
  {
    forall row | row in candidates
      ensures row.id in IdsAmong(candidates, "")
    {
      assert SymbolMatches(row, "");
    }
    assert IdsAmong(candidates, symbol) == iset{};
  }
}
