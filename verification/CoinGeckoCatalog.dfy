/** Catalog indexes over mapping rows, against a linear scan of the rows. */
module CoinGeckoCatalog {
  import opened Decimal
  import opened MarketKey
  import opened Sorting
  import opened Texts

  const NATIVE_ADDRESS := "native"

  /** One catalog row: a coin's identifier on one chain. */
  datatype CoinMapping = CoinMapping(id: string, name: string, symbol: string, chain: string, address: string)

  /** A coin as the provider lists it. */
  datatype Coin = Coin(id: string, name: string, symbol: string, platforms: map<string, string>)

  predicate RowLess(a: CoinMapping, b: CoinMapping) {
    if a.id != b.id then LexLess(a.id, b.id)
    else if a.chain != b.chain then LexLess(a.chain, b.chain)
    else LexLess(a.address, b.address)
  }

  /** A platform of a coin that names a contract. */
  predicate UsablePlatform(coin: Coin, platform: string)
    ensures UsablePlatform(coin, platform) ==> platform in coin.platforms
  {
    && platform in coin.platforms && ToLower(TrimSpace(platform)) != ""
    && NormalizePlatformAddress(coin.platforms[platform]) != ""
  }

  function ContractRow(coin: Coin, platform: string): CoinMapping
    requires platform in coin.platforms
  {
    CoinMapping(TrimSpace(coin.id), TrimSpace(coin.name), TrimSpace(coin.symbol),
                ToLower(TrimSpace(platform)), NormalizePlatformAddress(coin.platforms[platform]))
  }

  function NativeRow(coin: Coin): CoinMapping {
    CoinMapping(TrimSpace(coin.id), TrimSpace(coin.name), TrimSpace(coin.symbol), ToLower(TrimSpace(coin.symbol)),
                NATIVE_ADDRESS)
  }

  /** The rows a coin stands for: one per usable platform, or a native row if it has none. */
  ghost predicate Yields(coin: Coin, row: CoinMapping) {
    && TrimSpace(coin.id) != ""
    && ((exists platform :: UsablePlatform(coin, platform) && row == ContractRow(coin, platform))
        || ((forall platform :: !UsablePlatform(coin, platform)) && TrimSpace(coin.symbol) != "" &&
            row == NativeRow(coin)))
  }

  /** A platform counts when neither its name nor its address is blank. */
  lemma UsablePlatformIs(coin: Coin, platform: string)
    ensures UsablePlatform(coin, platform) <==>
              platform in coin.platforms && !Blank(platform) && !Blank(coin.platforms[platform])
  {
    var before, after := TrimSplits(platform);
    if platform in coin.platforms {
      var b, a := TrimSplits(coin.platforms[platform]);
    }
    hide TrimSpace, ToLower, Blank, Bare;
  }

  /** Every row a coin stands for, field by field: a coin with an identifier has a row per contract,
      and one with a symbol and no contract a native row. */
  lemma YieldsInFull(coin: Coin, row: CoinMapping)
    ensures Yields(coin, row) <==>
              && !Blank(coin.id)
              && row.id == TrimSpace(coin.id) && row.name == TrimSpace(coin.name)
              && row.symbol == TrimSpace(coin.symbol)
              && ((exists platform :: IsContractOf(coin, platform, row.chain, row.address))
                  || ((forall platform | platform in coin.platforms ::
                         Blank(platform) || Blank(coin.platforms[platform]))
                      && !Blank(coin.symbol)
                      && row.chain == ToLower(TrimSpace(coin.symbol)) && row.address == "native"))
  {
    forall platform
      ensures UsablePlatform(coin, platform) <==>
                platform in coin.platforms && !Blank(platform) && !Blank(coin.platforms[platform])
    {
      UsablePlatformIs(coin, platform);
    }
    var b, a := TrimSplits(coin.id);
    var c, d := TrimSplits(coin.symbol);
    hide TrimSpace, ToLower, Blank, Bare, NormalizePlatformAddress, UsablePlatform;
    if platform :| UsablePlatform(coin, platform) && row == ContractRow(coin, platform) {
      assert IsContractOf(coin, platform, row.chain, row.address);
    }
    if platform :| IsContractOf(coin, platform, row.chain, row.address) {
      assert UsablePlatform(coin, platform);
    }
  }

  /** The listing gives a contract on a chain of that lower-case name, at that normal address. */
  predicate IsContractOf(coin: Coin, platform: string, chain: string, address: string) {
    && platform in coin.platforms && !Blank(platform) && !Blank(coin.platforms[platform])
    && chain == ToLower(TrimSpace(platform)) && address == NormalizePlatformAddress(coin.platforms[platform])
  }

  /** The usable platforms among these that stand for a row. */
  ghost function PlatformsOf(coin: Coin, platforms: set<string>, row: CoinMapping): set<string> {
    set platform | platform in platforms && UsablePlatform(coin, platform) && ContractRow(coin, platform) == row
  }

  /** How often a coin stands for a row: once per usable platform that gives it, or once as its
      native row. */
  ghost function Times(coin: Coin, row: CoinMapping): nat {
    if TrimSpace(coin.id) == "" then 0
    else if exists platform :: UsablePlatform(coin, platform) then |PlatformsOf(coin, coin.platforms.Keys, row)|
    else if TrimSpace(coin.symbol) != "" && row == NativeRow(coin) then 1
    else 0
  }

  /** How often the coins of a listing stand for a row. */
  ghost function TimesYielded(coins: seq<Coin>, row: CoinMapping): nat {
    if coins == [] then 0 else TimesYielded(coins[..|coins| - 1], row) + Times(coins[|coins| - 1], row)
  }

  method CoinRows(coin: Coin) returns (rows: seq<CoinMapping>)
    ensures forall row :: row in rows <==> Yields(coin, row)
    ensures forall row :: multiset(rows)[row] == Times(coin, row)
  {
    hide UsablePlatform, ContractRow, NativeRow, TrimSpace, ToLower, PlatformsOf;
    rows := [];
    if TrimSpace(coin.id) == "" {
      return;
    }
    var usable;
    rows, usable := PlatformRows(coin);
    NothingWithout(coin, rows);
    if !usable && TrimSpace(coin.symbol) != "" {
      rows := rows + [NativeRow(coin)];
    }
  }

  lemma NothingWithout(coin: Coin, rows: seq<CoinMapping>)
    requires forall row :: row in rows <==>
               exists platform :: UsablePlatform(coin, platform) && row == ContractRow(coin, platform)
    ensures (forall platform :: !UsablePlatform(coin, platform)) ==> rows == []
  {
    hide UsablePlatform, ContractRow;
    if rows != [] {
      assert rows[0] in rows;
    }
  }

  method PlatformRows(coin: Coin) returns (rows: seq<CoinMapping>, usable: bool)
    ensures usable <==> exists platform :: UsablePlatform(coin, platform)
    ensures forall row :: row in rows <==>
              exists platform :: UsablePlatform(coin, platform) && row == ContractRow(coin, platform)
    ensures forall row :: multiset(rows)[row] == |PlatformsOf(coin, coin.platforms.Keys, row)|
  {
    rows, usable := [], false;
    var rest := coin.platforms.Keys;
    AllRemain(coin);
    NoPlatforms(coin);
    hide UsablePlatform, ContractRow, PlatformsOf;
    assert coin.platforms.Keys - rest == {};
    while rest != {}
      invariant rest <= coin.platforms.Keys
      invariant usable <==> exists platform :: UsablePlatform(coin, platform) && platform !in rest
      invariant forall row :: row in rows <==>
        exists platform :: UsablePlatform(coin, platform) && platform !in rest && row == ContractRow(coin, platform)
      invariant forall row :: multiset(rows)[row] == |PlatformsOf(coin, coin.platforms.Keys - rest, row)|
      decreases rest
    {
      var platform :| platform in rest;
      ghost var before := rest;
      rest := rest - {platform};
      assert forall q :: q !in rest <==> q !in before || q == platform;
      assert coin.platforms.Keys - rest == coin.platforms.Keys - before + {platform};
      OneMorePlatform(coin, coin.platforms.Keys - before, platform);
      if UsablePlatform(coin, platform) {
        usable := true;
        rows := rows + [ContractRow(coin, platform)];
      }
    }
    assert coin.platforms.Keys - rest == coin.platforms.Keys;
  }

  lemma NoPlatforms(coin: Coin)
    ensures forall row :: PlatformsOf(coin, {}, row) == {}
  {
  }

  lemma OneMorePlatform(coin: Coin, done: set<string>, platform: string)
    requires platform in coin.platforms && platform !in done
    ensures forall row :: |PlatformsOf(coin, done + {platform}, row)|
                       == |PlatformsOf(coin, done, row)|
                          + if UsablePlatform(coin, platform) && ContractRow(coin, platform) == row then 1 else 0
  {
    hide UsablePlatform, ContractRow;
    forall row
      ensures PlatformsOf(coin, done + {platform}, row)
           == PlatformsOf(coin, done, row)
              + if UsablePlatform(coin, platform) && ContractRow(coin, platform) == row then {platform} else {}
    {
    }
  }

  lemma AllRemain(coin: Coin)
    ensures forall platform :: UsablePlatform(coin, platform) ==> platform in coin.platforms.Keys
  {
  }

  ghost predicate YieldedBy(coins: seq<Coin>, row: CoinMapping) {
    exists k :: 0 <= k < |coins| && Yields(coins[k], row)
  }

  lemma YieldedSnoc(coins: seq<Coin>, n: nat)
    requires n < |coins|
    ensures forall row :: YieldedBy(coins[..n + 1], row) <==> YieldedBy(coins[..n], row) || Yields(coins[n], row)
  {
    hide Yields;
    var longer := coins[..n + 1];
    assert longer == coins[..n] + [coins[n]];
    assert longer[n] == coins[n];
    forall row
      ensures YieldedBy(longer, row) <==> YieldedBy(coins[..n], row) || Yields(coins[n], row)
    {
      if YieldedBy(coins[..n], row) {
        var k :| 0 <= k < n && Yields(coins[..n][k], row);
        assert longer[k] == coins[..n][k];
      }
    }
  }

  lemma TimesSnoc(coins: seq<Coin>, n: nat)
    requires n < |coins|
    ensures forall row :: TimesYielded(coins[..n + 1], row) == TimesYielded(coins[..n], row) + Times(coins[n], row)
  {
    hide Times;
    assert coins[..n + 1][..n] == coins[..n];
  }

  /** The catalog rows of a coin list, each as often as the coins stand for it, in row order. */
  method BuildMappings(coins: seq<Coin>) returns (mappings: seq<CoinMapping>)
    ensures forall row :: row in mappings <==> YieldedBy(coins, row)
    ensures forall row :: multiset(mappings)[row] == TimesYielded(coins, row)
    ensures Ordered(RowLess, mappings)
  {
    hide *;
    var rows := [];
    NoRows(coins[..0]);
    for i := 0 to |coins|
      invariant AreRows(coins[..i], rows)
    {
      var more := CoinRows(coins[i]);
      MoreRows(coins, i, rows, more);
      rows := rows + more;
    }
    assert coins[..|coins|] == coins;
    RowOrder();
    SortOrders(RowLess, rows);
    mappings := Sort(RowLess, rows);
    SameRows(coins, rows, mappings);
  }

  /** The rows are those of the coins, each as often as the coins stand for it. */
  ghost predicate AreRows(coins: seq<Coin>, rows: seq<CoinMapping>) {
    && (forall row :: row in rows <==> YieldedBy(coins, row))
    && (forall row :: multiset(rows)[row] == TimesYielded(coins, row))
  }

  lemma NoRows(coins: seq<Coin>)
    requires coins == []
    ensures AreRows(coins, [])
  {
  }

  lemma MoreRows(coins: seq<Coin>, n: nat, rows: seq<CoinMapping>, more: seq<CoinMapping>)
    requires n < |coins| && AreRows(coins[..n], rows)
    requires forall row :: row in more <==> Yields(coins[n], row)
    requires forall row :: multiset(more)[row] == Times(coins[n], row)
    ensures AreRows(coins[..n + 1], rows + more)
  {
    YieldedSnoc(coins, n);
    TimesSnoc(coins, n);
    hide YieldedBy, Yields, TimesYielded, Times;
  }

  lemma SameRows(coins: seq<Coin>, rows: seq<CoinMapping>, sorted: seq<CoinMapping>)
    requires AreRows(coins, rows) && multiset(sorted) == multiset(rows)
    ensures forall row :: row in sorted <==> YieldedBy(coins, row)
    ensures forall row :: multiset(sorted)[row] == TimesYielded(coins, row)
  {
    hide YieldedBy, TimesYielded;
    forall row
      ensures row in sorted <==> row in rows
    {
      assert row in sorted <==> row in multiset(sorted);
      assert row in rows <==> row in multiset(rows);
    }
  }

  /** Rows compare by identifier, then chain, then address; rows equal in all three are tied. */
  lemma RowOrder()
    ensures WeakOrder(RowLess)
  {
    forall a, b
      ensures RowLess(a, b) <==> ThreeWay(a.id, a.chain, a.address, b.id, b.chain, b.address)
    {
    }
    forall a, b, c
      ensures RowLess(a, b) ==> !RowLess(b, a)
      ensures !RowLess(b, a) && !RowLess(c, b) ==> !RowLess(c, a)
    {
      ThreeWayOrder(a.id, a.chain, a.address, b.id, b.chain, b.address, c.id, c.chain, c.address);
    }
  }

  datatype Catalog = Catalog(byContract: map<string, seq<CoinMapping>>, byNative: map<string, seq<CoinMapping>>,
                             count: nat)

  function ContractLookupKey(chain: string, address: string): string {
    ToLower(TrimSpace(chain)) + "\0" + NormalizePlatformAddress(address)
  }

  function NativeLookupKey(symbol: string): string {
    ToLower(TrimSpace(symbol))
  }

  predicate IsNativeRow(row: CoinMapping, key: string) {
    row.address == NATIVE_ADDRESS && NativeLookupKey(row.symbol) == key
  }

  predicate IsContractRow(row: CoinMapping, key: string) {
    row.address != NATIVE_ADDRESS && ContractLookupKey(row.chain, row.address) == key
  }

  /** The rows a key selects, in row order. */
  function Select(rows: seq<CoinMapping>, native: bool, key: string): seq<CoinMapping> {
    if rows == [] then [] else
      var front, last := Select(rows[..|rows| - 1], native, key), rows[|rows| - 1];
      if (if native then IsNativeRow(last, key) else IsContractRow(last, key)) then front + [last] else front
  }

  /** The catalog answers every key with exactly the rows the key selects. */
  ghost predicate Indexes(catalog: Catalog, rows: seq<CoinMapping>) {
    && catalog.count == |rows|
    && (forall key :: Lookup(catalog.byContract, key) == Select(rows, false, key))
    && (forall key :: Lookup(catalog.byNative, key) == Select(rows, true, key))
  }

  function Lookup(m: map<string, seq<CoinMapping>>, key: string): seq<CoinMapping> {
    if key in m then m[key] else []
  }

  method NewCatalog(mappings: seq<CoinMapping>) returns (catalog: Catalog)
    ensures Indexes(catalog, mappings)
  {
    var byContract: map<string, seq<CoinMapping>> := map[];
    var byNative: map<string, seq<CoinMapping>> := map[];
    hide ContractLookupKey, NativeLookupKey;
    for i := 0 to |mappings|
      invariant forall key :: Lookup(byContract, key) == Select(mappings[..i], false, key)
      invariant forall key :: Lookup(byNative, key) == Select(mappings[..i], true, key)
    {
      var mapping := mappings[i];
      assert mappings[..i + 1][..i] == mappings[..i];
      if mapping.address == NATIVE_ADDRESS {
        var key := NativeLookupKey(mapping.symbol);
        byNative := byNative[key := Lookup(byNative, key) + [mapping]];
      } else {
        var key := ContractLookupKey(mapping.chain, mapping.address);
        byContract := byContract[key := Lookup(byContract, key) + [mapping]];
      }
    }
    assert mappings[..|mappings|] == mappings;
    catalog := Catalog(byContract, byNative, |mappings|);
  }

  predicate Permits(allowed: Option<set<string>>, id: string) {
    allowed.Some? ==> id in allowed.value
  }

  method OneID(candidates: seq<CoinMapping>, allowed: Option<set<string>>) returns (id: Option<string>)
    ensures id == TheOne(iset row | row in candidates && Permits(allowed, row.id) :: row.id)
  {
    var ids: set<string> := {};
    for i := 0 to |candidates|
      invariant forall x :: x in ids <==>
        exists j :: 0 <= j < i && candidates[j].id == x && Permits(allowed, x)
    {
      if allowed.Some? && candidates[i].id !in allowed.value {
        continue;
      }
      ids := ids + {candidates[i].id};
    }
    ghost var all := iset row | row in candidates && Permits(allowed, row.id) :: row.id;
    assert forall x :: x in ids <==> x in all by {
      forall x | x in ids
        ensures x in all
      {
        var j :| 0 <= j < |candidates| && candidates[j].id == x;
        assert candidates[j] in candidates;
      }
    }
    SizeOne(ids, all);
    if |ids| != 1 {
      return None;
    }
    var x :| x in ids;
    return Some(x);
  }

  lemma {:induction false} SelectMembers(rows: seq<CoinMapping>, native: bool, key: string)
    ensures forall row :: row in Select(rows, native, key) <==>
              row in rows && (if native then IsNativeRow(row, key) else IsContractRow(row, key))
  {
    hide IsNativeRow, IsContractRow;
    if rows != [] {
      SelectMembers(rows[..|rows| - 1], native, key);
      assert rows == rows[..|rows| - 1] + [rows[|rows| - 1]];
    }
  }

  ghost function RowSet(rows: seq<CoinMapping>): iset<CoinMapping> {
    iset row | row in rows
  }

  /** What a linear scan over rows, in whatever order, makes of a contract address: the one
      identifier of all matching rows, if there is exactly one. */
  ghost function ContractScan(rows: iset<CoinMapping>, chain: string, address: string): Option<string> {
    TheOne(iset row | row in rows && IsContractRow(row, ContractLookupKey(chain, address)) :: row.id)
  }

  /** What a linear scan makes of a native symbol, among the allowed identifiers. */
  ghost function NativeScan(rows: iset<CoinMapping>, symbol: string, allowed: set<string>): Option<string> {
    TheOne(iset row | row in rows && IsNativeRow(row, NativeLookupKey(symbol)) && row.id in allowed :: row.id)
  }

  method ResolveContract(catalog: Catalog, ghost rows: seq<CoinMapping>, chain: string, address: string)
    returns (id: Option<string>)
    requires Indexes(catalog, rows)
    ensures id == ContractScan(RowSet(rows), chain, address)
  {
    hide IsContractRow, ContractLookupKey, TheOne;
    var key := ContractLookupKey(chain, address);
    SelectMembers(rows, false, key);
    var candidates := Lookup(catalog.byContract, key);
    var everyone: Option<set<string>> := None;
    id := OneID(candidates, everyone);
    assert (iset row | row in candidates && Permits(everyone, row.id) :: row.id)
        == iset row | row in RowSet(rows) && IsContractRow(row, key) :: row.id;
  }

  method ResolveNative(catalog: Catalog, ghost rows: seq<CoinMapping>, symbol: string, allowed: set<string>)
    returns (id: Option<string>)
    requires Indexes(catalog, rows)
    ensures id == NativeScan(RowSet(rows), symbol, allowed)
  {
    hide IsNativeRow, NativeLookupKey, TheOne;
    var key := NativeLookupKey(symbol);
    SelectMembers(rows, true, key);
    var candidates := Lookup(catalog.byNative, key);
    var some: Option<set<string>> := Some(allowed);
    id := OneID(candidates, some);
    assert (iset row | row in candidates && Permits(some, row.id) :: row.id)
        == iset row | row in RowSet(rows) && IsNativeRow(row, key) && row.id in allowed :: row.id;
  }
}
