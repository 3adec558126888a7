/** From a provider's listing to what the catalog built from it resolves. */
module CatalogListings {
  import opened Decimal
  import opened MarketKey
  import opened Sorting
  import opened Texts
  import CG = CoinGeckoCatalog
  import CMC = CoinMarketCapCatalog

  /** The parts of a lookup key, around the NUL that joins them. */
  lemma KeyParts(a: string, s: string, b: string, t: string)
    requires PartsApart(a, b, '\0')
    ensures a + "\0" + s == b + "\0" + t <==> a == b && s == t
  {
    if a + "\0" + s == b + "\0" + t {
      FirstPart(a, s, b, t, '\0');
    }
  }

  function Name(text: string): string {
    ToLower(TrimSpace(text))
  }

  /* ---------- CoinGecko ---------- */

  /** The coin's listing names this contract: on a platform of that name, at that address. */
  ghost predicate NamesContract(coin: CG.Coin, chain: string, address: string) {
    exists platform :: NamesOn(coin, platform, chain, address)
  }

  predicate NamesOn(coin: CG.Coin, platform: string, chain: string, address: string) {
    && TrimSpace(coin.id) != "" && CG.UsablePlatform(coin, platform) && Name(platform) == Name(chain)
    && NormalizePlatformAddress(coin.platforms[platform]) == NormalizePlatformAddress(address)
  }

  /** The coin has no contract anywhere, and this symbol. */
  ghost predicate IsNativeCoin(coin: CG.Coin, symbol: string) {
    && TrimSpace(coin.id) != "" && TrimSpace(coin.symbol) != "" && Name(coin.symbol) == Name(symbol)
    && forall platform :: !CG.UsablePlatform(coin, platform)
  }

  /** The address reads as the marker of native rows. */
  predicate IsMarker(address: string) {
    NormalizePlatformAddress(address) == CG.NATIVE_ADDRESS
  }

  /** The coin has this symbol and, on some platform, a contract whose address reads as the
      marker. */
  ghost predicate IsMarked(coin: CG.Coin, symbol: string) {
    && TrimSpace(coin.id) != "" && Name(coin.symbol) == Name(symbol)
    && exists platform :: CG.UsablePlatform(coin, platform) && IsMarker(coin.platforms[platform])
  }

  /** No platform of the coin has a name that begins with the chain's and a NUL, or the other way
      round. */
  predicate ApartFrom(coin: CG.Coin, chain: string) {
    forall platform | platform in coin.platforms :: PartsApart(Name(platform), Name(chain), '\0')
  }

  /** The coin has another contract whose lookup key is that of this one. */
  ghost predicate MixesUp(coin: CG.Coin, chain: string, address: string) {
    exists platform :: MixedOn(coin, platform, chain, address)
  }

  predicate MixedOn(coin: CG.Coin, platform: string, chain: string, address: string) {
    && TrimSpace(coin.id) != "" && CG.UsablePlatform(coin, platform) && !IsMarker(coin.platforms[platform])
    && Name(platform) != Name(chain)
    && CG.ContractLookupKey(platform, coin.platforms[platform]) == CG.ContractLookupKey(chain, address)
  }

  /** What it takes to name a contract or a native coin, in the listing's own terms. */
  lemma NamesInFull(coin: CG.Coin, platform: string, chain: string, address: string, symbol: string)
    ensures NamesOn(coin, platform, chain, address) <==>
              && !Blank(coin.id) && platform in coin.platforms && !Blank(platform) && !Blank(coin.platforms[platform])
              && SameLetters(TrimSpace(platform), TrimSpace(chain))
              && NormalizePlatformAddress(coin.platforms[platform]) == NormalizePlatformAddress(address)
    ensures IsNativeCoin(coin, symbol) <==>
              && !Blank(coin.id) && !Blank(coin.symbol) && SameLetters(TrimSpace(coin.symbol), TrimSpace(symbol))
              && forall p | p in coin.platforms :: Blank(p) || Blank(coin.platforms[p])
  {
    forall p
      ensures CG.UsablePlatform(coin, p) <==>
                p in coin.platforms && !Blank(p) && !Blank(coin.platforms[p])
    {
      CG.UsablePlatformIs(coin, p);
    }
    var b, a := TrimSplits(coin.id);
    var c, d := TrimSplits(coin.symbol);
    CaseForgets(TrimSpace(platform), TrimSpace(chain));
    CaseForgets(TrimSpace(coin.symbol), TrimSpace(symbol));
    hide TrimSpace, ToLower, Blank, Bare, NormalizePlatformAddress, SameLetters, CG.UsablePlatform;
  }

  /** The identifiers whose listing names a contract. */
  ghost function NamedIds(coins: seq<CG.Coin>, chain: string, address: string): iset<string> {
    iset coin | coin in coins && NamesContract(coin, chain, address) :: TrimSpace(coin.id)
  }

  /** The identifiers of contracts that are mixed up with this one. */
  ghost function MixedIds(coins: seq<CG.Coin>, chain: string, address: string): iset<string> {
    iset coin | coin in coins && MixesUp(coin, chain, address) :: TrimSpace(coin.id)
  }

  ghost function NativeIds(coins: seq<CG.Coin>, symbol: string, allowed: set<string>): iset<string> {
    iset coin | coin in coins && IsNativeCoin(coin, symbol) && TrimSpace(coin.id) in allowed :: TrimSpace(coin.id)
  }

  ghost function MarkedIds(coins: seq<CG.Coin>, symbol: string, allowed: set<string>): iset<string> {
    iset coin | coin in coins && IsMarked(coin, symbol) && TrimSpace(coin.id) in allowed :: TrimSpace(coin.id)
  }

  /** A contract's row answers exactly the lookups under the contract's key, unless its address is
      the marker; then it answers exactly the native lookups of the coin's symbol. */
  lemma ContractRowMatches(coin: CG.Coin, platform: string, chain: string, address: string)
    requires platform in coin.platforms
    ensures var row := CG.ContractRow(coin, platform);
            && row.id == TrimSpace(coin.id)
            && (CG.IsContractRow(row, CG.ContractLookupKey(chain, address)) <==>
                && !IsMarker(coin.platforms[platform])
                && CG.ContractLookupKey(platform, coin.platforms[platform]) == CG.ContractLookupKey(chain, address))
  {
    NormalFormsAreNormal(platform);
    NormalFormsAreNormal(coin.platforms[platform]);
    hide TrimSpace, ToLower, NormalizePlatformAddress;
  }

  /** Equal lookup keys with equal names have equal addresses. */
  lemma SameName(a: string, s: string, b: string, t: string)
    requires Name(a) == Name(b)
    ensures CG.ContractLookupKey(a, s) == CG.ContractLookupKey(b, t) <==>
              NormalizePlatformAddress(s) == NormalizePlatformAddress(t)
  {
    hide TrimSpace, ToLower, NormalizePlatformAddress;
    var n := |Name(a)| + 1;
    assert CG.ContractLookupKey(a, s)[n..] == NormalizePlatformAddress(s);
    assert CG.ContractLookupKey(b, t)[n..] == NormalizePlatformAddress(t);
  }

  lemma ContractRowAsNative(coin: CG.Coin, platform: string, symbol: string)
    requires platform in coin.platforms
    ensures var row := CG.ContractRow(coin, platform);
            && row.id == TrimSpace(coin.id)
            && (CG.IsNativeRow(row, CG.NativeLookupKey(symbol)) <==>
                IsMarker(coin.platforms[platform]) && Name(coin.symbol) == Name(symbol))
  {
    TrimmedIsBare(coin.symbol);
    TrimmedIsBare(TrimSpace(coin.symbol));
    hide TrimSpace, ToLower, NormalizePlatformAddress;
  }

  lemma NativeRowMatches(coin: CG.Coin, symbol: string)
    ensures var row := CG.NativeRow(coin);
            && (forall key :: !CG.IsContractRow(row, key)) && row.id == TrimSpace(coin.id)
            && (CG.IsNativeRow(row, CG.NativeLookupKey(symbol)) <==> Name(coin.symbol) == Name(symbol))
  {
    TrimmedIsBare(coin.symbol);
    TrimmedIsBare(TrimSpace(coin.symbol));
    hide TrimSpace, ToLower;
  }

  /** The set has one element. */
  ghost predicate Alone<T(!new)>(s: iset<T>) {
    s != iset{} && !Several(s)
  }

  /** For every listing: a contract resolves to the one identifier among the coins whose listing
      names it (none do if its address is the marker of native rows) and the coins mixed up with
      them.  So it resolves as listed if and only if, for an address other than the marker, the
      mixed-up coins add nothing, or there are several listed ones anyway, or several mixed-up ones
      and no listed one; and for the marker, if the two sets name the same one coin or neither names
      one. */
  lemma ContractOfListing(coins: seq<CG.Coin>, rows: iset<CG.CoinMapping>, chain: string, address: string)
    requires forall row :: row in rows <==> CG.YieldedBy(coins, row)
    ensures var named, mixed := NamedIds(coins, chain, address), MixedIds(coins, chain, address);
            && CG.ContractScan(rows, chain, address) == TheOne(if IsMarker(address) then mixed else named + mixed)
            && (CG.ContractScan(rows, chain, address) == TheOne(named) <==>
                if IsMarker(address) then Alone(named) || Alone(mixed) ==> named == mixed
                else mixed <= named || Several(named) || (named == iset{} && Several(mixed)))
  {
    hide *;
    var key := CG.ContractLookupKey(chain, address);
    var named, mixed := NamedIds(coins, chain, address), MixedIds(coins, chain, address);
    var found := if IsMarker(address) then mixed else named + mixed;
    var scanned := iset row | row in rows && CG.IsContractRow(row, key) :: row.id;
    forall id
      ensures id in scanned <==> id in found
    {
      NamedIdsAre(coins, chain, address, id);
      if id in scanned {
        var row :| row in rows && CG.IsContractRow(row, key) && row.id == id;
        var coin := CoinOfRow(coins, row);
        ContractRowIsNamed(coin, row, chain, address);
      }
      if id in mixed {
        var coin :| coin in coins && MixesUp(coin, chain, address) && TrimSpace(coin.id) == id;
        var row := MixedHasRow(coins, coin, chain, address);
        assert row in rows;
      } else if !IsMarker(address) && id in named {
        var coin :| coin in coins && NamesContract(coin, chain, address) && TrimSpace(coin.id) == id;
        var row := NamedHasRow(coins, coin, chain, address);
        assert row in rows;
      }
    }
    assert scanned == found;
    ScanIs(rows, chain, address);
    OneOfUnion(named, mixed);
    SameOne(named, mixed);
  }

  lemma SameOne<T(!new)>(a: iset<T>, b: iset<T>)
    ensures TheOne(a) == TheOne(b) <==> (Alone(a) || Alone(b) ==> a == b)
  {
    OneIs(a);
    OneIs(b);
    hide TheOne;
    if Alone(a) && Alone(b) && TheOne(a) == TheOne(b) {
      assert a == iset{TheOne(a).value} == b;
    }
  }

  /** Names apart from the chain's mix nothing up: a contract resolves as listed if and only if its
      address is not the marker or names no one coin, and to nothing at the marker. */
  lemma ContractOfPlainListing(coins: seq<CG.Coin>, rows: iset<CG.CoinMapping>, chain: string, address: string)
    requires forall row :: row in rows <==> CG.YieldedBy(coins, row)
    requires forall coin | coin in coins :: ApartFrom(coin, chain)
    ensures CG.ContractScan(rows, chain, address)
            == if IsMarker(address) then None else TheOne(NamedIds(coins, chain, address))
    ensures CG.ContractScan(rows, chain, address) == TheOne(NamedIds(coins, chain, address))
            <==> !IsMarker(address) || TheOne(NamedIds(coins, chain, address)).None?
  {
    hide *;
    ContractOfListing(coins, rows, chain, address);
    NothingMixed(coins, chain, address);
    assert NamedIds(coins, chain, address) + iset{} == NamedIds(coins, chain, address);
    NobodyIsOne<string>();
  }

  lemma NothingMixed(coins: seq<CG.Coin>, chain: string, address: string)
    requires forall coin | coin in coins :: ApartFrom(coin, chain)
    ensures MixedIds(coins, chain, address) == iset{}
  {
    forall coin | coin in coins
      ensures !MixesUp(coin, chain, address)
    {
      NotMixed(coin, chain, address);
    }
    hide MixesUp, TrimSpace;
  }

  lemma NotMixed(coin: CG.Coin, chain: string, address: string)
    requires ApartFrom(coin, chain)
    ensures !MixesUp(coin, chain, address)
  {
    forall platform | MixedOn(coin, platform, chain, address)
      ensures false
    {
      KeyParts(Name(platform), NormalizePlatformAddress(coin.platforms[platform]), Name(chain),
               NormalizePlatformAddress(address));
    }
  }

  /** Names that are not apart do mix contracts up. */
  lemma NamesShareKeys(c: string, d: string) returns (s: string, t: string)
    requires Name(c) + "\0" <= Name(d)
    ensures Name(c) != Name(d) && Name(c) + "\0" + s == Name(d) + "\0" + t
  {
    s, t := ShiftedParts(Name(c), Name(d), '\0');
  }

  lemma NamedIdsAre(coins: seq<CG.Coin>, chain: string, address: string, id: string)
    ensures id in NamedIds(coins, chain, address) <==>
              exists coin :: coin in coins && NamesContract(coin, chain, address) && TrimSpace(coin.id) == id
    ensures id in MixedIds(coins, chain, address) <==>
              exists coin :: coin in coins && MixesUp(coin, chain, address) && TrimSpace(coin.id) == id
  {
    hide NamesContract, MixesUp, TrimSpace;
  }

  lemma ScanIs(rows: iset<CG.CoinMapping>, chain: string, address: string)
    ensures CG.ContractScan(rows, chain, address)
            == TheOne(iset row | row in rows && CG.IsContractRow(row, CG.ContractLookupKey(chain, address)) :: row.id)
  {
  }

  lemma NobodyIsOne<T(!new)>()
    ensures TheOne<T>(iset{}) == None
  {
  }

  lemma CoinOfRow(coins: seq<CG.Coin>, row: CG.CoinMapping) returns (coin: CG.Coin)
    requires CG.YieldedBy(coins, row)
    ensures coin in coins && CG.Yields(coin, row)
  {
    hide CG.Yields;
    var k :| 0 <= k < |coins| && CG.Yields(coins[k], row);
    coin := coins[k];
  }

  lemma RowOfCoin(coins: seq<CG.Coin>, coin: CG.Coin, row: CG.CoinMapping)
    requires coin in coins && CG.Yields(coin, row)
    ensures CG.YieldedBy(coins, row)
  {
    hide CG.Yields;
    var k :| 0 <= k < |coins| && coins[k] == coin;
    assert CG.Yields(coins[k], row);
  }

  /** A row is its coin's native row, or that of one of its contracts. */
  lemma RowKinds(coin: CG.Coin, row: CG.CoinMapping) returns (platform: Option<string>)
    requires CG.Yields(coin, row)
    ensures TrimSpace(coin.id) != ""
    ensures platform.Some? ==> CG.UsablePlatform(coin, platform.value) && row == CG.ContractRow(coin, platform.value)
    ensures platform.None? ==>
              row == CG.NativeRow(coin) && TrimSpace(coin.symbol) != "" && forall p :: !CG.UsablePlatform(coin, p)
  {
    hide TrimSpace, ToLower, NormalizePlatformAddress, CG.ContractRow, CG.NativeRow, CG.UsablePlatform;
    if p :| CG.UsablePlatform(coin, p) && row == CG.ContractRow(coin, p) {
      platform := Some(p);
    } else {
      platform := None;
    }
  }

  lemma ContractRowIsNamed(coin: CG.Coin, row: CG.CoinMapping, chain: string, address: string)
    requires CG.Yields(coin, row) && CG.IsContractRow(row, CG.ContractLookupKey(chain, address))
    ensures row.id == TrimSpace(coin.id)
    ensures MixesUp(coin, chain, address) || (NamesContract(coin, chain, address) && !IsMarker(address))
  {
    var platform := RowKinds(coin, row);
    NativeRowMatches(coin, "");
    hide TrimSpace, Name, NormalizePlatformAddress, CG.IsContractRow, CG.ContractRow, CG.NativeRow, CG.Yields,
         CG.ContractLookupKey;
    ContractRowMatches(coin, platform.value, chain, address);
    if Name(platform.value) == Name(chain) {
      SameName(platform.value, coin.platforms[platform.value], chain, address);
      assert NamesOn(coin, platform.value, chain, address);
    } else {
      assert MixedOn(coin, platform.value, chain, address);
    }
  }

  lemma NamedHasRow(coins: seq<CG.Coin>, coin: CG.Coin, chain: string, address: string) returns (row: CG.CoinMapping)
    requires coin in coins && NamesContract(coin, chain, address) && !IsMarker(address)
    ensures CG.YieldedBy(coins, row) && row.id == TrimSpace(coin.id)
    ensures CG.IsContractRow(row, CG.ContractLookupKey(chain, address))
  {
    hide TrimSpace, Name, NormalizePlatformAddress, CG.IsContractRow, CG.ContractRow, CG.NativeRow, CG.YieldedBy,
         CG.ContractLookupKey;
    var platform :| NamesOn(coin, platform, chain, address);
    row := CG.ContractRow(coin, platform);
    ContractRowMatches(coin, platform, chain, address);
    SameName(platform, coin.platforms[platform], chain, address);
    RowOfCoin(coins, coin, row);
  }

  lemma MixedHasRow(coins: seq<CG.Coin>, coin: CG.Coin, chain: string, address: string) returns (row: CG.CoinMapping)
    requires coin in coins && MixesUp(coin, chain, address)
    ensures CG.YieldedBy(coins, row) && row.id == TrimSpace(coin.id)
    ensures CG.IsContractRow(row, CG.ContractLookupKey(chain, address))
  {
    hide TrimSpace, Name, NormalizePlatformAddress, CG.IsContractRow, CG.ContractRow, CG.NativeRow, CG.YieldedBy,
         CG.ContractLookupKey, IsMarker;
    var platform :| MixedOn(coin, platform, chain, address);
    row := CG.ContractRow(coin, platform);
    ContractRowMatches(coin, platform, chain, address);
    RowOfCoin(coins, coin, row);
  }

  /* ----- native symbols ----- */

  ghost predicate Several<T(!new)>(s: iset<T>) {
    exists x, y :: x in s && y in s && x != y
  }

  /** When adding elements changes the one element of a set. */
  lemma OneOfUnion<T(!new)>(a: iset<T>, b: iset<T>)
    ensures TheOne(a + b) == TheOne(a) <==> b <= a || Several(a) || (a == iset{} && Several(b))
  {
    OneIs(a);
    OneIs(b);
    OneIs(a + b);
    hide TheOne;
    if b <= a {
      assert a + b == a;
    }
    if a == iset{} {
      assert a + b == b;
    }
  }

  lemma OneIs<T(!new)>(s: iset<T>)
    ensures TheOne(s).Some? ==> TheOne(s).value in s && forall x | x in s :: x == TheOne(s).value
    ensures TheOne(s).None? <==> s == iset{} || Several(s)
  {
    if s != iset{} && !Several(s) {
      var x :| x in s;
      assert s == iset{x};
    }
  }

  /** For every listing: a native symbol resolves to the one allowed identifier among the coins
      without contracts that have the symbol and the coins that have it and a contract addressed
      like the marker.  So it resolves as listed if and only if those marked coins add nothing, or
      there are several listed coins anyway, or several marked ones and no listed one. */
  lemma NativeOfListing(coins: seq<CG.Coin>, rows: iset<CG.CoinMapping>, symbol: string, allowed: set<string>)
    requires forall row :: row in rows <==> CG.YieldedBy(coins, row)
    ensures var native, marked := NativeIds(coins, symbol, allowed), MarkedIds(coins, symbol, allowed);
            && CG.NativeScan(rows, symbol, allowed) == TheOne(native + marked)
            && (CG.NativeScan(rows, symbol, allowed) == TheOne(native) <==>
                marked <= native || Several(native) || (native == iset{} && Several(marked)))
  {
    hide *;
    var key := CG.NativeLookupKey(symbol);
    var scanned := iset row | row in rows && CG.IsNativeRow(row, key) && row.id in allowed :: row.id;
    var native, marked := NativeIds(coins, symbol, allowed), MarkedIds(coins, symbol, allowed);
    forall id
      ensures id in scanned <==> id in native + marked
    {
      NativeIdsAre(coins, symbol, allowed, id);
      if id in scanned {
        var row :| row in rows && CG.IsNativeRow(row, key) && row.id in allowed && row.id == id;
        var coin := CoinOfRow(coins, row);
        NativeRowIsCoin(coin, row, symbol);
      }
      if id in native {
        var coin :| coin in coins && IsNativeCoin(coin, symbol) && TrimSpace(coin.id) == id;
        var row := NativeHasRow(coins, coin, symbol);
        assert row in rows;
      } else if id in marked {
        var coin :| coin in coins && IsMarked(coin, symbol) && TrimSpace(coin.id) == id;
        var row := MarkedHasRow(coins, coin, symbol);
        assert row in rows;
      }
    }
    assert scanned == native + marked;
    NativeScanIs(rows, symbol, allowed);
    OneOfUnion(native, marked);
  }

  lemma NativeIdsAre(coins: seq<CG.Coin>, symbol: string, allowed: set<string>, id: string)
    ensures id in NativeIds(coins, symbol, allowed) <==>
              id in allowed && exists coin :: coin in coins && IsNativeCoin(coin, symbol) && TrimSpace(coin.id) == id
    ensures id in MarkedIds(coins, symbol, allowed) <==>
              id in allowed && exists coin :: coin in coins && IsMarked(coin, symbol) && TrimSpace(coin.id) == id
  {
    hide IsNativeCoin, IsMarked, TrimSpace;
  }

  lemma NativeScanIs(rows: iset<CG.CoinMapping>, symbol: string, allowed: set<string>)
    ensures CG.NativeScan(rows, symbol, allowed)
            == TheOne(iset row | row in rows && CG.IsNativeRow(row, CG.NativeLookupKey(symbol)) &&
                      row.id in allowed :: row.id)
  {
  }

  lemma NativeRowIsCoin(coin: CG.Coin, row: CG.CoinMapping, symbol: string)
    requires CG.Yields(coin, row) && CG.IsNativeRow(row, CG.NativeLookupKey(symbol))
    ensures (IsNativeCoin(coin, symbol) || IsMarked(coin, symbol)) && row.id == TrimSpace(coin.id)
  {
    var platform := RowKinds(coin, row);
    NativeRowMatches(coin, symbol);
    hide TrimSpace, ToLower, NormalizePlatformAddress, CG.IsNativeRow, CG.ContractRow, CG.NativeRow, CG.Yields,
         CG.UsablePlatform;
    if platform.Some? {
      ContractRowAsNative(coin, platform.value, symbol);
    }
  }

  lemma NativeHasRow(coins: seq<CG.Coin>, coin: CG.Coin, symbol: string) returns (row: CG.CoinMapping)
    requires coin in coins && IsNativeCoin(coin, symbol)
    ensures CG.YieldedBy(coins, row) && row.id == TrimSpace(coin.id)
    ensures CG.IsNativeRow(row, CG.NativeLookupKey(symbol))
  {
    hide TrimSpace, ToLower, NormalizePlatformAddress, CG.IsNativeRow, CG.NativeRow, CG.YieldedBy, CG.UsablePlatform;
    row := CG.NativeRow(coin);
    NativeRowMatches(coin, symbol);
    RowOfCoin(coins, coin, row);
  }

  lemma MarkedHasRow(coins: seq<CG.Coin>, coin: CG.Coin, symbol: string) returns (row: CG.CoinMapping)
    requires coin in coins && IsMarked(coin, symbol)
    ensures CG.YieldedBy(coins, row) && row.id == TrimSpace(coin.id)
    ensures CG.IsNativeRow(row, CG.NativeLookupKey(symbol))
  {
    hide TrimSpace, ToLower, NormalizePlatformAddress, CG.IsNativeRow, CG.ContractRow, CG.NativeRow, CG.YieldedBy,
         IsMarker;
    var platform :| CG.UsablePlatform(coin, platform) && IsMarker(coin.platforms[platform]);
    row := CG.ContractRow(coin, platform);
    ContractRowAsNative(coin, platform, symbol);
    RowOfCoin(coins, coin, row);
  }

  /** The text "native" is such an address. */
  lemma MarkerIsReached(address: string)
    requires address == "native"
    ensures IsMarker(address)
  {
    assert address[0] == 'n' && address[|address| - 1] == 'e';
    TrimmedIsBare(address);
    hide TrimSpace;
    assert ToLower(address)[0] == 'n';
  }

  /** A listing of one coin with a contract addressed like the marker: the listing names the
      contract, and the catalog does not resolve it. */
  lemma MarkerAddressIsLost(coin: CG.Coin, platform: string, rows: iset<CG.CoinMapping>)
    requires TrimSpace(coin.id) != "" && CG.UsablePlatform(coin, platform) && IsMarker(coin.platforms[platform])
    requires ApartFrom(coin, platform) && forall row :: row in rows <==> CG.YieldedBy([coin], row)
    ensures TheOne(NamedIds([coin], platform, coin.platforms[platform])) == Some(TrimSpace(coin.id))
    ensures CG.ContractScan(rows, platform, coin.platforms[platform]) == None
  {
    hide *;
    OneNamed(coin, platform);
    assert forall c | c in [coin] :: c == coin;
    ContractOfPlainListing([coin], rows, platform, coin.platforms[platform]);
    SingleIsOne(TrimSpace(coin.id));
  }

  /** The same listing has no native coin, and the catalog resolves the coin's symbol as native. */
  lemma MarkedCoinIsNative(coin: CG.Coin, platform: string, rows: iset<CG.CoinMapping>, allowed: set<string>)
    requires TrimSpace(coin.id) != "" && CG.UsablePlatform(coin, platform) && IsMarker(coin.platforms[platform])
    requires TrimSpace(coin.id) in allowed && forall row :: row in rows <==> CG.YieldedBy([coin], row)
    ensures NativeIds([coin], coin.symbol, allowed) == iset{}
    ensures CG.NativeScan(rows, coin.symbol, allowed) == Some(TrimSpace(coin.id))
  {
    hide *;
    OneMarked(coin, platform, allowed);
    NativeOfListing([coin], rows, coin.symbol, allowed);
    assert iset{} + iset{TrimSpace(coin.id)} == iset{TrimSpace(coin.id)};
    SingleIsOne(TrimSpace(coin.id));
  }

  lemma SingleIsOne<T(!new)>(x: T)
    ensures TheOne(iset{x}) == Some(x)
  {
    OneIs(iset{x});
  }

  lemma OneNamed(coin: CG.Coin, platform: string)
    requires TrimSpace(coin.id) != "" && CG.UsablePlatform(coin, platform)
    ensures NamedIds([coin], platform, coin.platforms[platform]) == iset{TrimSpace(coin.id)}
  {
    hide TrimSpace, Name, NormalizePlatformAddress, CG.UsablePlatform;
    assert NamesOn(coin, platform, platform, coin.platforms[platform]);
    assert coin in [coin] && forall c | c in [coin] :: c == coin;
  }

  lemma OneMarked(coin: CG.Coin, platform: string, allowed: set<string>)
    requires TrimSpace(coin.id) != "" && CG.UsablePlatform(coin, platform) && IsMarker(coin.platforms[platform])
    requires TrimSpace(coin.id) in allowed
    ensures NativeIds([coin], coin.symbol, allowed) == iset{}
    ensures MarkedIds([coin], coin.symbol, allowed) == iset{TrimSpace(coin.id)}
  {
    hide TrimSpace, Name, NormalizePlatformAddress, CG.UsablePlatform;
    assert coin in [coin] && IsMarked(coin, coin.symbol);
    assert forall c | c in [coin] :: c == coin;
  }

  /* ---------- CoinMarketCap ---------- */

  /** The coin's listing names this contract on a supported platform, under a symbol if one is
      given. */
  predicate Lists(coin: CMC.Coin, supported: set<int>, platformId: int, address: string, symbol: string) {
    && CMC.Usable(coin, supported) && coin.platform.value.id == platformId
    && NormalizePlatformAddress(coin.platform.value.tokenAddress) == NormalizePlatformAddress(address)
    && (symbol == "" || Name(coin.symbol) == ToLower(symbol))
  }

  /** What it takes to list a contract, in the listing's own terms. */
  lemma ListsInFull(coin: CMC.Coin, supported: set<int>, platformId: int, address: string, symbol: string)
    ensures Lists(coin, supported, platformId, address, symbol) <==>
              && coin.id > 0 && coin.isActive == 1 && coin.platform.Some? && platformId in supported
              && coin.platform.value.id == platformId && !Blank(coin.platform.value.tokenAddress)
              && NormalizePlatformAddress(coin.platform.value.tokenAddress) == NormalizePlatformAddress(address)
              && (symbol == "" || SameLetters(TrimSpace(coin.symbol), symbol))
  {
    if coin.platform.Some? {
      var before, after := TrimSplits(coin.platform.value.tokenAddress);
    }
    CaseForgets(TrimSpace(coin.symbol), symbol);
    hide TrimSpace, ToLower, Blank, Bare, SameLetters;
  }

  ghost function Listed(coins: seq<CMC.Coin>, supported: set<int>, platformId: int, address: string,
                        symbol: string): iset<int> {
    iset coin | coin in coins && Lists(coin, supported, platformId, address, symbol) :: coin.id
  }

  lemma PrintedHasNoNul(n: int)
    ensures Lacks(OfInt(n), '\0')
  {
    OfIntRoundTrip(n);
  }

  lemma PlatformKeyParts(a: int, s: string, b: int, t: string)
    ensures OfInt(a) + "\0" + s == OfInt(b) + "\0" + t <==> a == b && s == t
  {
    hide *;
    PrintedHasNoNul(a);
    PrintedHasNoNul(b);
    LackingIsApart(OfInt(a), OfInt(b), '\0');
    KeyParts(OfInt(a), s, OfInt(b), t);
    if OfInt(a) == OfInt(b) {
      OfIntInjective(a, b);
    }
  }

  lemma RowLists(coin: CMC.Coin, supported: set<int>, platformId: int, address: string, symbol: string)
    requires CMC.Usable(coin, supported)
    ensures var row := CMC.Row(coin);
            var matches := CMC.IsContractRow(row, CMC.ContractLookupKey(platformId, address))
                           && CMC.SymbolMatches(row, symbol);
            row.id == coin.id && (matches <==> Lists(coin, supported, platformId, address, symbol))
  {
    hide TrimSpace, ToLower, NormalizePlatformAddress, OfInt;
    var platform := coin.platform.value;
    NormalFormsAreNormal(platform.tokenAddress);
    PlatformKeyParts(platform.id, NormalizePlatformAddress(platform.tokenAddress), platformId,
                     NormalizePlatformAddress(address));
    TrimmedIsBare(coin.symbol);
    TrimmedIsBare(TrimSpace(coin.symbol));
  }

  lemma ScanIsListed(coins: seq<CMC.Coin>, supported: set<int>, rows: iset<CMC.CoinMapping>,
                     platformId: int, address: string, symbol: string)
    requires forall row :: row in rows <==> CMC.YieldedBy(coins, supported, row)
    ensures CMC.ScanIds(rows, platformId, address, symbol) == Listed(coins, supported, platformId, address, symbol)
  {
    hide Lists, CMC.IsContractRow, CMC.ContractLookupKey, CMC.SymbolMatches,
         CMC.Row, CMC.Usable;
    var key := CMC.ContractLookupKey(platformId, address);
    forall id
      ensures id in CMC.ScanIds(rows, platformId, address, symbol) <==>
                id in Listed(coins, supported, platformId, address, symbol)
    {
      if id in CMC.ScanIds(rows, platformId, address, symbol) {
        var row :| row in rows && CMC.IsContractRow(row, key) && CMC.SymbolMatches(row, symbol) && row.id == id;
        var k :| 0 <= k < |coins| && CMC.Yields(coins[k], supported, row);
        RowLists(coins[k], supported, platformId, address, symbol);
        assert coins[k] in coins;
      }
      if id in Listed(coins, supported, platformId, address, symbol) {
        var coin :| coin in coins && Lists(coin, supported, platformId, address, symbol) && coin.id == id;
        ListedIsUsable(coin, supported, platformId, address, symbol);
        RowLists(coin, supported, platformId, address, symbol);
        var k :| 0 <= k < |coins| && coins[k] == coin;
        assert CMC.Yields(coins[k], supported, CMC.Row(coin));
        assert CMC.Row(coin) in rows;
      }
    }
  }

  lemma ListedIsUsable(coin: CMC.Coin, supported: set<int>, platformId: int, address: string, symbol: string)
    requires Lists(coin, supported, platformId, address, symbol)
    ensures CMC.Usable(coin, supported) && coin.platform.Some?
  {
    hide TrimSpace, ToLower, NormalizePlatformAddress;
  }

  /** A contract resolves to the one identifier whose listing names it, else to the one among
      those that carry the symbol. */
  lemma ContractOfMap(coins: seq<CMC.Coin>, supported: set<int>, rows: iset<CMC.CoinMapping>,
                      platformId: int, address: string, symbol: string)
    requires forall row :: row in rows <==> CMC.YieldedBy(coins, supported, row)
    ensures var any, named := TheOne(Listed(coins, supported, platformId, address, "")),
                              TheOne(Listed(coins, supported, platformId, address, TrimSpace(symbol)));
            CMC.ContractScan(rows, platformId, address, symbol) == if any.Some? then any else named
  {
    hide CMC.YieldedBy, Listed, CMC.ScanIds, TheOne, TrimSpace;
    ScanIsListed(coins, supported, rows, platformId, address, "");
    ScanIsListed(coins, supported, rows, platformId, address, TrimSpace(symbol));
  }
}
