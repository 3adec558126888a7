/** What a wallet's token resolves to, from the token itself and the providers' listings. */
module TokenListings {
  import opened Decimal
  import opened MarketKey
  import opened Sorting
  import Wallet
  import opened CatalogListings
  import CG = CoinGeckoCatalog
  import CMC = CoinMarketCapCatalog
  import CGM = CoinGeckoMarket
  import CMCM = CoinMarketCapMarket

  /** A CoinGecko native token resolves to the one allowed coin its symbol names, under the chain and
      its symbol; a contract to the one coin whose listing names it, under the chain and its
      address, if names are apart from the chain's; a token with neither to nothing. */
  lemma CoinGeckoToken(s: CGM.Service, coins: seq<CG.Coin>, rows: iset<CG.CoinMapping>, t: Wallet.Token)
    requires forall row :: row in rows <==> CG.YieldedBy(coins, row)
    requires forall coin | coin in coins :: ApartFrom(coin, s.platform)
    ensures var id := CGM.IdOf(s, rows, t);
            if t.isNative then
              id == TheOne(NativeIds(coins, t.symbol, s.nativeIDs) + MarkedIds(coins, t.symbol, s.nativeIDs))
            else if t.tokenAddress.None? || Blank(t.tokenAddress.value) || IsMarker(t.tokenAddress.value) then
              id == None
            else id == TheOne(NamedIds(coins, s.platform, t.tokenAddress.value))
    ensures CGM.KeyOf(s, t).chain == ToLower(TrimSpace(s.platform))
    ensures t.isNative ==> CGM.KeyOf(s, t).tokenKey == "native:" + ToUpper(TrimSpace(t.symbol))
    ensures !t.isNative && t.tokenAddress.Some? ==>
              CGM.KeyOf(s, t).tokenKey == NormalizePlatformAddress(t.tokenAddress.value)
  {
    hide *;
    CoinGeckoKey(s, t);
    CoinGeckoId(s, rows, t);
    if t.isNative {
      NativeOfListing(coins, rows, t.symbol, s.nativeIDs);
      OneIs(NativeIds(coins, t.symbol, s.nativeIDs) + MarkedIds(coins, t.symbol, s.nativeIDs));
      forall id
        ensures id in NativeIds(coins, t.symbol, s.nativeIDs) + MarkedIds(coins, t.symbol, s.nativeIDs) ==>
                  TrimSpace(id) != ""
      {
        NativeIdsAre(coins, t.symbol, s.nativeIDs, id);
        ListedIdIsNotBlank(coins, s.platform, "", t.symbol, id);
      }
    } else if t.tokenAddress.Some? {
      var address := t.tokenAddress.value;
      var before, after := TrimSplits(address);
      ContractOfPlainListing(coins, rows, s.platform, address);
      OneIs(NamedIds(coins, s.platform, address));
      forall id
        ensures id in NamedIds(coins, s.platform, address) ==> TrimSpace(id) != ""
      {
        NamedIdsAre(coins, s.platform, address, id);
        ListedIdIsNotBlank(coins, s.platform, address, "", id);
      }
    }
  }

  lemma CoinGeckoKey(s: CGM.Service, t: Wallet.Token)
    ensures CGM.KeyOf(s, t).chain == ToLower(TrimSpace(s.platform))
    ensures t.isNative ==> CGM.KeyOf(s, t).tokenKey == "native:" + ToUpper(TrimSpace(t.symbol))
    ensures !t.isNative && t.tokenAddress.Some? ==>
              CGM.KeyOf(s, t).tokenKey == NormalizePlatformAddress(t.tokenAddress.value)
  {
    hide TrimSpace, ToLower, ToUpper, NormalizePlatformAddress;
  }

  lemma CoinGeckoId(s: CGM.Service, rows: iset<CG.CoinMapping>, t: Wallet.Token)
    ensures var id := if t.isNative then CG.NativeScan(rows, t.symbol, s.nativeIDs)
                      else if t.tokenAddress.None? || TrimSpace(t.tokenAddress.value) == "" then None
                      else CG.ContractScan(rows, s.platform, t.tokenAddress.value);
            CGM.IdOf(s, rows, t) == if id.Some? && TrimSpace(id.value) == "" then None else id
  {
    hide TrimSpace, CG.NativeScan, CG.ContractScan;
  }

  lemma ListedIdIsNotBlank(coins: seq<CG.Coin>, chain: string, address: string, symbol: string, id: string)
    ensures (exists coin :: coin in coins && NamesContract(coin, chain, address) && TrimSpace(coin.id) == id) ==>
              TrimSpace(id) != ""
    ensures (exists coin :: coin in coins && IsNativeCoin(coin, symbol) && TrimSpace(coin.id) == id) ==>
              TrimSpace(id) != ""
    ensures (exists coin :: coin in coins && IsMarked(coin, symbol) && TrimSpace(coin.id) == id) ==>
              TrimSpace(id) != ""
  {
    forall coin: CG.Coin
      ensures TrimSpace(coin.id) != "" ==> TrimSpace(TrimSpace(coin.id)) != ""
    {
      TrimmedIsBare(coin.id);
      TrimmedIsBare(TrimSpace(coin.id));
    }
    hide TrimSpace, Name, NormalizePlatformAddress, CG.UsablePlatform, IsMarker;
  }

  /** A CoinMarketCap native token, or one without an address, resolves to the configured coin; any
      other to the one coin that lists its contract, or else to the one with its symbol. */
  lemma CoinMarketCapToken(s: CMCM.Service, coins: seq<CMC.Coin>, supported: set<int>, rows: iset<CMC.CoinMapping>,
                           t: Wallet.Token)
    requires forall row :: row in rows <==> CMC.YieldedBy(coins, supported, row)
    ensures var id := CMCM.IdOf(s, rows, t);
            if t.isNative || t.tokenAddress.None? then id == if s.nativeID > 0 then Some(s.nativeID) else None
            else if Blank(t.tokenAddress.value) then id == None
            else
              var any := TheOne(Listed(coins, supported, s.platformID, t.tokenAddress.value, ""));
              var named := TheOne(Listed(coins, supported, s.platformID, t.tokenAddress.value, TrimSpace(t.symbol)));
              id == if any.Some? then any else named
    ensures CMCM.KeyOf(s, t) == if t.isNative || t.tokenAddress.None?
                                then Key(ToLower(TrimSpace(s.chain)), "native:" + ToUpper(TrimSpace(t.symbol)))
                                else Key(ToLower(TrimSpace(s.chain)), NormalizePlatformAddress(t.tokenAddress.value))
  {
    hide *;
    CoinMarketCapKey(s, t);
    CoinMarketCapId(s, rows, t);
    if t.tokenAddress.Some? {
      var before, after := TrimSplits(t.tokenAddress.value);
      ContractOfMap(coins, supported, rows, s.platformID, t.tokenAddress.value, t.symbol);
    }
  }

  lemma CoinMarketCapKey(s: CMCM.Service, t: Wallet.Token)
    ensures CMCM.KeyOf(s, t) == if t.isNative || t.tokenAddress.None?
                                then Key(ToLower(TrimSpace(s.chain)), "native:" + ToUpper(TrimSpace(t.symbol)))
                                else Key(ToLower(TrimSpace(s.chain)), NormalizePlatformAddress(t.tokenAddress.value))
  {
    hide TrimSpace, ToLower, ToUpper, NormalizePlatformAddress;
  }

  lemma CoinMarketCapId(s: CMCM.Service, rows: iset<CMC.CoinMapping>, t: Wallet.Token)
    ensures CMCM.IdOf(s, rows, t) ==
              if t.isNative || t.tokenAddress.None? then (if s.nativeID > 0 then Some(s.nativeID) else None)
              else if TrimSpace(t.tokenAddress.value) == "" then None
              else CMC.ContractScan(rows, s.platformID, t.tokenAddress.value, t.symbol)
  {
    hide TrimSpace, CMC.ContractScan;
  }
}
