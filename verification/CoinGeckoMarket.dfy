/** CoinGecko lookups: resolving tokens to catalog identifiers, the comparison lookup, and the
    enrichment with its stale fallback. */
module CoinGeckoMarket {
  import opened Decimal
  import opened MarketKey
  import opened Sorting
  import opened Texts
  import opened PipelineSpec
  import opened MarketPipeline
  import opened PipelineTheorems
  import opened Requests
  import opened ComparisonSlots
  import opened Wallet
  import Catalogs = CoinGeckoCatalog

  const PRICE_BATCH_SIZE := 100

  datatype Record = Record(key: Key, coinGeckoID: string, priceUSD: Option<string>, change24HPercent: Option<real>,
                           marketCapUSD: Option<real>, marketDataUpdatedAt: Option<int>, fetchedAt: int)

  /** One identifier's answer from the price client; absent fields are absent or invalid. */
  datatype SimplePrice = SimplePrice(usd: Option<string>, change24h: Option<real>, marketCap: Option<real>,
                                     lastUpdatedAt: Option<int>)

  /** Service settings; `stamp` prints an instant. */
  datatype Service = Service(platform: string, nativeIDs: set<string>, ttl: int, missTtl: int, now: int,
                             stamp: int -> string)

  /* ---------- resolving tokens ---------- */

  function KeyOf(s: Service, t: Token): Key {
    if t.isNative then NativeKey(s.platform, t.symbol)
    else ContractKey(s.platform, if t.tokenAddress.Some? then t.tokenAddress.value else "")
  }

  /** The identifier the catalog rows give a token, if it is unique and not blank. */
  ghost function IdOf(s: Service, rows: iset<Catalogs.CoinMapping>, t: Token): Option<string> {
    var id := if t.isNative then Catalogs.NativeScan(rows, t.symbol, s.nativeIDs)
              else if t.tokenAddress.Some? && TrimSpace(t.tokenAddress.value) != "" then
                Catalogs.ContractScan(rows, s.platform, t.tokenAddress.value)
              else None;
    if id.Some? && TrimSpace(id.value) != "" then id else None
  }

  ghost function Resolved(s: Service, rows: iset<Catalogs.CoinMapping>, t: Token): Resolution<string> {
    match IdOf(s, rows, t) case None => None case Some(id) => Some((KeyOf(s, t), id))
  }

  ghost function ResolvedAll(s: Service, rows: iset<Catalogs.CoinMapping>,
                             tokens: seq<Token>): seq<Resolution<string>> {
    seq(|tokens|, i requires 0 <= i < |tokens| => Resolved(s, rows, tokens[i]))
  }

  /** The request lists each key once, and feeds it exactly the tokens that resolve and have that
      key; it expects the identifier of the first of them. */
  ghost predicate Resolves(s: Service, rows: iset<Catalogs.CoinMapping>, tokens: seq<Token>, req: Request<string>) {
    Collects(false, ResolvedAll(s, rows, tokens), req)
  }

  method ResolveToken(s: Service, catalog: Catalogs.Catalog, ghost rows: seq<Catalogs.CoinMapping>, token: Token)
    returns (resolution: Resolution<string>)
    requires Catalogs.Indexes(catalog, rows)
    ensures resolution == Resolved(s, Catalogs.RowSet(rows), token)
  {
    hide TrimSpace, ContractKey, NativeKey, Catalogs.ContractScan, Catalogs.NativeScan, Catalogs.Indexes;
    var key, id;
    if token.isNative {
      id := Catalogs.ResolveNative(catalog, rows, token.symbol, s.nativeIDs);
      key := NativeKey(s.platform, token.symbol);
    } else if token.tokenAddress.Some? && TrimSpace(token.tokenAddress.value) != "" {
      id := Catalogs.ResolveContract(catalog, rows, s.platform, token.tokenAddress.value);
      key := ContractKey(s.platform, token.tokenAddress.value);
    } else {
      id := None;
      key := ContractKey(s.platform, if token.tokenAddress.Some? then token.tokenAddress.value else "");
    }
    if id.None? || TrimSpace(id.value) == "" {
      return None;
    }
    return Some((key, id.value));
  }

  method Resolve(s: Service, catalog: Catalogs.Catalog, ghost rows: seq<Catalogs.CoinMapping>, tokens: seq<Token>)
    returns (req: Request<string>)
    requires Catalogs.Indexes(catalog, rows)
    ensures Resolves(s, Catalogs.RowSet(rows), tokens, req)
  {
    hide *;
    req := Request([], map[], map[]);
    NothingCollected<string>(false);
    ghost var all := ResolvedAll(s, Catalogs.RowSet(rows), tokens);
    assert all[..0] == [];
    AllLength(s, Catalogs.RowSet(rows), tokens);
    for i := 0 to |tokens|
      invariant Collects(false, all[..i], req)
    {
      var resolution := ResolveToken(s, catalog, rows, tokens[i]);
      assert all[..i + 1] == all[..i] + [resolution];
      CollectStep(false, all[..i], req, resolution);
      req := WithToken(false, req, resolution, i);
    }
    assert all[..|tokens|] == all;
    ResolvesIs(s, Catalogs.RowSet(rows), tokens, req);
  }

  lemma AllLength(s: Service, rows: iset<Catalogs.CoinMapping>, tokens: seq<Token>)
    ensures |ResolvedAll(s, rows, tokens)| == |tokens|
    ensures forall i | 0 <= i < |tokens| :: ResolvedAll(s, rows, tokens)[i] == Resolved(s, rows, tokens[i])
  {
  }

  lemma ResolvesIs(s: Service, rows: iset<Catalogs.CoinMapping>, tokens: seq<Token>, req: Request<string>)
    ensures Resolves(s, rows, tokens, req) <==> Collects(false, ResolvedAll(s, rows, tokens), req)
  {
  }

  lemma ResolvedIsDisjoint(s: Service, rows: iset<Catalogs.CoinMapping>, tokens: seq<Token>, req: Request<string>)
    requires Resolves(s, rows, tokens, req)
    ensures NoDuplicates(req.keyOrder) && DisjointIndexes(req)
    ensures forall k, i | k in req.indexesByKey && 0 <= i < |req.indexesByKey[k]| :: req.indexesByKey[k][i] < |tokens|
  {
    CollectedIsDisjoint(false, ResolvedAll(s, rows, tokens), req);
    hide IdOf, KeyOf, Collects;
  }

  /** What a resolved request says about one token. */
  lemma TokenInRequest(s: Service, rows: iset<Catalogs.CoinMapping>, tokens: seq<Token>, req: Request<string>,
                       key: Key, i: nat)
    requires Resolves(s, rows, tokens, req)
    ensures key in req.indexesByKey <==> key in req.keyOrder
    ensures key in req.indexesByKey && i in req.indexesByKey[key] <==>
              i < |tokens| && IdOf(s, rows, tokens[i]).Some? && KeyOf(s, tokens[i]) == key
    ensures key in req.indexesByKey ==>
              && key in req.expectedId && req.indexesByKey[key] != []
              && req.indexesByKey[key][0] in req.indexesByKey[key]
              && req.indexesByKey[key][0] < |tokens|
              && IdOf(s, rows, tokens[req.indexesByKey[key][0]]) == Some(req.expectedId[key])
  {
    AllLength(s, rows, tokens);
    hide IdOf, KeyOf, ResolvedAll;
  }

  /* ---------- one key, one identifier ---------- */

  /** A contract token whose address reads like the key of a native token. */
  predicate PosesAsNative(t: Token) {
    !t.isNative && t.tokenAddress.Some? && "native:" <= NormalizePlatformAddress(t.tokenAddress.value)
  }

  lemma LowerOfUpper(a: string, b: string)
    requires ToUpper(a) == ToUpper(b)
    ensures ToLower(a) == ToLower(b)
  {
    assert |a| == |b|;
    forall i | 0 <= i < |a|
      ensures LowerChar(a[i]) == LowerChar(b[i])
    {
      assert ToUpper(a)[i] == ToUpper(b)[i];
    }
  }

  /** Tokens of one kind that share a key share an identifier. */
  lemma SameKindSameId(s: Service, rows: iset<Catalogs.CoinMapping>, a: Token, b: Token)
    requires KeyOf(s, a) == KeyOf(s, b) && IdOf(s, rows, a).Some? && IdOf(s, rows, b).Some? && a.isNative == b.isNative
    ensures IdOf(s, rows, a) == IdOf(s, rows, b)
  {
    hide *;
    if a.isNative {
      NativeKeyDecides(s, a, b);
      SameNativeScan(s, rows, a, b);
    } else {
      ResolvedHasAddress(s, rows, a);
      ResolvedHasAddress(s, rows, b);
      ContractKeyDecides(s, a, b);
      SameContractScan(s, rows, a, b);
    }
  }

  lemma ResolvedHasAddress(s: Service, rows: iset<Catalogs.CoinMapping>, t: Token)
    requires IdOf(s, rows, t).Some? && !t.isNative
    ensures t.tokenAddress.Some?
  {
    hide TrimSpace, Catalogs.ContractScan;
  }

  lemma NativeKeyDecides(s: Service, a: Token, b: Token)
    requires KeyOf(s, a) == KeyOf(s, b) && a.isNative && b.isNative
    ensures Catalogs.NativeLookupKey(a.symbol) == Catalogs.NativeLookupKey(b.symbol)
  {
    hide TrimSpace, ToLower, ToUpper;
    var x, y := TrimSpace(a.symbol), TrimSpace(b.symbol);
    assert ("native:" + ToUpper(x))[7..] == ToUpper(x) && ("native:" + ToUpper(y))[7..] == ToUpper(y);
    LowerOfUpper(x, y);
  }

  lemma ContractKeyDecides(s: Service, a: Token, b: Token)
    requires KeyOf(s, a) == KeyOf(s, b) && !a.isNative && !b.isNative && a.tokenAddress.Some? && b.tokenAddress.Some?
    ensures NormalizePlatformAddress(a.tokenAddress.value) == NormalizePlatformAddress(b.tokenAddress.value)
    ensures Catalogs.ContractLookupKey(s.platform, a.tokenAddress.value) ==
              Catalogs.ContractLookupKey(s.platform, b.tokenAddress.value)
  {
    hide TrimSpace, ToLower, ToUpper, NormalizePlatformAddress;
  }

  lemma SameNativeScan(s: Service, rows: iset<Catalogs.CoinMapping>, a: Token, b: Token)
    requires Catalogs.NativeLookupKey(a.symbol) == Catalogs.NativeLookupKey(b.symbol) && a.isNative && b.isNative
    ensures IdOf(s, rows, a) == IdOf(s, rows, b)
  {
    hide TrimSpace, TheOne, Catalogs.NativeLookupKey;
  }

  lemma SameContractScan(s: Service, rows: iset<Catalogs.CoinMapping>, a: Token, b: Token)
    requires !a.isNative && !b.isNative && IdOf(s, rows, a).Some? && IdOf(s, rows, b).Some?
    requires a.tokenAddress.Some? && b.tokenAddress.Some? ==>
               Catalogs.ContractLookupKey(s.platform, a.tokenAddress.value) ==
                   Catalogs.ContractLookupKey(s.platform, b.tokenAddress.value)
    ensures IdOf(s, rows, a) == IdOf(s, rows, b)
  {
    hide TrimSpace, TheOne, Catalogs.ContractLookupKey;
  }

  /** A native token and a contract posing as native that share a key but not an identifier. */
  ghost predicate Clash(s: Service, rows: iset<Catalogs.CoinMapping>, native: Token, contract: Token) {
    && native.isNative && PosesAsNative(contract) && KeyOf(s, native) == KeyOf(s, contract)
    && IdOf(s, rows, native).Some? && IdOf(s, rows, contract).Some? && IdOf(s, rows, native) != IdOf(s, rows, contract)
  }

  /** No two tokens of the list clash. */
  ghost predicate ClashFree(s: Service, rows: iset<Catalogs.CoinMapping>, tokens: seq<Token>) {
    forall a, b | a in tokens && b in tokens :: !Clash(s, rows, a, b)
  }

  lemma ClashFreeIs(s: Service, rows: iset<Catalogs.CoinMapping>, tokens: seq<Token>)
    ensures ClashFree(s, rows, tokens) <==> forall a, b | a in tokens && b in tokens :: !Clash(s, rows, a, b)
  {
    hide Clash;
  }

  /** Every token resolves to the identifier the request expects for the key that feeds it. */
  ghost predicate AllAgree(s: Service, rows: iset<Catalogs.CoinMapping>, tokens: seq<Token>, req: Request<string>) {
    forall key, i: nat | IsFed(req, key, i) :: Agrees(s, rows, tokens, req, key, i)
  }

  /** The key feeds the token at `i`. */
  predicate IsFed(req: Request<string>, key: Key, i: nat) {
    key in req.indexesByKey && i in req.indexesByKey[key]
  }

  /** The token at `i` resolves to the identifier the request expects for the key. */
  ghost predicate Agrees(s: Service, rows: iset<Catalogs.CoinMapping>, tokens: seq<Token>, req: Request<string>,
                         key: Key, i: nat) {
    i < |tokens| && key in req.expectedId && IdOf(s, rows, tokens[i]) == Some(req.expectedId[key])
  }

  /** The tokens of every key resolve to the identifier expected for it if and only if no native
      token and contract of the list clash. */
  lemma TokensAgree(s: Service, rows: iset<Catalogs.CoinMapping>, tokens: seq<Token>, req: Request<string>)
    requires Resolves(s, rows, tokens, req)
    ensures AllAgree(s, rows, tokens, req) <==> ClashFree(s, rows, tokens)
  {
    hide *;
    ClashFreeIs(s, rows, tokens);
    if ClashFree(s, rows, tokens) {
      forall key, i: nat | IsFed(req, key, i)
        ensures Agrees(s, rows, tokens, req, key, i)
      {
        TokenAgrees(s, rows, tokens, req, key, i);
      }
    }
    if AllAgree(s, rows, tokens, req) {
      forall a, b | a in tokens && b in tokens
        ensures !Clash(s, rows, a, b)
      {
        var i :| 0 <= i < |tokens| && tokens[i] == a;
        var j :| 0 <= j < |tokens| && tokens[j] == b;
        PosingTokenDisagrees(s, rows, tokens, req, i, j);
      }
    }
    AllAgreeIs(s, rows, tokens, req);
  }

  lemma AllAgreeIs(s: Service, rows: iset<Catalogs.CoinMapping>, tokens: seq<Token>, req: Request<string>)
    ensures AllAgree(s, rows, tokens, req) <==>
              forall key, i: nat | IsFed(req, key, i) :: Agrees(s, rows, tokens, req, key, i)
  {
    hide Agrees, IsFed;
  }

  lemma AgreesIs(s: Service, rows: iset<Catalogs.CoinMapping>, tokens: seq<Token>, req: Request<string>, key: Key,
                 i: nat)
    ensures IsFed(req, key, i) <==> key in req.indexesByKey && i in req.indexesByKey[key]
    ensures Agrees(s, rows, tokens, req, key, i) <==>
              i < |tokens| && key in req.expectedId && IdOf(s, rows, tokens[i]) == Some(req.expectedId[key])
  {
    hide IdOf;
  }

  /** One token against the first of its key. */
  lemma TokenAgrees(s: Service, rows: iset<Catalogs.CoinMapping>, tokens: seq<Token>, req: Request<string>, key: Key,
                    i: nat)
    requires Resolves(s, rows, tokens, req) && IsFed(req, key, i)
    requires ClashFree(s, rows, tokens)
    ensures Agrees(s, rows, tokens, req, key, i)
  {
    hide *;
    ClashFreeIs(s, rows, tokens);
    AgreesIs(s, rows, tokens, req, key, i);
    TokenInRequest(s, rows, tokens, req, key, i);
    var first := req.indexesByKey[key][0];
    TokenInRequest(s, rows, tokens, req, key, first);
    assert tokens[i] in tokens && tokens[first] in tokens;
    if tokens[i].isNative == tokens[first].isNative {
      SameKindSameId(s, rows, tokens[i], tokens[first]);
    } else if tokens[i].isNative {
      NativeAndContract(s, tokens[i], tokens[first]);
      ClashIs(s, rows, tokens[i], tokens[first]);
    } else {
      NativeAndContract(s, tokens[first], tokens[i]);
      ClashIs(s, rows, tokens[first], tokens[i]);
    }
  }

  lemma ClashIs(s: Service, rows: iset<Catalogs.CoinMapping>, native: Token, contract: Token)
    ensures Clash(s, rows, native, contract) <==>
              && native.isNative && PosesAsNative(contract) && KeyOf(s, native) == KeyOf(s, contract)
              && IdOf(s, rows, native).Some? && IdOf(s, rows, contract).Some?
              && IdOf(s, rows, native) != IdOf(s, rows, contract)
  {
    hide KeyOf, IdOf, PosesAsNative;
  }

  lemma KindOfKey(s: Service, t: Token)
    requires !PosesAsNative(t)
    ensures t.isNative <==> "native:" <= KeyOf(s, t).tokenKey
  {
    hide ToUpper, TrimSpace, HasHexPrefix;
    if !t.isNative && t.tokenAddress.None? {
      EmptyKey();
    }
  }

  lemma EmptyKey()
    ensures NormalizePlatformAddress("") == ""
  {
    assert TrimSpace("") == "";
    assert !HasHexPrefix("");
  }

  /** Wherever two tokens of a list clash, one key feeds both, and one of them is fed an
      identifier that the catalog does not give it. */
  lemma PosingTokenDisagrees(s: Service, rows: iset<Catalogs.CoinMapping>, tokens: seq<Token>, req: Request<string>,
                             i: nat, j: nat)
    requires Resolves(s, rows, tokens, req) && i < |tokens| && j < |tokens|
    ensures Clash(s, rows, tokens[i], tokens[j]) ==>
              var key := KeyOf(s, tokens[j]);
              && IsFed(req, key, i) && IsFed(req, key, j)
              && !(Agrees(s, rows, tokens, req, key, i) && Agrees(s, rows, tokens, req, key, j))
    ensures Clash(s, rows, tokens[i], tokens[j]) ==> !AllAgree(s, rows, tokens, req)
  {
    hide *;
    var key := KeyOf(s, tokens[j]);
    ClashIs(s, rows, tokens[i], tokens[j]);
    TokenInRequest(s, rows, tokens, req, key, i);
    TokenInRequest(s, rows, tokens, req, key, j);
    AgreesIs(s, rows, tokens, req, key, i);
    AgreesIs(s, rows, tokens, req, key, j);
    AllAgreeIs(s, rows, tokens, req);
  }

  /** A catalog of a native coin with this symbol, and of another coin with a contract at an
      address that reads like the key of that native coin. */
  ghost function PosingRows(chain: string, symbol: string, address: string): iset<Catalogs.CoinMapping> {
    iset{Catalogs.CoinMapping("ether", "Ether", symbol, ToLower(symbol), Catalogs.NATIVE_ADDRESS),
         Catalogs.CoinMapping("other", "Other", "OTHER", chain, address)}
  }

  /** Lists do clash: on every platform, for every upper-case symbol, with the token at the address
      that is "native:" and the symbol. */
  lemma ClashIsReached(s: Service, native: Token, contract: Token, symbol: string, address: string)
    requires symbol != "" && Bare(symbol) && ToUpper(symbol) == symbol && address == "native:" + symbol
    requires "ether" in s.nativeIDs && native.isNative && native.symbol == symbol
    requires !contract.isNative && contract.tokenAddress == Some(address)
    ensures Clash(s, PosingRows(s.platform, symbol, address), native, contract)
  {
    hide *;
    var rows := PosingRows(s.platform, symbol, address);
    TrimmedIsBare(symbol);
    PosingAddress(symbol, address);
    PosingNative(s, symbol, address);
    PosingContract(s, symbol, address);
    PosingIds(s, native, contract, symbol, address);
    PosingKeys(s, native, contract, symbol, address);
    ClashIs(s, rows, native, contract);
  }

  /** "ETH" is such a symbol, and "native:ETH" the address. */
  lemma PosingSymbol()
    ensures Bare("ETH") && ToUpper("ETH") == "ETH" && "native:" + "ETH" == "native:ETH"
  {
  }

  lemma PosingAddress(symbol: string, address: string)
    requires symbol != "" && Bare(symbol) && address == "native:" + symbol
    ensures TrimSpace(address) == address && NormalizePlatformAddress(address) == address
    ensures address != Catalogs.NATIVE_ADDRESS && "native:" <= address
  {
    assert address[0] == 'n' && address[|address| - 1] == symbol[|symbol| - 1];
    TrimmedIsBare(address);
    hide TrimSpace;
    assert ToLower(address)[0] == 'n';
    assert address[6] == ':';
  }

  lemma PosingNative(s: Service, symbol: string, address: string)
    requires "ether" in s.nativeIDs && address != Catalogs.NATIVE_ADDRESS
    ensures Catalogs.NativeScan(PosingRows(s.platform, symbol, address), symbol, s.nativeIDs) == Some("ether")
  {
    hide Catalogs.NativeLookupKey, TheOne, ToLower;
    var rows := PosingRows(s.platform, symbol, address);
    var ids := iset row | row in rows && Catalogs.IsNativeRow(row, Catalogs.NativeLookupKey(symbol))
                          && row.id in s.nativeIDs :: row.id;
    assert Catalogs.CoinMapping("ether", "Ether", symbol, ToLower(symbol), Catalogs.NATIVE_ADDRESS) in rows;
    assert ids == iset{"ether"};
    OnlyOne("ether");
  }

  lemma PosingContract(s: Service, symbol: string, address: string)
    requires address != Catalogs.NATIVE_ADDRESS
    ensures Catalogs.ContractScan(PosingRows(s.platform, symbol, address), s.platform, address) == Some("other")
  {
    hide Catalogs.ContractLookupKey, TheOne;
    var rows := PosingRows(s.platform, symbol, address);
    var key := Catalogs.ContractLookupKey(s.platform, address);
    var ids := iset row | row in rows && Catalogs.IsContractRow(row, key) :: row.id;
    assert Catalogs.CoinMapping("other", "Other", "OTHER", s.platform, address) in rows;
    assert ids == iset{"other"};
    OnlyOne("other");
  }

  lemma OnlyOne(id: string)
    ensures TheOne(iset{id}) == Some(id)
  {
  }

  lemma PosingIds(s: Service, native: Token, contract: Token, symbol: string, address: string)
    requires native.isNative && native.symbol == symbol && TrimSpace(address) == address && address != ""
    requires !contract.isNative && contract.tokenAddress == Some(address)
    requires Catalogs.NativeScan(PosingRows(s.platform, symbol, address), symbol, s.nativeIDs) == Some("ether")
    requires Catalogs.ContractScan(PosingRows(s.platform, symbol, address), s.platform, address) == Some("other")
    ensures IdOf(s, PosingRows(s.platform, symbol, address), native) == Some("ether")
    ensures IdOf(s, PosingRows(s.platform, symbol, address), contract) == Some("other")
  {
    TrimmedIsBare("ether");
    TrimmedIsBare("other");
    hide TrimSpace, Catalogs.NativeScan, Catalogs.ContractScan, PosingRows;
  }

  lemma PosingKeys(s: Service, native: Token, contract: Token, symbol: string, address: string)
    requires native.isNative && native.symbol == symbol && TrimSpace(symbol) == symbol && ToUpper(symbol) == symbol
    requires !contract.isNative && contract.tokenAddress == Some(address) && address == "native:" + symbol
    requires NormalizePlatformAddress(address) == address
    ensures KeyOf(s, native) == KeyOf(s, contract) && PosesAsNative(contract)
  {
    hide TrimSpace, ToUpper, ToLower, NormalizePlatformAddress;
  }

  lemma NativeAndContract(s: Service, native: Token, contract: Token)
    requires native.isNative && !contract.isNative && KeyOf(s, native) == KeyOf(s, contract)
    ensures PosesAsNative(contract)
  {
    if !PosesAsNative(contract) {
      KindOfKey(s, contract);
    }
  }

  /* ---------- the provider half of the cascade ---------- */

  predicate Matches(r: Record, expected: string) {
    r.coinGeckoID == expected
  }

  function FetchedAt(r: Record): int {
    r.fetchedAt
  }

  function RecordKey(r: Record): Key {
    r.key
  }

  function WithKey(r: Record, key: Key): Record {
    r.(key := key)
  }

  /** Anything at all came back: what the negative cache asks. */
  predicate HasData(r: Record) {
    r.priceUSD.Some? || r.change24HPercent.Some? || r.marketCapUSD.Some? || r.marketDataUpdatedAt.Some?
  }

  /** A comparison shows a price or a change and nothing else. */
  predicate UsableForComparison(r: Record) {
    r.priceUSD.Some? || r.change24HPercent.Some?
  }

  function NewerStaleRecord(current: Option<Record>, candidate: Record): Record {
    if current.None? || current.value.coinGeckoID == "" || candidate.fetchedAt > current.value.fetchedAt then candidate
    else current.value
  }

  /** What a run meets outside: loads, price answers by batch with the time of the answer, save
      outcomes and cancellations by effect. */
  datatype Calls = Calls(
    cache: Reply<map<Key, Record>>,
    store: Reply<map<Key, Record>>,
    misses: Reply<set<Key>>,
    prices: seq<string> -> Reply<map<string, SimplePrice>>,
    answeredAt: seq<string> -> int,
    saves: nat -> bool,
    raises: nat -> bool,
    cancelledAtStart: bool)

  function RecordFromPrice(id: string, price: SimplePrice, fetchedAt: int): Record {
    Record(Key("", ""), id, price.usd, price.change24h, price.marketCap, price.lastUpdatedAt, fetchedAt)
  }

  /** The records of one batch: the asked identifiers that were answered, each under its own. */
  function RecordsFrom(prices: Reply<map<string, SimplePrice>>, ids: seq<string>,
                       fetchedAt: int): Reply<map<string, Record>> {
    match prices
    case Failed => Failed
    case Answer(found) => Answer(map id | id in ids && id in found :: RecordFromPrice(id, found[id], fetchedAt))
  }

  method FetchRecords(prices: Reply<map<string, SimplePrice>>, ids: seq<string>, fetchedAt: int)
    returns (records: Reply<map<string, Record>>)
    ensures records == RecordsFrom(prices, ids, fetchedAt)
  {
    if prices.Failed? {
      return Failed;
    }
    var found: map<string, Record> := map[];
    for i := 0 to |ids|
      invariant found == map id | id in ids[..i] && id in prices.value ::
                  RecordFromPrice(id, prices.value[id], fetchedAt)
    {
      assert ids[..i + 1] == ids[..i] + [ids[i]];
      if ids[i] !in prices.value {
        continue;
      }
      found := found[ids[i] := RecordFromPrice(ids[i], prices.value[ids[i]], fetchedAt)];
    }
    assert ids[..|ids|] == ids;
    return Answer(found);
  }

  function WorldOf(calls: Calls): World<string, Record> {
    World(calls.cache, calls.store, calls.misses,
          ids => RecordsFrom(calls.prices(ids), ids, calls.answeredAt(ids)),
          calls.saves, calls.raises, calls.cancelledAtStart)
  }

  function ProviderOf(s: Service, enriching: bool): Provider<string, Record> {
    Provider(Matches, FetchedAt, RecordKey, WithKey, if enriching then HasData else UsableForComparison, HasData,
             NewerStaleRecord, LexLess, "", PRICE_BATCH_SIZE, s.ttl, s.missTtl, s.now)
  }

  function LookupOf(s: Service, enriching: bool, calls: Calls, req: Request<string>): Lookup<string, Record> {
    Lookup(ProviderOf(s, enriching), WorldOf(calls), req)
  }

  lemma LookupIsLawful(s: Service, enriching: bool, calls: Calls, req: Request<string>)
    ensures LookupOf(s, enriching, calls, req).Lawful()
  {
    hide LexLess;
    LexIsTotal();
  }

  /** The record is what one batch answered for its identifier, at the time of that answer. */
  predicate AnsweredIn(calls: Calls, ids: seq<string>, r: Record) {
    && calls.prices(ids).Answer? && r.coinGeckoID in ids && r.coinGeckoID in calls.prices(ids).value
    && calls.prices(ids).value[r.coinGeckoID]
       == SimplePrice(r.priceUSD, r.change24HPercent, r.marketCapUSD, r.marketDataUpdatedAt)
    && r.fetchedAt == calls.answeredAt(ids)
  }

  /** Whatever a lookup gives a key carries that key and the identifier expected for it, and is
      either within its lifetime or was just fetched. */
  lemma OutcomeIsOwn(s: Service, enriching: bool, calls: Calls, req: Request<string>, key: Key)
    requires LookupOf(s, enriching, calls, req).Lawful() && LookupOf(s, enriching, calls, req).Outcome(key).Some?
    ensures var c := LookupOf(s, enriching, calls, req);
            var r := c.Outcome(key).value;
            && r.key == key && (key in req.expectedId ==> r.coinGeckoID == req.expectedId[key])
            && (c.IsFresh(r) || exists ids :: ids in c.Batches() && AnsweredIn(calls, ids, r))
  {
    var c := LookupOf(s, enriching, calls, req);
    if c.Local(key).None? {
      var id := req.expectedId[key];
      var ids := BatchOf(c.Batches(), id).value;
      BatchOfIsOne(c.Batches(), id);
      assert ids in c.Batches() && AnsweredIn(calls, ids, c.Outcome(key).value);
    }
  }

  /* ---------- what a key gets, from what the calls answer ---------- */

  /** A tier's answer holds a record of the key and identifier that is within its lifetime and has
      something to show; a comparison shows a price or a change only. */
  predicate TierHas(s: Service, enriching: bool, tier: Reply<map<Key, Record>>, key: Key, id: string) {
    && tier.Answer? && key in tier.value && tier.value[key].coinGeckoID == id
    && RemainingTTL(tier.value[key].fetchedAt, s.now, s.ttl) > 0
    && (tier.value[key].priceUSD.Some? || tier.value[key].change24HPercent.Some?
        || (enriching && (tier.value[key].marketCapUSD.Some? || tier.value[key].marketDataUpdatedAt.Some?)))
  }

  /** The answer to a batch has something to show for an identifier. */
  predicate AnswerHas(enriching: bool, answer: Reply<map<string, SimplePrice>>, id: string) {
    && answer.Answer? && id in answer.value
    && (answer.value[id].usd.Some? || answer.value[id].change24h.Some?
        || (enriching && (answer.value[id].marketCap.Some? || answer.value[id].lastUpdatedAt.Some?)))
  }

  predicate HasMiss(calls: Calls, key: Key) {
    calls.misses.Answer? && key in calls.misses.value
  }

  /** A requested key gets the cache's record if that counts, else the store's, else, without a live
      miss, the answer of the one batch that asks for its identifier. */
  lemma OutcomeInFull(s: Service, enriching: bool, calls: Calls, req: Request<string>, key: Key)
    requires key in req.keyOrder && key in req.expectedId
    ensures var c, id := LookupOf(s, enriching, calls, req), req.expectedId[key];
            && c.Lawful()
            && if TierHas(s, enriching, calls.cache, key, id) then
                 c.Outcome(key) == Some(calls.cache.value[key].(key := key))
               else if TierHas(s, enriching, calls.store, key, id) then
                 c.Outcome(key) == Some(calls.store.value[key].(key := key))
               else if HasMiss(calls, key) then c.Outcome(key) == None
               else
                 && (exists batch :: batch in c.Batches() && id in batch)
                 && forall batch | batch in c.Batches() && id in batch ::
                      c.Outcome(key) == if !AnswerHas(enriching, calls.prices(batch), id) then None else
                                          var price := calls.prices(batch).value[id];
                                          Some(Record(key, id, price.usd, price.change24h, price.marketCap,
                                                      price.lastUpdatedAt, calls.answeredAt(batch)))
  {
    var c, id := LookupOf(s, enriching, calls, req), req.expectedId[key];
    LookupIsLawful(s, enriching, calls, req);
    TierHasIs(s, enriching, calls, req, key);
    LocalIs(c, key);
    hide *;
    LookupParts(s, enriching, calls, req);
    LookupCalls(s, enriching, calls, req, key);
    OutcomeOfTier(c, key);
    if !TierHas(s, enriching, calls.cache, key, id) && !TierHas(s, enriching, calls.store, key, id) {
      ProvidedIs(c, key);
      forall batch | batch in c.Batches() && id in batch && !HasMiss(calls, key)
        ensures c.Outcome(key) == if !AnswerHas(enriching, calls.prices(batch), id) then None else
                                    var price := calls.prices(batch).value[id];
                                    Some(Record(key, id, price.usd, price.change24h, price.marketCap,
                                                price.lastUpdatedAt, calls.answeredAt(batch)))
      {
        AnswerHasIs(s, enriching, calls, req, batch, key);
      }
    }
  }

  lemma TierHasIs(s: Service, enriching: bool, calls: Calls, req: Request<string>, key: Key)
    requires key in req.expectedId
    ensures var c := LookupOf(s, enriching, calls, req);
            && (Offers(c, c.w.cache, key) <==> TierHas(s, enriching, calls.cache, key, req.expectedId[key]))
            && (Offers(c, c.w.store, key) <==> TierHas(s, enriching, calls.store, key, req.expectedId[key]))
            && (Offers(c, c.w.cache, key) ==>
                  c.p.withKey(c.w.cache.value[key], key) == calls.cache.value[key].(key := key))
            && (Offers(c, c.w.store, key) ==>
                  c.p.withKey(c.w.store.value[key], key) == calls.store.value[key].(key := key))
  {
    hide RemainingTTL;
  }

  lemma LookupCalls(s: Service, enriching: bool, calls: Calls, req: Request<string>, key: Key)
    ensures var c := LookupOf(s, enriching, calls, req);
            HasMiss(calls, key) <==> c.w.misses.Answer? && key in c.w.misses.value
  {
  }

  lemma OutcomeOfTier(c: Lookup<string, Record>, key: Key)
    requires c.Lawful()
    ensures c.Local(key).Some? ==> c.Outcome(key) == c.Local(key)
  {
    hide Lookup.Local, Lookup.Lawful;
  }

  lemma AnswerHasIs(s: Service, enriching: bool, calls: Calls, req: Request<string>, batch: seq<string>, key: Key)
    requires key in req.expectedId && req.expectedId[key] in batch
    ensures var c, id := LookupOf(s, enriching, calls, req), req.expectedId[key];
            var reply := c.w.fetch(batch);
            (if reply.Answer? && id in reply.value && c.p.hasData(reply.value[id])
                && c.p.usable(c.p.withKey(reply.value[id], key))
             then Some(c.p.withKey(reply.value[id], key)) else None)
            == if !AnswerHas(enriching, calls.prices(batch), id) then None else
                 var price := calls.prices(batch).value[id];
                 Some(Record(key, id, price.usd, price.change24h, price.marketCap, price.lastUpdatedAt,
                             calls.answeredAt(batch)))
  {
  }

  /** What a run asks and saves: at most a hundred identifiers a batch, misses for their own
      lifetime, fetched records for a whole one, promoted ones for what is left of it. */
  lemma CallsAsConfigured(s: Service, enriching: bool, calls: Calls, req: Request<string>,
                          trace: seq<Step<string, Record>>, j: nat)
    requires var c := LookupOf(s, enriching, calls, req); c.Lawful() && c.Monitored(trace)
    requires j < |trace|
    ensures trace[j].effect.Fetch? ==> 1 <= |trace[j].effect.ids| <= 100
    ensures trace[j].effect.MissSave? ==> trace[j].effect.missTtl == s.missTtl
    ensures trace[j].effect.CacheSave? ==> forall write | write in trace[j].effect.writes ::
              write.ttl == s.ttl || write.ttl == RemainingTTL(write.record.fetchedAt, s.now, s.ttl) > 0
  {
    var c := LookupOf(s, enriching, calls, req);
    hide *;
    SettingsAre(s, enriching, calls, req);
    if trace[j].effect.Fetch? {
      FetchIsSmall(c, trace, j);
    }
    StepAllowed(c, trace, j);
    SavesAreTimed(c, c.Watch(trace[..j]), trace[j]);
  }

  lemma SettingsAre(s: Service, enriching: bool, calls: Calls, req: Request<string>)
    ensures var p := LookupOf(s, enriching, calls, req).p;
            && p.ttl == s.ttl && p.missTtl == s.missTtl && p.now == s.now && p.batchLimit == 100
            && forall r: Record :: p.fetchedAt(r) == r.fetchedAt
  {
  }

  /* ---------- the comparison lookup ---------- */

  function ToMarket(r: Record): Market<string> {
    Market(r.coinGeckoID, r.priceUSD, r.change24HPercent)
  }

  /** Fresh comparison data aligned with the tokens, as a lookup of the resolved request leaves
      it; without a catalog, of the empty request. */
  method LookupFresh(s: Service, catalog: Option<Catalogs.Catalog>, ghost rows: seq<Catalogs.CoinMapping>,
                     tokens: seq<Token>, calls: Calls)
    returns (result: seq<Option<Market<string>>>, ghost c: Lookup<string, Record>,
             ghost trace: seq<Step<string, Record>>)
    requires catalog.Some? ==> Catalogs.Indexes(catalog.value, rows)
    ensures c == LookupOf(s, false, calls, c.req)
    ensures if catalog.Some? then Resolves(s, Catalogs.RowSet(rows), tokens, c.req)
              else c.req == Request([], map[], map[])
    ensures Finished(c, ToMarket, |tokens|, trace) && result == Answered(ToMarket, |tokens|, trace)
    ensures |result| == |tokens| && (catalog.None? ==> forall i | 0 <= i < |tokens| :: result[i].None?)
    ensures catalog.Some? && ClashFree(s, Catalogs.RowSet(rows), tokens) ==>
              forall i | 0 <= i < |tokens| && result[i].Some? ::
                IdOf(s, Catalogs.RowSet(rows), tokens[i]) == Some(result[i].value.id)
    ensures forall i, key | 0 <= i < |tokens| && result[i].Some? && i in c.Indexes(key) ::
              && c.Lawful() && c.Outcome(key).Some?
              && result[i].value.id == c.Outcome(key).value.coinGeckoID
              && result[i].value.priceUSD == c.Outcome(key).value.priceUSD
              && result[i].value.change24HPercent == c.Outcome(key).value.change24HPercent
  {
    hide *;
    var req := Request([], map[], map[]);
    if catalog.Some? {
      req := Resolve(s, catalog.value, rows, tokens);
    }
    var lookup := LookupOf(s, false, calls, req);
    c := lookup;
    LookupParts(s, false, calls, req);
    if catalog.Some? {
      ResolvedFits(s, Catalogs.RowSet(rows), tokens, lookup);
    }
    EmptyFits(lookup, |tokens|);
    LookupIsLawful(s, false, calls, req);
    result, trace := LookupColumn(lookup, ToMarket, |tokens|);
    FinishedParts(c, ToMarket, |tokens|, trace);
    forall i | 0 <= i < |tokens| && result[i].Some?
      ensures catalog.Some?
      ensures ClashFree(s, Catalogs.RowSet(rows), tokens) ==>
                IdOf(s, Catalogs.RowSet(rows), tokens[i]) == Some(result[i].value.id)
    {
      var fed := FilledIsFed(c, ToMarket, |tokens|, trace, i);
      assert catalog.Some?;
      var key := SlotIsOwn(s, Catalogs.RowSet(rows), tokens, calls, c, trace, i);
    }
    forall i, key | 0 <= i < |tokens| && result[i].Some? && i in c.Indexes(key)
      ensures c.Lawful() && c.Outcome(key).Some? && result[i] == Some(ToMarket(c.Outcome(key).value))
    {
      FilledShows(c, ToMarket, |tokens|, trace, i, key);
    }
    forall r
      ensures ToMarket(r) == Market(r.coinGeckoID, r.priceUSD, r.change24HPercent)
    {
      ShownIs(r);
    }
  }

  lemma ResolvedFits(s: Service, rows: iset<Catalogs.CoinMapping>, tokens: seq<Token>, c: Lookup<string, Record>)
    requires Resolves(s, rows, tokens, c.req)
    ensures IndexesFit(c, |tokens|)
  {
    ResolvedIsDisjoint(s, rows, tokens, c.req);
    hide IdOf, KeyOf, DisjointIndexes, NoDuplicates;
  }

  lemma IndexedIsListed(s: Service, rows: iset<Catalogs.CoinMapping>, tokens: seq<Token>, c: Lookup<string, Record>)
    requires Resolves(s, rows, tokens, c.req)
    ensures forall i, key | i in c.Indexes(key) :: key in c.req.keyOrder
  {
    hide IdOf, KeyOf;
  }

  lemma LookupParts(s: Service, enriching: bool, calls: Calls, req: Request<string>)
    ensures LookupOf(s, enriching, calls, req).req == req
    ensures LookupOf(s, enriching, calls, req).p == ProviderOf(s, enriching)
    ensures LookupOf(s, enriching, calls, req) == LookupOf(s, enriching, calls, LookupOf(s, enriching, calls, req).req)
  {
  }

  /** The record is within its lifetime, or what a batch of the lookup just answered for it. */
  ghost predicate IsCurrent(c: Lookup<string, Record>, calls: Calls, r: Record)
    requires c.Lawful()
  {
    c.IsFresh(r) || exists ids :: ids in c.Batches() && AnsweredIn(calls, ids, r)
  }

  /** A slot that shows something was written once, with a current record of the identifier its
      key expects, which is the token's own identifier unless tokens of the list clash. */
  lemma SlotIsOwn(s: Service, rows: iset<Catalogs.CoinMapping>, tokens: seq<Token>, calls: Calls,
                  c: Lookup<string, Record>, trace: seq<Step<string, Record>>, i: nat) returns (key: Key)
    requires c == LookupOf(s, false, calls, c.req) && Resolves(s, rows, tokens, c.req)
    requires Finished(c, ToMarket, |tokens|, trace) && InRange(trace, |tokens|)
    requires i < |tokens| && Answered(ToMarket, |tokens|, trace)[i].Some?
    ensures c.Lawful() && IsFed(c.req, key, i) && c.Outcome(key).Some? && IsCurrent(c, calls, c.Outcome(key).value)
    ensures Answered(ToMarket, |tokens|, trace)[i] == Some(ToMarket(c.Outcome(key).value))
    ensures ClashFree(s, rows, tokens) ==>
              IdOf(s, rows, tokens[i]) == Some(Answered(ToMarket, |tokens|, trace)[i].value.id)
    ensures forall j, k | 0 <= j < k < |trace| && trace[j].effect.Applied? && trace[k].effect.Applied? ::
              !(i in trace[j].effect.indexes && i in trace[k].effect.indexes)
  {
    hide *;
    key := FilledIsFed(c, ToMarket, |tokens|, trace, i);
    IndexesAre(c, key, i);
    AgreesIs(s, rows, tokens, c.req, key, i);
    OutcomeIsOwn(s, false, calls, c.req, key);
    TokenInRequest(s, rows, tokens, c.req, key, i);
    CurrentIs(c, calls, c.Outcome(key).value);
    ShownIs(c.Outcome(key).value);
    if ClashFree(s, rows, tokens) {
      TokenAgrees(s, rows, tokens, c.req, key, i);
    }
  }

  lemma IndexesAre(c: Lookup<string, Record>, key: Key, i: nat)
    requires i in c.Indexes(key)
    ensures key in c.req.indexesByKey && i in c.req.indexesByKey[key]
  {
  }

  lemma CurrentIs(c: Lookup<string, Record>, calls: Calls, r: Record)
    requires c.Lawful()
    ensures IsCurrent(c, calls, r) <==> c.IsFresh(r) || exists ids :: ids in c.Batches() && AnsweredIn(calls, ids, r)
  {
    hide Lookup.IsFresh, Lookup.Batches, Lookup.Lawful, AnsweredIn;
  }

  lemma ShownIs(r: Record)
    ensures ToMarket(r) == Market(r.coinGeckoID, r.priceUSD, r.change24HPercent)
  {
  }

  /* ---------- enrichment ---------- */

  function StampOr(s: Service, at: Option<int>, other: string): string {
    if at.Some? then s.stamp(at.value) else other
  }

  /** The market fields of a stale record: everything but the price. */
  function ApplyStale(s: Service, t: Token, r: Record): Token {
    t.(change24HPercent := r.change24HPercent, marketCapUSD := r.marketCapUSD,
       marketDataUpdatedAt := if r.marketDataUpdatedAt.Some? then Some(s.stamp(r.marketDataUpdatedAt.value)) else None)
  }

  /** The market fields of a fresh record, and its price if it has one. */
  function ApplyFresh(s: Service, t: Token, r: Record): Token {
    var u := ApplyStale(s, t, r);
    if r.priceUSD.None? then u
    else u.(priceUSD := r.priceUSD,
            price := Some(Price("usd", r.priceUSD.value, StampOr(s, r.marketDataUpdatedAt, ""))))
  }

  /** The fields enrichment never touches. */
  predicate SameIdentity(a: Token, b: Token) {
    && a.tokenAddress == b.tokenAddress && a.symbol == b.symbol && a.name == b.name && a.decimals == b.decimals
    && a.rawBalance == b.rawBalance && a.balance == b.balance && a.isNative == b.isNative
    && a.logoURI == b.logoURI && a.coinKey == b.coinKey
  }

  /** What enrichment may make of one token of a key: the key's outcome applied, or else a noted
      stale record applied without its price, or else the token as it was. */
  ghost predicate Enriched(s: Service, c: Lookup<string, Record>, complete: set<Key>, stale: map<Key, Record>,
                           key: Key, before: Token, after: Token)
    requires c.Lawful()
  {
    if key in complete then c.Outcome(key).Some? && after == ApplyFresh(s, before, c.Outcome(key).value)
    else if key in stale then after == ApplyStale(s, before, stale[key])
    else after == before
  }

  /** The stale record a key falls back to, from the tiers a run looked at. */
  function Fallback(stale: map<Key, Record>, key: Key): Option<Record> {
    if key in stale then Some(stale[key]) else None
  }

  /** Fills market fields on a copy of the tokens.  Length, order and identity fields stay; a
      completed key's tokens show its outcome; any other key falls back to exactly the stale
      record the tiers looked at leave for it, whether the run was cancelled or not.  Without
      cancellation both tiers were looked at and every key with an outcome is completed. */
  method EnrichTokens(s: Service, catalog: Option<Catalogs.Catalog>, ghost rows: seq<Catalogs.CoinMapping>,
                      tokens: seq<Token>, calls: Calls)
    returns (enriched: seq<Token>, ghost c: Lookup<string, Record>, ghost complete: set<Key>,
             ghost stale: map<Key, Record>, ghost trace: seq<Step<string, Record>>)
    requires catalog.Some? ==> Catalogs.Indexes(catalog.value, rows)
    ensures |enriched| == |tokens|
    ensures catalog.None? ==> enriched == tokens
    ensures catalog.Some? ==> c.Lawful() && c == LookupOf(s, true, calls, c.req)
    ensures catalog.Some? ==> Resolves(s, Catalogs.RowSet(rows), tokens, c.req)
    ensures catalog.Some? ==> forall i, key | 0 <= i < |tokens| && i in c.Indexes(key) ::
              Enriched(s, c, complete, stale, key, tokens[i], enriched[i])
    ensures catalog.Some? ==> forall i | 0 <= i < |tokens| && Unfed(c, i) :: enriched[i] == tokens[i]
    ensures catalog.Some? ==> c.Monitored(trace) && EffectsOf(trace) <= c.Plan()
    ensures catalog.Some? ==> forall key | key in c.req.keyOrder && key !in complete ::
              Fallback(stale, key) == c.StaleIn(c.TiersSeen(c.Watch(trace)), c.req.keyOrder, key)
    ensures catalog.Some? && !c.CancelledBy(|trace|) ==>
              && EffectsOf(trace) == c.Plan() && c.TiersSeen(c.Watch(trace)) == 2
              && forall key | key in c.req.keyOrder :: key in complete <==> c.Outcome(key).Some?
  {
    hide *;
    var out := new Token[|tokens|](i requires 0 <= i < |tokens| => tokens[i]);
    assert out[..] == tokens;
    complete, stale, trace := {}, map[], [];
    c := LookupOf(s, true, calls, Request([], map[], map[]));
    if catalog.None? {
      return out[..], c, complete, stale, trace;
    }
    var req := Resolve(s, catalog.value, rows, tokens);
    var lookup := LookupOf(s, true, calls, req);
    c := lookup;
    LookupParts(s, true, calls, req);
    LookupIsLawful(s, true, calls, req);
    ResolvedIsDisjoint(s, Catalogs.RowSet(rows), tokens, req);
    var cascade := new Cascade(lookup, (t, r) => ApplyFresh(s, t, r), out);
    var completed := cascade.Run();
    complete, stale, trace := completed, cascade.stale, cascade.trace;
    SlotsOfRun(cascade);
    RunFacts(cascade);
    NotedIsStale(cascade);
    IndexedIsListed(s, Catalogs.RowSet(rows), tokens, lookup);
    ghost var applied := out[..];
    ApplyStaleAll(s, lookup, completed, cascade.stale, out);
    enriched := out[..];
    forall i | 0 <= i < |tokens| && Unfed(lookup, i)
      ensures enriched[i] == tokens[i]
    {
      UnfedIs(lookup, i);
    }
    forall i, key | 0 <= i < |tokens| && i in lookup.Indexes(key)
      ensures Enriched(s, lookup, completed, stale, key, tokens[i], enriched[i])
    {
      assert applied[i] == if key in completed then ApplyFresh(s, tokens[i], lookup.Outcome(key).value) else tokens[i];
      EnrichedIs(s, lookup, completed, stale, key, tokens[i], enriched[i]);
    }
  }

  /** No requested key feeds the token. */
  ghost predicate Unfed(c: Lookup<string, Record>, i: nat) {
    forall key | key in c.req.keyOrder :: i !in c.Indexes(key)
  }

  lemma UnfedIs(c: Lookup<string, Record>, i: nat)
    ensures Unfed(c, i) <==> forall key | key in c.req.keyOrder :: i !in c.Indexes(key)
  {
    hide Lookup.Indexes;
  }

  lemma NotedIsStale<O>(run: Cascade<string, Record, O>)
    requires run.Valid()
    ensures run.stale == run.seen.stale
    ensures forall key :: run.c.Noted(run.seen, key) == Fallback(run.stale, key)
  {
  }

  lemma EnrichedIs(s: Service, c: Lookup<string, Record>, complete: set<Key>, stale: map<Key, Record>,
                   key: Key, before: Token, after: Token)
    requires c.Lawful() && (key in complete ==> c.Outcome(key).Some?)
    requires after == if key in complete then ApplyFresh(s, before, c.Outcome(key).value)
                      else if key in stale then ApplyStale(s, before, stale[key]) else before
    ensures Enriched(s, c, complete, stale, key, before, after)
  {
  }

  /** The fallback loop: every incomplete key with a stale record shows it at its indexes. */
  method ApplyStaleAll(s: Service, c: Lookup<string, Record>, complete: set<Key>, stale: map<Key, Record>,
                       out: array<Token>)
    requires NoDuplicates(c.req.keyOrder) && DisjointIndexes(c.req)
    requires forall key, i | key in c.req.indexesByKey && 0 <= i < |c.req.indexesByKey[key]| ::
               c.req.indexesByKey[key][i] < out.Length
    modifies out
    ensures forall i, key | 0 <= i < out.Length && i in c.Indexes(key) && key in c.req.keyOrder ::
              out[i] == if key !in complete && key in stale then ApplyStale(s, old(out[i]), stale[key]) else old(out[i])
    ensures forall i | 0 <= i < out.Length && (forall key | key in c.req.keyOrder :: i !in c.Indexes(key)) ::
              out[i] == old(out[i])
  {
    hide ApplyStale, DisjointIndexes;
    var keys := c.req.keyOrder;
    for n := 0 to |keys|
      invariant forall i, key | 0 <= i < out.Length && i in c.Indexes(key) && key in keys ::
                  out[i] == if key in keys[..n] && key !in complete && key in stale then
                      ApplyStale(s, old(out[i]), stale[key]) else old(out[i])
      invariant forall i | 0 <= i < out.Length && (forall key | key in keys :: i !in c.Indexes(key)) ::
                  out[i] == old(out[i])
    {
      assert keys[..n + 1] == keys[..n] + [keys[n]];
      var key := keys[n];
      if key !in complete && key in stale {
        ghost var before := out[..];
        OneKeyOnly(c, key);
        StaleAt(s, c.Indexes(key), stale[key], out);
        assert key !in keys[..n];
      }
    }
    assert keys[..|keys|] == keys;
  }

  lemma OneKeyOnly(c: Lookup<string, Record>, key: Key)
    requires DisjointIndexes(c.req)
    ensures NoDuplicates(c.Indexes(key))
    ensures forall other, i | other != key && i in c.Indexes(key) :: i !in c.Indexes(other)
  {
  }

  method StaleAt(s: Service, indexes: seq<nat>, record: Record, out: array<Token>)
    requires NoDuplicates(indexes) && forall j | 0 <= j < |indexes| :: indexes[j] < out.Length
    modifies out
    ensures forall i | 0 <= i < out.Length :: out[i] == if i in indexes then ApplyStale(s, old(out[i]), record)
              else old(out[i])
  {
    hide ApplyStale;
    for j := 0 to |indexes|
      invariant forall i | 0 <= i < out.Length :: out[i] == if i in indexes[..j] then
                  ApplyStale(s, old(out[i]), record) else old(out[i])
    {
      assert indexes[..j + 1] == indexes[..j] + [indexes[j]];
      assert indexes[j] !in indexes[..j];
      out[indexes[j]] := ApplyStale(s, out[indexes[j]], record);
    }
    assert indexes[..|indexes|] == indexes;
  }

  /** Enrichment keeps identity; and an expired record, unlike an outcome, never touches a price:
      a changed price is the price of the key's outcome. */
  lemma PriceIsNeverStale(s: Service, c: Lookup<string, Record>, complete: set<Key>, stale: map<Key, Record>,
                          key: Key, before: Token, after: Token)
    requires c.Lawful() && Enriched(s, c, complete, stale, key, before, after)
    ensures SameIdentity(after, before)
    ensures key in complete || key in stale ==>
              var r := if key in complete then c.Outcome(key).value else stale[key];
              after.change24HPercent == r.change24HPercent && after.marketCapUSD == r.marketCapUSD
              && (after.marketDataUpdatedAt.Some? <==> r.marketDataUpdatedAt.Some?)
    ensures after.price != before.price || after.priceUSD != before.priceUSD ==>
              key in complete && c.Outcome(key).Some? && c.Outcome(key).value.priceUSD.Some?
              && after.priceUSD == c.Outcome(key).value.priceUSD && after.price.Some?
              && after.price.value.value == after.priceUSD.value
  {
    hide Lookup.Outcome;
  }

  /** A tier's answer holds a record of the key and identifier that is past its lifetime. */
  predicate TierHasExpired(s: Service, tier: Reply<map<Key, Record>>, key: Key, id: string) {
    && tier.Answer? && key in tier.value && tier.value[key].coinGeckoID == id
    && RemainingTTL(tier.value[key].fetchedAt, s.now, s.ttl) == 0
  }

  /** The expired records that the tiers hold for a key. */
  lemma ExpiredInFull(s: Service, calls: Calls, req: Request<string>, key: Key)
    requires key in req.expectedId
    ensures var c, id := LookupOf(s, true, calls, req), req.expectedId[key];
            && c.Expired(c.Cached(key)) == (if TierHasExpired(s, calls.cache, key, id)
                                            then Some(calls.cache.value[key].(key := key)) else None)
            && c.Expired(c.Stored(key)) == (if TierHasExpired(s, calls.store, key, id)
                                            then Some(calls.store.value[key].(key := key)) else None)
  {
    hide RemainingTTL;
  }

  /** All that an enriched token shows: of a completed key's outcome the market fields, the market
      time printed, and its price over whatever price there was; of a stale record everything but
      the price; and otherwise what it showed before. */
  lemma EnrichedShows(s: Service, c: Lookup<string, Record>, complete: set<Key>, stale: map<Key, Record>,
                      key: Key, before: Token, after: Token)
    requires c.Lawful() && Enriched(s, c, complete, stale, key, before, after)
    ensures key in complete ==> c.Outcome(key).Some?
    ensures key !in complete && key !in stale ==> after == before
    ensures key in complete || key in stale ==>
              var r := if key in complete then c.Outcome(key).value else stale[key];
              var stamp := if r.marketDataUpdatedAt.Some? then Some(s.stamp(r.marketDataUpdatedAt.value)) else None;
              var shown := before.(change24HPercent := r.change24HPercent, marketCapUSD := r.marketCapUSD,
                                   marketDataUpdatedAt := stamp);
              after == if key !in complete || r.priceUSD.None? then shown
                       else shown.(priceUSD := Some(r.priceUSD.value),
                                   price := Some(Price("usd", r.priceUSD.value,
                                                       if stamp.Some? then stamp.value else "")))
  {
    hide Lookup.Outcome;
  }

  /** The stale record the tiers looked at leave for a key is an expired matching record of one
      of them, under that key and its expected identifier, and no expired matching record of
      either is newer; there is none exactly when none of them holds one. */
  lemma StaleIsNewest(s: Service, enriching: bool, calls: Calls, req: Request<string>, tiers: nat, key: Key)
    requires key in req.keyOrder && key in req.expectedId && req.expectedId[key] != "" && 1 <= tiers <= 2
    ensures var c := LookupOf(s, enriching, calls, req);
            var a, b := c.Expired(c.Cached(key)), if tiers == 2 then c.Expired(c.Stored(key)) else None;
            var found := c.StaleIn(tiers, req.keyOrder, key);
            && (found.None? <==> a.None? && b.None?)
            && (found.Some? ==>
                  var r := found.value;
                  && (a == Some(r) || b == Some(r)) && r.key == key && r.coinGeckoID == req.expectedId[key]
                  && (a.Some? ==> a.value.fetchedAt <= r.fetchedAt) && (b.Some? ==> b.value.fetchedAt <= r.fetchedAt))
  {
  }

  /** A token whose key no tier completed, in whatever run: its price fields stay, and its other
      market fields come from the newest expired matching record of the tiers looked at. */
  lemma FallbackIsNewest(s: Service, calls: Calls, req: Request<string>, complete: set<Key>, stale: map<Key, Record>,
                         tiers: nat, key: Key, before: Token, after: Token)
    requires var c := LookupOf(s, true, calls, req);
             && c.Lawful() && Enriched(s, c, complete, stale, key, before, after)
             && Fallback(stale, key) == c.StaleIn(tiers, req.keyOrder, key)
    requires key !in complete && key in req.keyOrder && key in req.expectedId && req.expectedId[key] != ""
    requires 1 <= tiers <= 2
    ensures SameIdentity(after, before) && after.price == before.price && after.priceUSD == before.priceUSD
    ensures var c := LookupOf(s, true, calls, req);
            var a, b := c.Expired(c.Cached(key)), if tiers == 2 then c.Expired(c.Stored(key)) else None;
            if a.None? && b.None? then after == before else
              exists r ::
                && (a == Some(r) || b == Some(r)) && after == ApplyStale(s, before, r)
                && r.coinGeckoID == req.expectedId[key]
                && (a.Some? ==> a.value.fetchedAt <= r.fetchedAt) && (b.Some? ==> b.value.fetchedAt <= r.fetchedAt)
  {
    StaleIsNewest(s, true, calls, req, tiers, key);
    hide Lookup.Outcome, Lookup.Expired, Lookup.Cached, Lookup.Stored, Lookup.StaleIn, Lookup.Lawful;
    var c := LookupOf(s, true, calls, req);
    if c.StaleIn(tiers, req.keyOrder, key).Some? {
      var r := c.StaleIn(tiers, req.keyOrder, key).value;
      assert stale[key] == r;
    }
  }
}
