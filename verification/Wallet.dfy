/** Wallet tokens: normalisation, filtering, and the two metadata overlays. */
module Wallet {
  import opened Decimal
  import opened MarketKey
  import opened Balance

  datatype Price = Price(currency: string, value: string, lastUpdatedAt: string)

  datatype Token = Token(
    tokenAddress: Option<string>,
    symbol: string,
    name: string,
    decimals: int,
    rawBalance: string,
    balance: string,
    isNative: bool,
    price: Option<Price>,
    logoURI: Option<string>,
    coinKey: Option<string>,
    priceUSD: Option<string>,
    change24HPercent: Option<real>,
    marketCapUSD: Option<real>,
    marketDataUpdatedAt: Option<string>)

  /** A token as the balance provider lists it. */
  datatype RawToken = RawToken(tokenAddress: Option<string>, symbol: string, name: string, decimals: int,
                               rawBalance: string, price: Option<Price>)

  /** Metadata of a listed token. */
  datatype ListToken = ListToken(symbol: string, name: string, decimals: int, logoURI: string, coinKey: string,
                                 priceUSD: string)

  /** The verdict on an unlisted token, with its metadata. */
  datatype Validation = Validation(valid: bool, symbol: string, name: string, logoURI: string, decimals: int)

  function NonEmptyOr(text: string, other: string): string {
    if text != "" then text else other
  }

  function Present(text: string, other: Option<string>): Option<string> {
    if text != "" then Some(text) else other
  }

  /** Changes the decimals and derives the balance anew, if the raw balance can be scaled. */
  function Rescaled(t: Token, decimals: int): Token {
    if decimals > 0 && decimals != t.decimals then
      match ScaleBalance(t.rawBalance, decimals)
      case None => t
      case Some((_, scaled)) => t.(balance := scaled, decimals := decimals)
    else t
  }

  function EnrichToken(t: Token, lt: ListToken): Token {
    Rescaled(t.(symbol := NonEmptyOr(lt.symbol, t.symbol), name := NonEmptyOr(lt.name, t.name),
                logoURI := Present(lt.logoURI, t.logoURI), coinKey := Present(lt.coinKey, t.coinKey),
                priceUSD := Present(lt.priceUSD, t.priceUSD)),
             lt.decimals)
  }

  function EnrichFromValidation(t: Token, v: Validation): Token {
    Rescaled(t.(symbol := NonEmptyOr(v.symbol, t.symbol), name := NonEmptyOr(v.name, t.name),
                logoURI := Present(v.logoURI, t.logoURI)),
             v.decimals)
  }

  /** The decimals the formatter honours. */
  predicate Honoured(decimals: int) {
    decimals <= MAX_WIDTH
  }

  /** The token holds `n` base units: its raw balance prints `n`, and its balance is the one
      minimal text of `n` divided by ten to its decimals. */
  ghost predicate Holds(t: Token, n: nat) {
    && t.rawBalance == OfNat(n)
    && ReadBack(t.balance, if t.decimals <= 0 then 0 else t.decimals) == Some(n) && Minimal(t.balance)
  }

  /** The formatter prints `n` at this scale exactly: its width is one it honours, or there is no
      fraction to print. */
  predicate Prints(n: nat, decimals: int) {
    decimals <= 0 || Honoured(decimals) || Remainder(n, Pow10(decimals)) == 0
  }

  /** The token's balance is what the formatter makes of `n` base units at its decimals. */
  predicate Scales(t: Token, n: nat) {
    t.rawBalance == OfNat(n) && t.balance == Scaled(n, t.decimals)
  }

  /** Such a token holds the amount exactly when the formatter prints it. */
  lemma ScalesHolds(t: Token, n: nat)
    requires Scales(t, n)
    ensures Holds(t, n) <==> Prints(n, t.decimals)
  {
    ScaledReadsBack(n, t.decimals);
    hide Minimal, ReadBack, OfNat, Scaled, Remainder, Pow10;
  }

  /** The number a raw balance text stands for; blank text is zero. */
  function RawAmount(raw: string): Option<int> {
    var trimmed := TrimSpace(raw);
    ParseInteger(if trimmed == "" then "0" else trimmed)
  }

  /** The parts of a text that writes a number: spaces, what selects the base, the digits. */
  datatype Spelling = Spelling(before: string, lead: string, base: nat, digits: string, zeros: nat, after: string)

  predicate IsSpelling(p: Spelling, text: string, n: nat) {
    && text == p.before + (p.lead + p.digits) + p.after && Blank(p.before) && Blank(p.after)
    && 2 <= p.base <= 16 && Selects(p.lead, p.base) && ReadsAs(p.lead, p.digits)
    && WellSpaced(p.digits, p.lead != "") && DigitsOf(p.digits, p.base) && WritesNumber(p.digits, p.base, p.zeros, n)
  }

  /** The text writes the number: in hex after 0x, in binary after 0b, in octal after 0o or 0, else in
      decimal, with spaces around it. */
  ghost predicate Spells(text: string, n: nat) {
    exists p :: IsSpelling(p, text, n)
  }

  /** Such a text stands for that number. */
  lemma SpelledAmount(text: string, n: nat)
    requires Spells(text, n)
    ensures RawAmount(text) == Some(n) && IsAmount(text)
  {
    hide *;
    SpellsIs(text, n);
    var p :| IsSpelling(p, text, n);
    SpellingParts(p, text, n);
    LeadParses(p.lead, p.base, p.digits, p.zeros, n);
    LeadIsBare(p.lead, p.base, p.digits);
    TrimIs(p.before, p.lead + p.digits, p.after);
    AmountOf(text, p.lead + p.digits);
    AmountIs(text);
  }

  lemma SpellsIs(text: string, n: nat)
    ensures Spells(text, n) <==> exists p :: IsSpelling(p, text, n)
  {
    hide IsSpelling;
  }

  lemma SpellingParts(p: Spelling, text: string, n: nat)
    requires IsSpelling(p, text, n)
    ensures text == p.before + (p.lead + p.digits) + p.after && Blank(p.before) && Blank(p.after)
    ensures 2 <= p.base <= 16 && Selects(p.lead, p.base) && ReadsAs(p.lead, p.digits)
    ensures WellSpaced(p.digits, p.lead != "") && DigitsOf(p.digits, p.base)
    ensures WritesNumber(p.digits, p.base, p.zeros, n)
  {
    hide Selects, ReadsAs, WellSpaced, DigitsOf, WritesNumber, Blank;
  }

  lemma LeadIsBare(lead: string, base: nat, digits: string)
    requires 2 <= base <= 16 && Selects(lead, base) && WellSpaced(digits, lead != "") && DigitsOf(digits, base)
    ensures Bare(lead + digits) && lead + digits != ""
  {
    forall c | c == '_' || LowerChar(c) in DIGITS[..base]
      ensures !IsSpace(c)
    {
      DigitIs(c, base);
    }
    assert digits[|digits| - 1] == (lead + digits)[|lead + digits| - 1];
    assert (lead + digits)[0] == if lead == "" then digits[0] else '0';
  }

  lemma AmountOf(text: string, core: string)
    requires TrimSpace(text) == core && core != ""
    ensures RawAmount(text) == ParseInteger(core)
  {
  }

  lemma AmountIs(text: string)
    ensures IsAmount(text) <==> RawAmount(text).Some? && RawAmount(text).value >= 0
  {
    hide RawAmount;
  }

  /** Blank text stands for zero, and a minus sign in front of any other number fails. */
  lemma BlankAndNegative(before: string, after: string, n: nat)
    requires Blank(before) && Blank(after)
    ensures RawAmount(before) == Some(0)
    ensures IsAmount(before + ("-" + OfNat(n)) + after) <==> n == 0
  {
    BlankIsNothing(before);
    CanonicalReparses(0);
    assert OfNat(0) == "0";
    CanonicalReparses(n);
    SignParses('-', OfNat(n));
    DigitFirst(OfNat(n));
    TrimIs(before, "-" + OfNat(n), after);
    hide ParseInteger, OfNat, TrimSpace;
    AmountOf(before + ("-" + OfNat(n)) + after, "-" + OfNat(n));
  }

  lemma DigitFirst(s: string)
    requires Canonical(s)
    ensures s[0] != '-' && s[0] != '+' && Bare("-" + s) && "-" + s == ['-'] + s
  {
    assert IsDigit(s[0]) && IsDigit(s[|s| - 1]);
    assert ("-" + s)[|s|] == s[|s| - 1];
  }

  function Normalized(r: RawToken, rawDecimal: string, scaled: string): Token {
    Token(r.tokenAddress, r.symbol, r.name, r.decimals, rawDecimal, scaled, r.tokenAddress.None?, r.price,
          None, None, None, None, None, None)
  }

  /** What a token has from the balance provider as it is. */
  predicate FromProvider(t: Token, r: RawToken) {
    && t.tokenAddress == r.tokenAddress && t.symbol == r.symbol && t.name == r.name
    && t.decimals == r.decimals && t.price == r.price
  }

  /** Converts every raw token, or fails at the first balance that is no unsigned integer. */
  method NormalizeTokens(raw: seq<RawToken>) returns (tokens: Option<seq<Token>>)
    ensures tokens.Some? <==> forall i | 0 <= i < |raw| :: IsAmount(raw[i].rawBalance)
    ensures tokens.Some? ==> |tokens.value| == |raw| && forall i | 0 <= i < |raw| ::
              && FromProvider(tokens.value[i], raw[i]) && (tokens.value[i].isNative <==> raw[i].tokenAddress.None?)
              && Scales(tokens.value[i], RawAmount(raw[i].rawBalance).value)
              && (Holds(tokens.value[i], RawAmount(raw[i].rawBalance).value) <==>
                  Prints(RawAmount(raw[i].rawBalance).value, raw[i].decimals))
    ensures tokens.Some? ==> forall i, n | 0 <= i < |raw| && Spells(raw[i].rawBalance, n) ::
              tokens.value[i].rawBalance == OfNat(n) && tokens.value[i].balance == Scaled(n, raw[i].decimals)
  {
    hide ParseInteger, TrimSpace, Minimal, ReadBack, OfNat, Scaled, Remainder, Pow10, Scales, Holds, Prints, Honoured,
         Spells;
    var out: seq<Token> := [];
    for i := 0 to |raw|
      invariant |out| == i
      invariant forall k | 0 <= k < i :: IsAmount(raw[k].rawBalance)
      invariant forall k | 0 <= k < i ::
                  && FromProvider(out[k], raw[k]) && (out[k].isNative <==> raw[k].tokenAddress.None?)
                  && Scales(out[k], RawAmount(raw[k].rawBalance).value)
    {
      var r := raw[i];
      var scaled := ScaleBalance(r.rawBalance, r.decimals);
      if scaled.None? {
        return None;
      }
      NormalizedScales(r, scaled.value.0, scaled.value.1);
      out := out + [Normalized(r, scaled.value.0, scaled.value.1)];
    }
    forall k | 0 <= k < |raw|
      ensures Holds(out[k], RawAmount(raw[k].rawBalance).value) <==>
                Prints(RawAmount(raw[k].rawBalance).value, raw[k].decimals)
    {
      ScalesHolds(out[k], RawAmount(raw[k].rawBalance).value);
    }
    forall k, n | 0 <= k < |raw| && Spells(raw[k].rawBalance, n)
      ensures out[k].rawBalance == OfNat(n) && out[k].balance == Scaled(n, raw[k].decimals)
    {
      SpelledAmount(raw[k].rawBalance, n);
      ScalesIs(out[k], n);
    }
    return Some(out);
  }

  lemma ScalesIs(t: Token, n: nat)
    ensures Scales(t, n) <==> t.rawBalance == OfNat(n) && t.balance == Scaled(n, t.decimals)
  {
    hide OfNat, Scaled;
  }

  /** The text stands for an unsigned integer. */
  predicate IsAmount(raw: string) {
    RawAmount(raw).Some? && RawAmount(raw).value >= 0
  }

  lemma NormalizedScales(r: RawToken, rawDecimal: string, scaled: string)
    requires ScaleBalance(r.rawBalance, r.decimals) == Some((rawDecimal, scaled))
    ensures IsAmount(r.rawBalance) && Scales(Normalized(r, rawDecimal, scaled), RawAmount(r.rawBalance).value)
    ensures FromProvider(Normalized(r, rawDecimal, scaled), r)
  {
    hide ParseInteger, TrimSpace, OfNat, Scaled;
  }

  /** A token that holds an amount keeps holding it under a change of decimals, which then
      always takes effect; the change is exact precisely for decimals the formatter honours, or
      amounts that leave no fraction. */
  lemma RescaledHolds(t: Token, n: nat, decimals: int)
    requires Holds(t, n)
    ensures var u := Rescaled(t, decimals);
            && u.rawBalance == t.rawBalance && u.decimals == (if decimals > 0 then decimals else t.decimals)
            && (Holds(u, n) <==>
                  decimals <= 0 || decimals == t.decimals || Honoured(decimals) || Remainder(n, Pow10(decimals)) == 0)
  {
    CanonicalReparses(n);
    hide *;
    TrimmedIsNotBlank(n);
    RescaleIs(t, n, decimals);
    if decimals > 0 && decimals != t.decimals {
      ScaledReadsBack(n, decimals);
      HoldsIs(Rescaled(t, decimals), n);
    }
  }

  lemma TrimmedIsNotBlank(n: nat)
    requires TrimSpace(OfNat(n)) == OfNat(n) && ParseInteger(OfNat(n)) == Some(n)
    ensures forall decimals :: ScaleBalance(OfNat(n), decimals) == Some((OfNat(n), Scaled(n, decimals)))
  {
    hide TrimSpace, ParseInteger, Scaled;
    assert OfNat(n) != "";
  }

  lemma RescaleIs(t: Token, n: nat, decimals: int)
    requires Holds(t, n)
    requires forall d :: ScaleBalance(OfNat(n), d) == Some((OfNat(n), Scaled(n, d)))
    ensures Rescaled(t, decimals) == if decimals > 0 && decimals != t.decimals
                                     then t.(balance := Scaled(n, decimals), decimals := decimals) else t
    ensures t.rawBalance == OfNat(n)
    ensures Honoured(decimals) <==> decimals <= MAX_WIDTH
  {
    hide ScaleBalance, Scaled, OfNat, Minimal, ReadBack;
  }

  lemma HoldsIs(t: Token, n: nat)
    ensures Holds(t, n) <==> && t.rawBalance == OfNat(n)
                             && ReadBack(t.balance, if t.decimals <= 0 then 0 else t.decimals) == Some(n)
                             && Minimal(t.balance)
  {
  }

  /** Either overlay. */
  datatype Overlay = Listed(entry: ListToken) | Validated(verdict: Validation)

  function OverlayDecimals(o: Overlay): int {
    match o case Listed(entry) => entry.decimals case Validated(verdict) => verdict.decimals
  }

  function Overlaid(t: Token, o: Overlay): Token {
    match o case Listed(entry) => EnrichToken(t, entry) case Validated(verdict) => EnrichFromValidation(t, verdict)
  }

  function OverlaidAll(t: Token, overlays: seq<Overlay>): Token {
    if overlays == [] then t else Overlaid(OverlaidAll(t, overlays[..|overlays| - 1]), overlays[|overlays| - 1])
  }

  /** An overlay replaces exactly the texts it has, and the list entry alone the coin key and the
      price; no overlay touches what a token is or what its market data are. */
  lemma OverlayReplaces(t: Token, o: Overlay)
    ensures var u := Overlaid(t, o);
            && u == t.(symbol := u.symbol, name := u.name, logoURI := u.logoURI, coinKey := u.coinKey,
                       priceUSD := u.priceUSD, balance := u.balance, decimals := u.decimals)
            && (match o
                case Listed(e) =>
                  && (if e.symbol == "" then u.symbol == t.symbol else u.symbol == e.symbol)
                  && (if e.name == "" then u.name == t.name else u.name == e.name)
                  && (if e.logoURI == "" then u.logoURI == t.logoURI else u.logoURI == Some(e.logoURI))
                  && (if e.coinKey == "" then u.coinKey == t.coinKey else u.coinKey == Some(e.coinKey))
                  && (if e.priceUSD == "" then u.priceUSD == t.priceUSD else u.priceUSD == Some(e.priceUSD))
                case Validated(v) =>
                  && (if v.symbol == "" then u.symbol == t.symbol else u.symbol == v.symbol)
                  && (if v.name == "" then u.name == t.name else u.name == v.name)
                  && (if v.logoURI == "" then u.logoURI == t.logoURI else u.logoURI == Some(v.logoURI))
                  && u.coinKey == t.coinKey && u.priceUSD == t.priceUSD)
  {
    hide ScaleBalance;
  }

  /** The overlay changes the token's decimals. */
  predicate TakesEffect(t: Token, o: Overlay) {
    OverlayDecimals(o) > 0 && OverlayDecimals(o) != t.decimals
  }

  /** One overlay: a change of decimals derives the balance anew from the untouched raw text. */
  lemma OverlaidScales(t: Token, n: nat, o: Overlay)
    requires t.rawBalance == OfNat(n)
    ensures var u := Overlaid(t, o);
            && u.rawBalance == t.rawBalance && u.tokenAddress == t.tokenAddress && u.isNative == t.isNative
            && u.decimals == (if TakesEffect(t, o) then OverlayDecimals(o) else t.decimals)
            && (if TakesEffect(t, o) then Scales(u, n) else u.balance == t.balance)
  {
    CanonicalReparses(n);
    TrimmedIsNotBlank(n);
    hide ScaleBalance, Scaled, OfNat, TrimSpace, ParseInteger;
    assert ScaleBalance(OfNat(n), OverlayDecimals(o)) == Some((OfNat(n), Scaled(n, OverlayDecimals(o))));
  }

  /** Some overlay of the chain changed the decimals. */
  predicate Overridden(t: Token, overlays: seq<Overlay>) {
    overlays != [] &&
    (Overridden(t, overlays[..|overlays| - 1])
     || TakesEffect(OverlaidAll(t, overlays[..|overlays| - 1]), overlays[|overlays| - 1]))
  }

  /** Through any chain of overlays, in any order and of whatever decimals, the balance stays what
      the formatter makes of the same base units at the current decimals. */
  lemma {:induction false} AnyChainScales(t: Token, n: nat, overlays: seq<Overlay>)
    requires t.rawBalance == OfNat(n)
    ensures var u := OverlaidAll(t, overlays);
            && u.rawBalance == t.rawBalance
            && (if Overridden(t, overlays) then Scales(u, n) else u.balance == t.balance && u.decimals == t.decimals)
            && (Scales(t, n) ==> Scales(u, n))
  {
    if overlays != [] {
      var front := overlays[..|overlays| - 1];
      AnyChainScales(t, n, front);
      OverlaidScales(OverlaidAll(t, front), n, overlays[|overlays| - 1]);
    }
    hide Overlaid, OfNat, Scaled, TakesEffect, OverlayDecimals;
  }

  /** A token that holds an amount holds it after any chain of overlays if and only if none took
      effect, or the formatter prints the amount at the decimals the chain ends with. */
  lemma AnyChainHolds(t: Token, n: nat, overlays: seq<Overlay>)
    requires Holds(t, n)
    ensures var u := OverlaidAll(t, overlays);
            && u.rawBalance == t.rawBalance
            && (Holds(u, n) <==> !Overridden(t, overlays) || Prints(n, u.decimals))
  {
    HoldsIs(t, n);
    AnyChainScales(t, n, overlays);
    var u := OverlaidAll(t, overlays);
    hide *;
    HoldsIs(u, n);
    if Overridden(t, overlays) {
      ScalesHolds(u, n);
    }
  }

  /** What the filter consults: the native entry, the listed addresses, the verdicts. */
  datatype Lists = Lists(native: Option<ListToken>, listed: map<string, ListToken>, verdicts: map<string, Validation>)

  /** What the filter does with one token: keeps it, enriched from the list or the verdict, or
      drops it. */
  function Filtered(lists: Lists, t: Token): Option<Token> {
    if t.isNative || t.tokenAddress.None? then
      Some(if lists.native.Some? then EnrichToken(t, lists.native.value) else t)
    else if t.tokenAddress.value in lists.listed then Some(EnrichToken(t, lists.listed[t.tokenAddress.value]))
    else if t.tokenAddress.value in lists.verdicts && lists.verdicts[t.tokenAddress.value].valid then
      Some(EnrichFromValidation(t, lists.verdicts[t.tokenAddress.value]))
    else None
  }

  /** What the filter keeps, in order. */
  function FilteredAll(lists: Lists, tokens: seq<Token>): seq<Token> {
    if tokens == [] then [] else
      var front, last := FilteredAll(lists, tokens[..|tokens| - 1]), Filtered(lists, tokens[|tokens| - 1]);
      if last.Some? then front + [last.value] else front
  }

  method FilterTokens(tokens: seq<Token>, lists: Lists) returns (kept: seq<Token>)
    ensures kept == FilteredAll(lists, tokens)
  {
    hide EnrichToken, EnrichFromValidation;
    kept := [];
    for i := 0 to |tokens|
      invariant kept == FilteredAll(lists, tokens[..i])
    {
      assert tokens[..i + 1][..i] == tokens[..i];
      var t := tokens[i];
      if t.isNative || t.tokenAddress.None? {
        if lists.native.Some? {
          t := EnrichToken(t, lists.native.value);
        }
        kept := kept + [t];
        continue;
      }
      var address := t.tokenAddress.value;
      if address in lists.listed {
        kept := kept + [EnrichToken(t, lists.listed[address])];
        continue;
      }
      if address !in lists.verdicts || !lists.verdicts[address].valid {
        continue;
      }
      kept := kept + [EnrichFromValidation(t, lists.verdicts[address])];
    }
    assert tokens[..|tokens|] == tokens;
  }

  /** A token survives the filter if it is native, listed, or has a valid verdict. */
  predicate Survives(lists: Lists, t: Token) {
    t.isNative || t.tokenAddress.None? || t.tokenAddress.value in lists.listed
    || (t.tokenAddress.value in lists.verdicts && lists.verdicts[t.tokenAddress.value].valid)
  }

  /** Kept are exactly the surviving tokens, in their order, each under its own address and
      with its balance derived from the same base units. */
  lemma {:induction false} FilterKeepsAmounts(lists: Lists, tokens: seq<Token>) returns (origin: seq<nat>)
    ensures var kept := FilteredAll(lists, tokens);
            && |origin| == |kept| && (forall k | 0 <= k < |kept| :: origin[k] < |tokens|)
            && (forall j, k | 0 <= j < k < |kept| :: origin[j] < origin[k])
            && (forall i | 0 <= i < |tokens| :: i in origin <==> Survives(lists, tokens[i]))
            && (forall k | 0 <= k < |kept| ::
                  kept[k].tokenAddress == tokens[origin[k]].tokenAddress
                  && Some(kept[k]) == Filtered(lists, tokens[origin[k]]))
            && (forall k, n | 0 <= k < |kept| && Scales(tokens[origin[k]], n) :: Scales(kept[k], n))
  {
    origin := OriginsOf(lists, tokens);
    forall k | 0 <= k < |origin|
      ensures FilteredAll(lists, tokens)[k].tokenAddress == tokens[origin[k]].tokenAddress
      ensures forall n | Scales(tokens[origin[k]], n) :: Scales(FilteredAll(lists, tokens)[k], n)
    {
      FilteredScales(lists, tokens[origin[k]]);
    }
    hide Scales, Filtered, FilteredAll, Survives;
  }

  /** Where each kept token comes from. */
  lemma {:induction false} OriginsOf(lists: Lists, tokens: seq<Token>) returns (origin: seq<nat>)
    ensures var kept := FilteredAll(lists, tokens);
            && |origin| == |kept| && (forall k | 0 <= k < |kept| :: origin[k] < |tokens|)
            && (forall j, k | 0 <= j < k < |kept| :: origin[j] < origin[k])
            && (forall i | 0 <= i < |tokens| :: i in origin <==> Survives(lists, tokens[i]))
            && (forall k | 0 <= k < |kept| :: Some(kept[k]) == Filtered(lists, tokens[origin[k]]))
  {
    origin := [];
    if tokens != [] {
      var front, t := tokens[..|tokens| - 1], tokens[|tokens| - 1];
      var soFar := OriginsOf(lists, front);
      SurvivesIs(lists, t);
      hide Filtered, Survives;
      if Filtered(lists, t).Some? {
        origin := soFar + [|front|];
        OriginsGrow(lists, tokens, soFar);
      } else {
        origin := soFar;
      }
    }
  }

  /** The last token survives as well. */
  lemma OriginsGrow(lists: Lists, tokens: seq<Token>, soFar: seq<nat>)
    requires tokens != [] && forall k | 0 <= k < |soFar| :: soFar[k] < |tokens| - 1
    requires forall i | 0 <= i < |tokens| - 1 :: i in soFar <==> Survives(lists, tokens[i])
    requires Survives(lists, tokens[|tokens| - 1])
    ensures var origin: seq<nat> := soFar + [|tokens| - 1];
            forall i | 0 <= i < |tokens| :: i in origin <==> Survives(lists, tokens[i])
  {
    hide Survives;
  }

  /** What the filter overlays: the native entry on natives, else the list entry of the address, else
      a valid verdict; without a native entry a native stays as it is. */
  lemma FilteredIsOverlaid(lists: Lists, t: Token)
    ensures t.isNative || t.tokenAddress.None? ==>
              Filtered(lists, t) == Some(if lists.native.None? then t else Overlaid(t, Listed(lists.native.value)))
    ensures !t.isNative && t.tokenAddress.Some? ==>
              var address := t.tokenAddress.value;
              Filtered(lists, t) ==
                if address in lists.listed then Some(Overlaid(t, Listed(lists.listed[address])))
                else if address in lists.verdicts && lists.verdicts[address].valid then
                  Some(Overlaid(t, Validated(lists.verdicts[address])))
                else None
  {
    hide EnrichToken, EnrichFromValidation;
  }

  lemma SurvivesIs(lists: Lists, t: Token)
    ensures Survives(lists, t) <==> Filtered(lists, t).Some?
  {
  }

  lemma FilteredScales(lists: Lists, t: Token)
    requires Filtered(lists, t).Some?
    ensures Filtered(lists, t).value.tokenAddress == t.tokenAddress
    ensures forall n | Scales(t, n) :: Scales(Filtered(lists, t).value, n)
  {
    hide ScaleBalance, OfNat, Scaled;
    forall n | Scales(t, n)
      ensures Scales(Filtered(lists, t).value, n)
    {
      if t.isNative || t.tokenAddress.None? {
        if lists.native.Some? {
          OverlaidScales(t, n, Listed(lists.native.value));
        }
      } else if t.tokenAddress.value in lists.listed {
        OverlaidScales(t, n, Listed(lists.listed[t.tokenAddress.value]));
      } else {
        OverlaidScales(t, n, Validated(lists.verdicts[t.tokenAddress.value]));
      }
    }
  }
}
