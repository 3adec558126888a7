/** How a token is keyed, and how a record's freshness is measured. */
module MarketKey {
  import opened LuaDecimal

  datatype Key = Key(chain: string, tokenKey: string)

  predicate IsSpace(c: char) {
    c == ' ' || c == '\t' || c == '\n' || c == '\r' || c == 11 as char || c == 12 as char
  }

  function TrimLeft(s: string): (t: string)
    ensures |t| <= |s| && (t != "" ==> !IsSpace(t[0]))
  {
    if s != "" && IsSpace(s[0]) then TrimLeft(s[1..]) else s
  }

  function TrimRight(s: string): (t: string)
    ensures |t| <= |s| && (t != "" ==> !IsSpace(t[|t| - 1]))
  {
    if s != "" && IsSpace(s[|s| - 1]) then TrimRight(s[..|s| - 1]) else s
  }

  function TrimSpace(s: string): string {
    TrimRight(TrimLeft(s))
  }

  function LowerChar(c: char): char {
    if 'A' <= c <= 'Z' then (c as int + 32) as char else c
  }

  function UpperChar(c: char): char {
    if 'a' <= c <= 'z' then (c as int - 32) as char else c
  }

  function ToLower(s: string): (t: string)
    ensures |t| == |s|
  {
    seq(|s|, i requires 0 <= i < |s| => LowerChar(s[i]))
  }

  function ToUpper(s: string): (t: string)
    ensures |t| == |s|
  {
    seq(|s|, i requires 0 <= i < |s| => UpperChar(s[i]))
  }

  predicate HasHexPrefix(s: string) {
    "0x" <= ToLower(s)
  }

  /** Hex addresses in lower case, other token identifiers as they are. */
  function NormalizePlatformAddress(address: string): string {
    var trimmed := TrimSpace(address);
    if HasHexPrefix(trimmed) then ToLower(trimmed) else trimmed
  }

  function ContractKey(chain: string, address: string): Key {
    Key(ToLower(TrimSpace(chain)), NormalizePlatformAddress(address))
  }

  function NativeKey(chain: string, symbol: string): Key {
    Key(ToLower(TrimSpace(chain)), "native:" + ToUpper(TrimSpace(symbol)))
  }

  /* ---------- normal forms ---------- */

  predicate Bare(s: string) {
    s == "" || (!IsSpace(s[0]) && !IsSpace(s[|s| - 1]))
  }

  lemma TrimmedIsBare(s: string)
    ensures Bare(TrimSpace(s)) && (Bare(s) ==> TrimSpace(s) == s)
  {
    var t := TrimLeft(s);
    var after := SpacesAfter(t);
  }

  /** The spaces of ASCII: the blank, and the controls from the tab to the carriage return. */
  lemma SpacesAre(c: char)
    ensures IsSpace(c) <==> c as int == 32 || 9 <= c as int <= 13
  {
  }

  predicate Blank(s: string) {
    forall i | 0 <= i < |s| :: IsSpace(s[i])
  }

  /** Trimming takes off the spaces on both sides and nothing else. */
  lemma TrimIs(before: string, core: string, after: string)
    requires Blank(before) && Blank(after) && Bare(core)
    ensures TrimSpace(before + core + after) == core
  {
    hide TrimLeft, TrimRight, IsSpace;
    if core == "" {
      BlankIsNothing(before + core + after);
    } else {
      TrimLeftIs(before, core + after);
      assert before + core + after == before + (core + after);
      TrimRightIs(core, after);
    }
  }

  lemma {:induction false} TrimLeftIs(before: string, rest: string)
    requires Blank(before) && rest != "" && !IsSpace(rest[0])
    ensures TrimLeft(before + rest) == rest
  {
    hide IsSpace;
    var whole := before + rest;
    if before == "" {
      assert whole == rest;
    } else {
      TrimLeftIs(before[1..], rest);
      assert whole[1..] == before[1..] + rest;
      assert whole[0] == before[0];
    }
  }

  lemma {:induction false} TrimRightIs(core: string, after: string)
    requires Blank(after) && core != "" && !IsSpace(core[|core| - 1])
    ensures TrimRight(core + after) == core
  {
    hide IsSpace;
    var whole := core + after;
    if after == "" {
      assert whole == core;
    } else {
      TrimRightIs(core, after[..|after| - 1]);
      assert whole[..|whole| - 1] == core + after[..|after| - 1];
      assert whole[|whole| - 1] == after[|after| - 1];
    }
  }

  lemma {:induction false} BlankIsNothing(s: string)
    requires Blank(s)
    ensures TrimSpace(s) == ""
  {
    if s != "" {
      BlankIsNothing(s[1..]);
    }
  }

  /** Every text is its trimmed form between spaces; it is blank exactly when that is empty. */
  lemma TrimSplits(s: string) returns (before: string, after: string)
    ensures Blank(before) && Blank(after) && Bare(TrimSpace(s)) && s == before + TrimSpace(s) + after
    ensures TrimSpace(s) == "" <==> Blank(s)
  {
    hide *;
    before := SpacesBefore(s);
    after := SpacesAfter(TrimLeft(s));
    TrimmedIsBare(s);
    TrimIsBoth(s);
    BlankSplits(s, before, TrimSpace(s), after);
  }

  lemma {:induction false} SpacesBefore(s: string) returns (before: string)
    ensures Blank(before) && s == before + TrimLeft(s)
  {
    hide IsSpace;
    if s != "" && IsSpace(s[0]) {
      var rest := SpacesBefore(s[1..]);
      before := [s[0]] + rest;
      assert s == [s[0]] + s[1..];
    } else {
      before := "";
    }
  }

  lemma {:induction false} SpacesAfter(s: string) returns (after: string)
    ensures Blank(after) && s == TrimRight(s) + after
  {
    hide IsSpace;
    if s != "" && IsSpace(s[|s| - 1]) {
      var rest := SpacesAfter(s[..|s| - 1]);
      after := rest + [s[|s| - 1]];
      assert s == s[..|s| - 1] + [s[|s| - 1]];
    } else {
      after := "";
    }
  }

  lemma TrimIsBoth(s: string)
    ensures TrimSpace(s) == TrimRight(TrimLeft(s))
  {
  }

  lemma BlankSplits(s: string, before: string, core: string, after: string)
    requires s == before + (core + after) && Blank(before) && Blank(after) && Bare(core)
    ensures s == before + core + after
    ensures core == "" <==> Blank(s)
  {
    hide IsSpace;
    if core != "" {
      assert s[|before|] == core[0];
    }
  }

  /** The texts differ in the case of letters at most. */
  predicate SameLetters(a: string, b: string) {
    |a| == |b| && forall i | 0 <= i < |a| :: SameLetter(a[i], b[i])
  }

  predicate SameLetter(c: char, d: char) {
    c == d || ('a' <= c <= 'z' && d as int == c as int - 32) || ('A' <= c <= 'Z' && d as int == c as int + 32)
  }

  /** Lower and upper case forget the case of letters and nothing else. */
  lemma CaseForgets(a: string, b: string)
    ensures ToLower(a) == ToLower(b) <==> SameLetters(a, b)
    ensures ToUpper(a) == ToUpper(b) <==> SameLetters(a, b)
  {
    forall c, d
      ensures LowerChar(c) == LowerChar(d) <==> SameLetter(c, d)
      ensures UpperChar(c) == UpperChar(d) <==> SameLetter(c, d)
    {
    }
    assert forall i | 0 <= i < |a| :: ToLower(a)[i] == LowerChar(a[i]) && ToUpper(a)[i] == UpperChar(a[i]);
    assert forall i | 0 <= i < |b| :: ToLower(b)[i] == LowerChar(b[i]) && ToUpper(b)[i] == UpperChar(b[i]);
  }

  /** A hex address: a zero and an x in either case. */
  predicate ReadsAsHex(address: string) {
    |address| >= 2 && address[0] == '0' && (address[1] == 'x' || address[1] == 'X')
  }

  lemma HexPrefixIs(s: string)
    ensures HasHexPrefix(s) <==> ReadsAsHex(s)
  {
    if |s| >= 2 {
      assert ToLower(s)[0] == LowerChar(s[0]) && ToLower(s)[1] == LowerChar(s[1]);
    }
  }

  /** Two addresses are one exactly when, spaces around them aside, they are the same text, or both
      are hex and differ in the case of letters at most. */
  lemma SameAddress(a: string, b: string)
    ensures NormalizePlatformAddress(a) == NormalizePlatformAddress(b) <==>
              var x, y := TrimSpace(a), TrimSpace(b);
              x == y || (ReadsAsHex(x) && ReadsAsHex(y) && SameLetters(x, y))
  {
    var x, y := TrimSpace(a), TrimSpace(b);
    HexPrefixIs(x);
    HexPrefixIs(y);
    CaseForgets(x, y);
    LowerKeeps(x);
    LowerKeeps(y);
    LowerHex(x);
    LowerHex(y);
    hide TrimSpace, ToLower, HasHexPrefix, ReadsAsHex;
  }

  lemma LowerHex(s: string)
    ensures ReadsAsHex(ToLower(s)) <==> ReadsAsHex(s)
  {
    if |s| >= 2 {
      assert ToLower(s)[0] == LowerChar(s[0]) && ToLower(s)[1] == LowerChar(s[1]);
    }
  }

  /** Two native tokens share a key exactly when their chains and symbols are the same but for
      spaces around them and the case of letters; contracts, when their chains and addresses are. */
  lemma SameKeys(chain: string, a: string, other: string, b: string)
    ensures NativeKey(chain, a) == NativeKey(other, b) <==>
              SameLetters(TrimSpace(chain), TrimSpace(other)) && SameLetters(TrimSpace(a), TrimSpace(b))
    ensures ContractKey(chain, a) == ContractKey(other, b) <==>
              SameLetters(TrimSpace(chain), TrimSpace(other))
              && NormalizePlatformAddress(a) == NormalizePlatformAddress(b)
  {
    CaseForgets(TrimSpace(chain), TrimSpace(other));
    CaseForgets(TrimSpace(a), TrimSpace(b));
    hide TrimSpace, ToLower, ToUpper, SameLetters, NormalizePlatformAddress;
    var x, y := ToUpper(TrimSpace(a)), ToUpper(TrimSpace(b));
    assert ("native:" + x)[7..] == x && ("native:" + y)[7..] == y;
  }

  lemma LowerKeeps(s: string)
    ensures ToLower(ToLower(s)) == ToLower(s) && (Bare(s) ==> Bare(ToLower(s)))
  {
    assert forall i | 0 <= i < |s| :: ToLower(s)[i] == LowerChar(s[i]);
  }

  /** Normalising twice is normalising once, for addresses and for chain names and symbols. */
  lemma NormalFormsAreNormal(text: string)
    ensures var n := NormalizePlatformAddress(text); NormalizePlatformAddress(n) == n
    ensures var n := ToLower(TrimSpace(text)); ToLower(TrimSpace(n)) == n
  {
    var trimmed := TrimSpace(text);
    TrimmedIsBare(text);
    TrimmedIsBare(trimmed);
    LowerKeeps(trimmed);
    TrimmedIsBare(ToLower(trimmed));
    hide TrimSpace, ToLower, Bare;
  }

  /* ---------- freshness ---------- */

  /** The library's difference of two instants, held within the int64 range. */
  function Elapsed(now: int, fetchedAt: int): int {
    var d := now - fetchedAt;
    if d < INT64_MIN then INT64_MIN else if d > INT64_MAX then INT64_MAX else d
  }

  /** The int64 a machine addition or subtraction leaves. */
  function Wrap64(n: int): (w: int)
    ensures IsInt64(w)
  {
    (n + 0x8000_0000_0000_0000) % 0x1_0000_0000_0000_0000 - 0x8000_0000_0000_0000
  }

  function RemainingTTL(fetchedAt: int, now: int, ttl: int): (left: int)
    ensures left >= 0
  {
    var remaining := Wrap64(ttl - Elapsed(now, fetchedAt));
    if remaining <= 0 then 0 else remaining
  }

  predicate Fresh(fetchedAt: int, now: int, ttl: int) {
    RemainingTTL(fetchedAt, now, ttl) > 0
  }

  /** A record is fresh while its age is below its lifetime, unless it is stamped further in the
      future than a duration reaches. */
  lemma FreshIsYoung(fetchedAt: int, now: int, ttl: int)
    requires IsInt64(fetchedAt) && IsInt64(now) && 0 <= ttl <= INT64_MAX
    ensures Fresh(fetchedAt, now, ttl) <==> 0 < ttl - (now - fetchedAt) <= INT64_MAX
  {
    RemainingIsExact(fetchedAt, now, ttl);
    hide RemainingTTL;
  }

  /** For any two int64 instants and any non-negative lifetime, the remaining lifetime is the
      exact positive part of ttl - (now - fetchedAt) if and only if that fits the range of a
      duration; a record stamped further in the future than that reads as expired. */
  lemma RemainingIsExact(fetchedAt: int, now: int, ttl: int)
    requires IsInt64(fetchedAt) && IsInt64(now) && 0 <= ttl <= INT64_MAX
    ensures var exact := ttl - (now - fetchedAt);
            RemainingTTL(fetchedAt, now, ttl) == (if exact > 0 then exact else 0) <==> exact <= INT64_MAX
    ensures ttl - (now - fetchedAt) > INT64_MAX ==> RemainingTTL(fetchedAt, now, ttl) == 0
  {
    var exact := ttl - (now - fetchedAt);
    var n := ttl - Elapsed(now, fetchedAt);
    if n > INT64_MAX {
      assert Wrap64(n) == n - 0x1_0000_0000_0000_0000;
    } else {
      assert Wrap64(n) == n;
    }
  }
}
