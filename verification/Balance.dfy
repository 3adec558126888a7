/** Exact balances: parsing a raw integer, scaling it by a number of decimals, reading it back. */
module Balance {
  import opened Decimal
  import opened MarketKey

  /* ---------- the base-detecting integer parser ---------- */

  /** The value of a digit in bases up to 36, or 36 for anything else. */
  function DigitIn36(c: char): nat {
    if '0' <= c <= '9' then c as int - '0' as int
    else if 'a' <= c <= 'z' then c as int - 'a' as int + 10
    else if 'A' <= c <= 'Z' then c as int - 'A' as int + 10
    else 36
  }

  /** Digits of the base, with single underscores between them, and after a base prefix. */
  predicate IsRun(s: string, base: nat, prefixed: bool) {
    && s != ""
    && (forall i | 0 <= i < |s| :: s[i] == '_' || DigitIn36(s[i]) < base)
    && (forall i | 0 <= i < |s| - 1 :: !(s[i] == '_' && s[i + 1] == '_'))
    && s[|s| - 1] != '_' && (s[0] == '_' ==> prefixed)
  }

  function RunValue(s: string, base: nat): nat {
    if s == "" then 0
    else if s[|s| - 1] == '_' then RunValue(s[..|s| - 1], base)
    else RunValue(s[..|s| - 1], base) * base + DigitIn36(s[|s| - 1])
  }

  /** An unsigned integer text: 0b, 0o and 0x prefixes, a leading zero for octal, else decimal. */
  function ParseMagnitude(s: string): Option<nat> {
    if |s| > 1 && s[0] == '0' then
      if s[1] == 'b' || s[1] == 'B' then Run(s[2..], 2, true)
      else if s[1] == 'o' || s[1] == 'O' then Run(s[2..], 8, true)
      else if s[1] == 'x' || s[1] == 'X' then Run(s[2..], 16, true)
      else Run(s[1..], 8, true)
    else Run(s, 10, false)
  }

  function Run(s: string, base: nat, prefixed: bool): Option<nat> {
    if IsRun(s, base, prefixed) then Some(RunValue(s, base)) else None
  }

  function ParseInteger(s: string): Option<int> {
    if s != "" && (s[0] == '-' || s[0] == '+') then
      match ParseMagnitude(s[1..])
      case None => None
      case Some(n) => Some(if s[0] == '-' then -(n as int) else n)
    else
      match ParseMagnitude(s)
      case None => None
      case Some(n) => Some(n)
  }

  lemma {:induction false} DecimalRun(s: string)
    requires IsDigits(s)
    ensures RunValue(s, 10) == Value(s)
  {
    if s != "" {
      DecimalRun(s[..|s| - 1]);
    }
  }

  lemma TrimDigits(s: string)
    requires s != "" && IsDigits(s)
    ensures TrimSpace(s) == s
  {
    assert IsDigit(s[0]) && IsDigit(s[|s| - 1]);
  }

  lemma ParseCanonical(s: string)
    requires Canonical(s)
    ensures ParseInteger(s) == Some(Value(s))
  {
    DecimalRun(s);
    hide Value, RunValue;
    assert IsDigit(s[0]);
    assert forall i | 0 <= i < |s| :: IsDigit(s[i]);
    assert IsRun(s, 10, false);
  }

  /** A printed natural number reparses to itself, whatever spaces surround it. */
  lemma CanonicalReparses(n: nat)
    ensures TrimSpace(OfNat(n)) == OfNat(n) && ParseInteger(OfNat(n)) == Some(n)
  {
    hide *;
    var s := OfNat(n);
    CanonicalIsDigits(s);
    TrimDigits(s);
    ParseCanonical(s);
  }

  lemma CanonicalIsDigits(s: string)
    requires Canonical(s)
    ensures IsDigits(s) && s != ""
  {
  }

  /* ---------- scaling ---------- */

  const MAX_WIDTH := 1_000_000

  function Zeros(n: nat): (s: string)
    ensures |s| == n && IsDigits(s) && Value(s) == 0
  {
    if n == 0 then "" else
      var s := Zeros(n - 1) + "0";
      assert s[..|s| - 1] == Zeros(n - 1);
      s
  }

  /** The library's zero padding of a text to a width; a width over a million is not honoured
      but reported in the text. */
  function ZeroPadded(width: nat, text: string): string {
    if width > MAX_WIDTH then "%!(BADWIDTH)" + text
    else if |text| < width then Zeros(width - |text|) + text
    else text
  }

  function Quotient(n: nat, p: nat): nat
    requires p > 0
  {
    n / p
  }

  function Remainder(n: nat, p: nat): (r: nat)
    requires p > 0
    ensures r < p
  {
    n % p
  }

  /** `n` divided by ten to the `decimals`, as a text. */
  function Scaled(n: nat, decimals: int): string {
    if decimals <= 0 then OfNat(n)
    else
      var q, r := Quotient(n, Pow10(decimals)), Remainder(n, Pow10(decimals));
      if r == 0 then OfNat(q)
      else OfNat(q) + "." + TrimTrailingZeros(ZeroPadded(decimals, OfNat(r)))
  }

  /** The raw balance in decimal and scaled, or an error for a text that is no unsigned integer. */
  function ScaleBalance(raw: string, decimals: int): Option<(string, string)> {
    var trimmed := TrimSpace(raw);
    match ParseInteger(if trimmed == "" then "0" else trimmed)
    case None => None
    case Some(n) => if n < 0 then None else Some((OfNat(n), Scaled(n, decimals)))
  }

  /* ---------- reading a scaled balance back ---------- */

  /** The position of the first point, or the length if there is none. */
  function PointIn(text: string): (p: nat)
    ensures p <= |text| && (p < |text| ==> text[p] == '.') && forall i | 0 <= i < p :: text[i] != '.'
  {
    if text == "" then 0 else if text[0] == '.' then 0 else
      var p := 1 + PointIn(text[1..]);
      assert forall i | 1 <= i < p :: text[i] == text[1..][i - 1];
      p
  }

  function WholePart(text: string): string {
    text[..PointIn(text)]
  }

  function FractionPart(text: string): string {
    if PointIn(text) < |text| then text[PointIn(text) + 1..] else ""
  }

  /** A decimal text without superfluous zeros, or a dangling point. */
  predicate Minimal(text: string) {
    && Canonical(WholePart(text)) && IsDigits(FractionPart(text))
    && (PointIn(text) < |text| ==> FractionPart(text) != "" && text[|text| - 1] != '0')
  }

  /** The decimal a text denotes, times ten to the `decimals`, when that is a whole number it
      spells out. */
  function ReadBack(text: string, decimals: nat): Option<nat> {
    var whole, frac := WholePart(text), FractionPart(text);
    if whole != "" && IsDigits(whole) && IsDigits(frac) && |frac| <= decimals then
      Some(Value(whole) * Pow10(decimals) + Value(frac) * Pow10(decimals - |frac|))
    else None
  }

  lemma {:induction false} NoPoint(s: string, rest: string)
    requires IsDigits(s)
    ensures PointIn(s) == |s| && PointIn(s + "." + rest) == |s|
  {
    var t := s + "." + rest;
    if s != "" {
      NoPoint(s[1..], rest);
      assert t[1..] == s[1..] + "." + rest;
    }
  }

  lemma PartsOf(whole: string, frac: string)
    requires IsDigits(whole)
    ensures WholePart(whole) == whole && FractionPart(whole) == ""
    ensures WholePart(whole + "." + frac) == whole && FractionPart(whole + "." + frac) == frac
  {
    NoPoint(whole, frac);
    var t := whole + "." + frac;
    assert t[..|whole|] == whole && t[|whole| + 1..] == frac;
  }

  lemma PaddedValue(width: nat, r: nat)
    requires width <= MAX_WIDTH && r < Pow10(width) && width > 0
    ensures var s := ZeroPadded(width, OfNat(r));
            |s| == width && IsDigits(s) && Value(s) == r
  {
    hide Value, Pow10, OfNat, Zeros;
    var text := OfNat(r);
    NoLonger(text, width);
    if |text| < width {
      ValueConcat(Zeros(width - |text|), text);
    }
  }

  lemma NoLonger(text: string, width: nat)
    requires Canonical(text) && Value(text) < Pow10(width) && width > 0
    ensures |text| <= width
  {
    hide Value;
    if |text| > width {
      CanonicalLowerBound(text);
      Pow10Monotone(width, |text| - 1);
    }
  }

  /** The scaled text reads back as the number it was made from, without superfluous zeros, if
      and only if the fraction's width is one the formatter honours or there is no fraction. */
  lemma ScaledReadsBack(n: nat, decimals: int)
    ensures var d := if decimals <= 0 then 0 else decimals;
            var text := Scaled(n, decimals);
            ReadBack(text, d) == Some(n) && Minimal(text) <==> d <= MAX_WIDTH || Remainder(n, Pow10(d)) == 0
  {
    var d: nat := if decimals <= 0 then 0 else decimals;
    assert Pow10(0) == 1;
    hide ReadBack, Minimal, Value, OfNat;
    var q, r := Quotient(n, Pow10(d)), Remainder(n, Pow10(d));
    DivisionSplits(n, Pow10(d));
    WholeReadsBack(n, 0);
    WholeReadsBack(q, d);
    if r != 0 {
      if d <= MAX_WIDTH {
        FractionReadsBack(q, r, d);
      } else {
        BadWidth(q, r, d);
      }
    }
  }

  lemma DivisionSplits(n: nat, p: nat)
    requires p > 0
    ensures n == Quotient(n, p) * p + Remainder(n, p)
    ensures p == 1 ==> Remainder(n, p) == 0
  {
  }

  lemma WholeReadsBack(q: nat, d: nat)
    ensures ReadBack(OfNat(q), d) == Some(q * Pow10(d)) && Minimal(OfNat(q))
  {
    PartsOf(OfNat(q), "");
    assert Value("") == 0;
    NoPoint(OfNat(q), "");
  }

  lemma ReadParts(whole: string, frac: string, d: nat)
    requires Canonical(whole) && IsDigits(frac) && 0 < |frac| <= d && frac[|frac| - 1] != '0'
    ensures var text := whole + "." + frac;
            ReadBack(text, d) == Some(Value(whole) * Pow10(d) + Value(frac) * Pow10(d - |frac|)) && Minimal(text)
  {
    hide Value, Pow10;
    PartsOf(whole, frac);
    var text := whole + "." + frac;
    assert text[|text| - 1] == frac[|frac| - 1];
  }

  lemma FractionReadsBack(q: nat, r: nat, d: nat)
    requires 0 < d <= MAX_WIDTH && 0 < r < Pow10(d)
    ensures var text := OfNat(q) + "." + TrimTrailingZeros(ZeroPadded(d, OfNat(r)));
            ReadBack(text, d) == Some(q * Pow10(d) + r) && Minimal(text)
  {
    hide *;
    PaddedValue(d, r);
    var padded := ZeroPadded(d, OfNat(r));
    var frac := TrimTrailingZeros(padded);
    TrimKeeps(padded);
    NonZeroHasDigits(frac, Pow10(|padded| - |frac|));
    ReadParts(OfNat(q), frac, d);
  }

  lemma NonZeroHasDigits(frac: string, p: nat)
    requires IsDigits(frac) && Value(frac) * p > 0
    ensures frac != ""
  {
  }

  lemma BadWidth(q: nat, r: nat, d: nat)
    requires d > MAX_WIDTH
    ensures var text := OfNat(q) + "." + TrimTrailingZeros(ZeroPadded(d, OfNat(r)));
            ReadBack(text, d) == None && !Minimal(text)
  {
    var padded := ZeroPadded(d, OfNat(r));
    var frac := TrimTrailingZeros(padded);
    TrimStopsAt(padded, 11);
    PartsOf(OfNat(q), frac);
    assert frac[0] == padded[0] == '%';
  }

  lemma {:induction false} TrimStopsAt(s: string, i: nat)
    requires i < |s| && s[i] != '0'
    ensures |TrimTrailingZeros(s)| > i
  {
    if s[|s| - 1] == '0' {
      TrimStopsAt(s[..|s| - 1], i);
    }
  }

  /** There is only one minimal text for a number at a scale. */
  lemma MinimalUnique(a: string, b: string, d: nat)
    requires Minimal(a) && Minimal(b) && ReadBack(a, d).Some? && ReadBack(a, d) == ReadBack(b, d)
    ensures a == b
  {
    MinimalParts(a, d);
    MinimalParts(b, d);
    hide *;
    SameParts(WholePart(a), FractionPart(a), WholePart(b), FractionPart(b), d);
  }

  lemma SameParts(wa: string, fa: string, wb: string, fb: string, d: nat)
    requires Canonical(wa) && Canonical(wb) && IsDigits(wa) && IsDigits(wb)
    requires IsDigits(fa) && IsDigits(fb) && |fa| <= d && |fb| <= d
    requires (fa != "" ==> fa[|fa| - 1] != '0') && (fb != "" ==> fb[|fb| - 1] != '0')
    requires Value(wa) * Pow10(d) + Value(fa) * Pow10(d - |fa|) == Value(wb) * Pow10(d) + Value(fb) * Pow10(d - |fb|)
    ensures wa == wb && fa == fb
  {
    hide *;
    ScaledFractionBound(fa, d);
    ScaledFractionBound(fb, d);
    DigitsThenRest(Value(wa), Value(fa) * Pow10(d - |fa|), Value(wb), Value(fb) * Pow10(d - |fb|), Pow10(d));
    CanonicalOrder(wa, wb);
    SameFraction(fa, fb, d);
  }

  lemma MinimalParts(a: string, d: nat)
    requires Minimal(a) && ReadBack(a, d).Some?
    ensures var w, f := WholePart(a), FractionPart(a);
            && Canonical(w) && IsDigits(w) && IsDigits(f) && |f| <= d && (f != "" ==> f[|f| - 1] != '0')
            && a == (if f == "" then w else w + "." + f)
            && ReadBack(a, d) == Some(Value(w) * Pow10(d) + Value(f) * Pow10(d - |f|))
  {
    hide Value, Pow10;
    var f := FractionPart(a);
    if PointIn(a) < |a| {
      assert a == WholePart(a) + "." + f;
      assert f[|f| - 1] == a[|a| - 1];
    }
  }

  lemma ScaledFractionBound(f: string, d: nat)
    requires IsDigits(f) && |f| <= d
    ensures Value(f) * Pow10(d - |f|) < Pow10(d)
  {
    ValueBound(f);
    Pow10Add(|f|, d - |f|);
    MulMonotone(Value(f) + 1, Pow10(|f|), Pow10(d - |f|));
    Distribute(Value(f), 1, Pow10(d - |f|));
  }

  lemma DigitsThenRest(x: nat, restX: nat, y: nat, restY: nat, p: nat)
    requires restX < p && restY < p && x * p + restX == y * p + restY
    ensures x == y && restX == restY
  {
    if x < y {
      DigitDominates(x, y, restX, restY, p);
    } else if y < x {
      DigitDominates(y, x, restY, restX, p);
    }
  }

  /** Fractions without trailing zeros that scale to the same number are the same digits. */
  lemma SameFraction(f: string, g: string, d: nat)
    requires IsDigits(f) && IsDigits(g) && |f| <= d && |g| <= d
    requires (f != "" ==> f[|f| - 1] != '0') && (g != "" ==> g[|g| - 1] != '0')
    requires Value(f) * Pow10(d - |f|) == Value(g) * Pow10(d - |g|)
    ensures f == g
  {
    if |f| == |g| {
      Cancel(Value(f), Value(g), Pow10(d - |f|));
      LexIsNumeric(f, g);
    } else if |f| < |g| {
      LongerFractionDiffers(f, g, d);
    } else {
      LongerFractionDiffers(g, f, d);
    }
  }

  lemma Cancel(x: nat, y: nat, p: nat)
    requires p > 0 && x * p == y * p
    ensures x == y
  {
    if x < y {
      MulMonotone(x + 1, y, p);
      Distribute(x, 1, p);
    } else if y < x {
      MulMonotone(y + 1, x, p);
      Distribute(y, 1, p);
    }
  }

  lemma LongerFractionDiffers(f: string, g: string, d: nat)
    requires IsDigits(f) && IsDigits(g) && |f| < |g| <= d && g[|g| - 1] != '0'
    ensures Value(f) * Pow10(d - |f|) != Value(g) * Pow10(d - |g|)
  {
    var k, p := |g| - |f|, Pow10(d - |g|);
    Pow10Add(k, d - |g|);
    Associate(Value(f), Pow10(k), p);
    LastDigit(g);
    TimesTen(Value(f), Pow10(k - 1));
    assert Value(f) * Pow10(k) == 10 * (Value(f) * Pow10(k - 1));
    MultipleOfTen(Value(f) * Pow10(k - 1), Value(g), Value(f) * Pow10(k));
    hide *;
    if Value(f) * Pow10(d - |f|) == Value(g) * p {
      Cancel(Value(f) * Pow10(k), Value(g), p);
    }
  }

  lemma LastDigit(g: string)
    requires g != "" && IsDigits(g) && g[|g| - 1] != '0'
    ensures Value(g) % 10 != 0
  {
  }

  lemma MultipleOfTen(x: int, y: int, z: int)
    requires y % 10 != 0 && z == 10 * x
    ensures z != y
  {
  }

  lemma Associate(x: int, y: int, z: int)
    ensures x * (y * z) == (x * y) * z
  {
  }

  /** One unit at a million and one decimals is a balance the formatter does not print. */
  lemma WidthNotHonoured()
    ensures !(ReadBack(Scaled(1, 1_000_001), 1_000_001) == Some(1) && Minimal(Scaled(1, 1_000_001)))
  {
    ScaledReadsBack(1, 1_000_001);
    SmallRemainder(Pow10(1_000_000), Pow10(1_000_001));
  }

  lemma SmallRemainder(q: nat, p: nat)
    requires p == 10 * q && q > 0
    ensures Remainder(1, p) == 1
  {
    hide *;
    DivisionSplits(1, p);
    if Quotient(1, p) >= 1 {
      MulMonotone(1, Quotient(1, p), p);
    }
  }

  /** A leading zero selects base eight: digits after it are read as octal, and an 8 or a 9
      among them makes the text no integer at all. */
  lemma LeadingZeroIsOctal(s: string)
    requires s != "" && IsDigits(s)
    ensures ParseInteger("0" + s) == if '8' in s || '9' in s then None else Some(RunValue(s, 8))
  {
    hide RunValue;
    var t := "0" + s;
    assert t[1..] == s;
    assert forall i | 0 <= i < |s| :: IsDigit(s[i]);
    assert IsDigit(t[1]) by {
      assert t[1] == s[0];
    }
    assert IsRun(s, 8, true) <==> !('8' in s || '9' in s);
  }

  /* ---------- how numbers are written ---------- */

  const DIGITS := "0123456789abcdef"

  /** A number written in a base, most significant digit first. */
  function InBase(n: nat, base: nat): (s: string)
    requires 2 <= base <= 16
    ensures s != ""
  {
    if n < base then [DIGITS[n]] else InBase(n / base, base) + [DIGITS[n % base]]
  }

  /** A text without its underscores. */
  function Plain(t: string): string {
    if t == "" then "" else Plain(t[..|t| - 1]) + if t[|t| - 1] == '_' then "" else [t[|t| - 1]]
  }

  /** Every character is an underscore or a digit of the base, in either case. */
  predicate DigitsOf(t: string, base: nat)
    requires 2 <= base <= 16
  {
    forall i | 0 <= i < |t| :: t[i] == '_' || LowerChar(t[i]) in DIGITS[..base]
  }

  /** Not empty; an underscore only between digits, or after a prefix. */
  predicate WellSpaced(t: string, prefixed: bool) {
    && t != "" && t[|t| - 1] != '_' && (t[0] == '_' ==> prefixed)
    && forall i | 0 <= i < |t| - 1 :: !(t[i] == '_' && t[i + 1] == '_')
  }

  /** The text writes the number in the base, with leading zeros and underscores, in either case. */
  predicate WritesNumber(t: string, base: nat, zeros: nat, n: nat)
    requires 2 <= base <= 16
  {
    ToLower(Plain(t)) == Zeros(zeros) + InBase(n, base)
  }

  lemma DigitIs(c: char, base: nat)
    requires 2 <= base <= 16
    ensures DigitIn36(c) < base <==> LowerChar(c) in DIGITS[..base]
    ensures DigitIn36(LowerChar(c)) == DigitIn36(c) && (DigitIn36(c) < base ==> c != '_')
  {
    var k := DigitIn36(c);
    if k < base {
      assert DIGITS[k] == LowerChar(c);
      assert DIGITS[..base][k] == LowerChar(c);
    }
    if LowerChar(c) in DIGITS[..base] {
      var i :| 0 <= i < base && DIGITS[..base][i] == LowerChar(c);
      assert DIGITS[i] == LowerChar(c);
      DigitAt(i);
    }
  }

  lemma DigitAt(i: nat)
    requires i < 16
    ensures DigitIn36(DIGITS[i]) == i && DIGITS[i] != '_'
  {
  }

  lemma RunIs(t: string, base: nat, prefixed: bool)
    requires 2 <= base <= 16
    ensures IsRun(t, base, prefixed) <==> WellSpaced(t, prefixed) && DigitsOf(t, base)
  {
    forall i | 0 <= i < |t|
      ensures DigitIn36(t[i]) < base <==> LowerChar(t[i]) in DIGITS[..base]
    {
      DigitIs(t[i], base);
    }
    hide DigitIn36, LowerChar;
  }

  lemma {:induction false} RunOfPlain(t: string, base: nat)
    ensures RunValue(Plain(t), base) == RunValue(t, base)
  {
    hide DigitIn36;
    if t != "" {
      RunOfPlain(t[..|t| - 1], base);
      var p := Plain(t);
      if t[|t| - 1] != '_' {
        assert p[..|p| - 1] == Plain(t[..|t| - 1]);
      } else {
        assert p == Plain(t[..|t| - 1]);
      }
    }
  }

  lemma {:induction false} PlainHasNone(t: string)
    ensures forall i | 0 <= i < |Plain(t)| :: Plain(t)[i] != '_'
  {
    if t != "" {
      PlainHasNone(t[..|t| - 1]);
    }
  }

  lemma {:induction false} RunOfLower(t: string, base: nat)
    requires 2 <= base <= 16 && forall i | 0 <= i < |t| :: t[i] != '_'
    ensures RunValue(ToLower(t), base) == RunValue(t, base)
  {
    if t != "" {
      var front, last := t[..|t| - 1], t[|t| - 1];
      RunOfLower(front, base);
      DigitIs(last, base);
      LowerSnoc(t);
      hide DigitIn36, ToLower;
    }
  }

  lemma LowerSnoc(t: string)
    requires t != ""
    ensures ToLower(t)[..|t| - 1] == ToLower(t[..|t| - 1]) && ToLower(t)[|t| - 1] == LowerChar(t[|t| - 1])
    ensures LowerChar(t[|t| - 1]) == '_' <==> t[|t| - 1] == '_'
  {
    assert forall i | 0 <= i < |t| - 1 :: ToLower(t)[i] == LowerChar(t[i]) == ToLower(t[..|t| - 1])[i];
  }

  lemma {:induction false} RunOfZeros(zeros: nat, t: string, base: nat)
    ensures RunValue(Zeros(zeros) + t, base) == RunValue(t, base)
  {
    var whole := Zeros(zeros) + t;
    if t != "" {
      RunOfZeros(zeros, t[..|t| - 1], base);
      assert whole[..|whole| - 1] == Zeros(zeros) + t[..|t| - 1];
      assert whole[|whole| - 1] == t[|t| - 1];
    } else {
      assert whole == Zeros(zeros);
      OnlyZeros(zeros, base);
    }
  }

  lemma {:induction false} OnlyZeros(zeros: nat, base: nat)
    ensures RunValue(Zeros(zeros), base) == 0
  {
    if zeros > 0 {
      OnlyZeros(zeros - 1, base);
      assert Zeros(zeros)[..zeros - 1] == Zeros(zeros - 1);
    }
  }

  lemma {:induction false} RunOfNumber(n: nat, base: nat)
    requires 2 <= base <= 16
    ensures RunValue(InBase(n, base), base) == n
  {
    hide RunValue, DigitIn36;
    if n < base {
      DigitAt(n);
      RunSnoc("", DIGITS[n], base);
      assert "" + [DIGITS[n]] == [DIGITS[n]];
      NothingRuns(base);
    } else {
      RunOfNumber(n / base, base);
      DigitAt(n % base);
      RunSnoc(InBase(n / base, base), DIGITS[n % base], base);
      DivisionStep(n, base);
    }
  }

  lemma NothingRuns(base: nat)
    ensures RunValue("", base) == 0
  {
  }

  lemma RunSnoc(s: string, c: char, base: nat)
    requires c != '_'
    ensures RunValue(s + [c], base) == RunValue(s, base) * base + DigitIn36(c)
  {
    hide DigitIn36;
    assert (s + [c])[..|s|] == s;
  }

  lemma DivisionStep(n: nat, base: nat)
    requires base > 0
    ensures n / base * base + n % base == n
  {
  }

  lemma ValueOfWritten(t: string, base: nat, zeros: nat, n: nat)
    requires 2 <= base <= 16 && WritesNumber(t, base, zeros, n)
    ensures RunValue(t, base) == n
  {
    hide *;
    RunOfPlain(t, base);
    PlainHasNone(t);
    RunOfLower(Plain(t), base);
    WrittenIs(t, base, zeros, n);
    RunOfZeros(zeros, InBase(n, base), base);
    RunOfNumber(n, base);
  }

  /** Plain hex digits and their value. */
  lemma HexDigits(t: string, zeros: nat, n: nat)
    requires ToLower(t) == Zeros(zeros) + InBase(n, 16)
    ensures t != "" && RunValue(t, 16) == n && forall i | 0 <= i < |t| :: DigitIn36(t[i]) < 16
  {
    NumberDigits(n, 16);
    DigitAt(0);
    forall i | 0 <= i < |t|
      ensures DigitIn36(t[i]) < 16 && t[i] != '_'
    {
      assert LowerChar(t[i]) == ToLower(t)[i];
      assert IsDigits(Zeros(zeros));
      DigitIs(t[i], 16);
      ZeroOrNumber(t, zeros, n, i);
    }
    hide *;
    RunOfLower(t, 16);
    RunOfZeros(zeros, InBase(n, 16), 16);
    RunOfNumber(n, 16);
  }

  lemma ZeroOrNumber(t: string, zeros: nat, n: nat, i: nat)
    requires ToLower(t) == Zeros(zeros) + InBase(n, 16) && i < |t|
    ensures DigitIn36(t[i]) < 16
  {
    NumberDigits(n, 16);
    ZerosAre(zeros);
    DigitIs(t[i], 16);
    assert LowerChar(t[i]) == ToLower(t)[i];
    hide DigitIn36, LowerChar, ToLower, InBase, Zeros;
    if i < zeros {
      assert ToLower(t)[i] == '0' == DIGITS[..16][0];
    } else {
      assert ToLower(t)[i] == InBase(n, 16)[i - zeros];
    }
  }

  lemma {:induction false} ZerosAre(zeros: nat)
    ensures forall i | 0 <= i < zeros :: Zeros(zeros)[i] == '0'
  {
    if zeros > 0 {
      ZerosAre(zeros - 1);
    }
  }

  lemma {:induction false} NumberDigits(n: nat, base: nat)
    requires 2 <= base <= 16
    ensures forall i | 0 <= i < |InBase(n, base)| :: InBase(n, base)[i] in DIGITS[..base]
  {
    if n < base {
      InPrefix(n, base);
    } else {
      NumberDigits(n / base, base);
      InPrefix(n % base, base);
    }
  }

  lemma InPrefix(k: nat, base: nat)
    requires k < base <= 16
    ensures DIGITS[k] in DIGITS[..base]
  {
    assert DIGITS[..base][k] == DIGITS[k];
  }

  lemma WrittenIs(t: string, base: nat, zeros: nat, n: nat)
    requires 2 <= base <= 16
    ensures WritesNumber(t, base, zeros, n) <==> ToLower(Plain(t)) == Zeros(zeros) + InBase(n, base)
  {
  }

  /** The texts in front of a number, and the base each selects; none selects ten. */
  predicate Selects(lead: string, base: nat) {
    || (base == 16 && (lead == "0x" || lead == "0X"))
    || (base == 2 && (lead == "0b" || lead == "0B"))
    || (base == 8 && (lead == "0o" || lead == "0O" || lead == "0"))
    || (base == 10 && lead == "")
  }

  /** The lead is read as such: a lone zero in front of a mark is the mark's, and a decimal text has
      no zero in front of more. */
  predicate ReadsAs(lead: string, t: string) {
    && (lead == "0" ==> t != "" && t[0] !in "bBoOxX")
    && (lead == "" ==> t != "" && t[0] !in "+-" && (t[0] == '0' ==> |t| == 1))
  }

  /** Whatever follows the lead, the text parses exactly if that is well spaced digits of the base,
      and to the number they write. */
  lemma LeadParses(lead: string, base: nat, t: string, zeros: nat, n: nat)
    requires 2 <= base <= 16 && Selects(lead, base) && ReadsAs(lead, t)
    ensures ParseInteger(lead + t).Some? <==> WellSpaced(t, lead != "") && DigitsOf(t, base)
    ensures WellSpaced(t, lead != "") && DigitsOf(t, base) && WritesNumber(t, base, zeros, n) ==>
              ParseInteger(lead + t) == Some(n)
  {
    RunIs(t, base, lead != "");
    if WritesNumber(t, base, zeros, n) {
      ValueOfWritten(t, base, zeros, n);
    }
    LeadIsRead(lead, base, t);
    hide *;
    RunOf(t, base, lead != "");
  }

  lemma RunOf(t: string, base: nat, prefixed: bool)
    ensures Run(t, base, prefixed) == if IsRun(t, base, prefixed) then Some(RunValue(t, base)) else None
  {
  }

  lemma LeadIsRead(lead: string, base: nat, t: string)
    requires Selects(lead, base) && ReadsAs(lead, t)
    ensures ParseInteger(lead + t) == match Run(t, base, lead != "") case None => None case Some(k) => Some(k)
  {
    hide IsRun, RunValue, Run;
    var s := lead + t;
    if |lead| == 2 {
      assert s[2..] == t && s[0] == '0' && s[1] == lead[1];
    } else if |lead| == 1 {
      assert s[1..] == t && s[0] == '0' && s[1] == t[0];
    } else {
      assert s == t;
    }
    if lead == "0" || lead == "" {
      NoPrefix(lead, t);
    }
  }

  lemma NoPrefix(lead: string, t: string)
    requires t != "" && ReadsAs(lead, t)
    ensures lead == "0" ==> t[0] != 'b' && t[0] != 'B' && t[0] != 'o' && t[0] != 'O' && t[0] != 'x' && t[0] != 'X'
    ensures lead == "" ==> t[0] != '+' && t[0] != '-'
  {
    assert 'b' in "bBoOxX" && 'B' in "bBoOxX" && 'o' in "bBoOxX";
    assert 'O' in "bBoOxX" && 'x' in "bBoOxX" && 'X' in "bBoOxX";
    assert '+' in "+-" && '-' in "+-";
  }

  /** A sign in front of a text negates it or leaves it; there is one at most. */
  lemma SignParses(sign: char, s: string)
    requires sign == '-' || sign == '+'
    ensures ParseInteger([sign] + s) ==
              if s != "" && (s[0] == '-' || s[0] == '+') then None
              else match ParseInteger(s) case None => None case Some(n) => Some(if sign == '-' then -n else n)
  {
    hide RunValue;
    assert ([sign] + s)[1..] == s;
  }
}
