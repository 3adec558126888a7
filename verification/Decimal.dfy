/** Decimal digit strings, most significant digit first, and the integers they denote. */
module Decimal {

  datatype Option<+T> = None | Some(value: T)

  predicate IsDigit(c: char) {
    '0' <= c <= '9'
  }

  predicate IsDigits(s: string) {
    forall i | 0 <= i < |s| :: IsDigit(s[i])
  }

  function DigitValue(c: char): nat
    requires IsDigit(c)
  {
    c as int - '0' as int
  }

  function DigitChar(d: int): (c: char)
    requires 0 <= d <= 9
    ensures IsDigit(c) && DigitValue(c) == d
  {
    (d + '0' as int) as char
  }

  /** The number a digit string denotes; the empty string denotes zero. */
  function Value(s: string): nat
    requires IsDigits(s)
  {
    if s == "" then 0 else Value(s[..|s| - 1]) * 10 + DigitValue(s[|s| - 1])
  }

  function Pow10(n: nat): (p: nat)
    ensures p >= 1
  {
    if n == 0 then 1 else 10 * Pow10(n - 1)
  }

  /** At least one digit, and no zero in front of another digit. */
  predicate Canonical(s: string) {
    s != "" && IsDigits(s) && (s[0] == '0' ==> |s| == 1)
  }

  lemma LeadingDigit(s: string)
    requires Canonical(s) && Value(s) > 0
    ensures s[0] != '0'
  {
    if |s| == 1 {
      assert s[..0] == "";
    }
  }

  /** The printed form of a natural number. */
  function OfNat(n: nat): (s: string)
    ensures Canonical(s) && Value(s) == n
  {
    if n < 10 then
      var s := [DigitChar(n)];
      assert s[..0] == "";
      s
    else
      var front := OfNat(n / 10);
      var s := front + [DigitChar(n % 10)];
      assert s[..|s| - 1] == front;
      LeadingDigit(front);
      s
  }

  /** The printed form of an integer. */
  function OfInt(n: int): string {
    if n < 0 then "-" + OfNat(-n) else OfNat(n)
  }

  /** An optional minus sign followed by at least one digit. */
  predicate IsSigned(s: string) {
    if s != "" && s[0] == '-' then |s| > 1 && IsDigits(s[1..]) else s != "" && IsDigits(s)
  }

  function IntValue(s: string): int
    requires IsSigned(s)
  {
    if s[0] == '-' then -(Value(s[1..]) as int) else Value(s)
  }

  function StripLeadingZeros(s: string): string {
    if s != "" && s[0] == '0' then StripLeadingZeros(s[1..]) else s
  }

  /** Lexicographic order of strings by character code. */
  predicate LexLess(a: string, b: string) {
    if b == "" then false
    else if a == "" then true
    else if a[0] != b[0] then a[0] < b[0]
    else LexLess(a[1..], b[1..])
  }

  lemma TimesTen(x: int, p: int)
    ensures x * (10 * p) == 10 * (x * p)
  {
  }

  lemma Distribute(x: int, y: int, p: int)
    ensures (x + y) * p == x * p + y * p
  {
  }

  lemma MulMonotone(x: int, y: int, p: nat)
    requires x <= y
    ensures x * p <= y * p
  {
  }

  lemma {:induction false} Pow10Add(a: nat, b: nat)
    ensures Pow10(a + b) == Pow10(a) * Pow10(b)
  {
    if a > 0 {
      Pow10Add(a - 1, b);
      assert Pow10(a) * Pow10(b) == 10 * (Pow10(a - 1) * Pow10(b));
    }
  }

  /** Concatenation shifts the front by the length of the back. */
  lemma {:induction false} ValueConcat(a: string, b: string)
    requires IsDigits(a) && IsDigits(b)
    ensures IsDigits(a + b) && Value(a + b) == Value(a) * Pow10(|b|) + Value(b)
  {
    if b == "" {
      assert a + b == a;
    } else {
      var front := b[..|b| - 1];
      ValueConcat(a, front);
      assert (a + b)[..|a + b| - 1] == a + front;
      assert (a + b)[|a + b| - 1] == b[|b| - 1];
      TimesTen(Value(a), Pow10(|front|));
    }
  }

  lemma ValueSingle(c: char)
    requires IsDigit(c)
    ensures Value([c]) == DigitValue(c)
  {
    assert [c][..0] == "";
  }

  lemma ValuePrepend(c: char, s: string)
    requires IsDigit(c) && IsDigits(s)
    ensures IsDigits([c] + s) && Value([c] + s) == DigitValue(c) * Pow10(|s|) + Value(s)
  {
    ValueSingle(c);
    ValueConcat([c], s);
  }

  lemma {:induction false} ValueBound(s: string)
    requires IsDigits(s)
    ensures Value(s) < Pow10(|s|)
  {
    if s != "" {
      ValueBound(s[..|s| - 1]);
    }
  }

  lemma CanonicalLowerBound(s: string)
    requires Canonical(s) && s != "0"
    ensures Value(s) >= Pow10(|s| - 1)
  {
    assert s == [s[0]] + s[1..];
    ValuePrepend(s[0], s[1..]);
    MulMonotone(1, DigitValue(s[0]), Pow10(|s| - 1));
  }

  lemma DigitDominates(x: int, y: int, restX: int, restY: int, p: nat)
    requires x < y && restX < p && 0 <= restY
    ensures x * p + restX < y * p + restY
  {
    MulMonotone(x + 1, y, p);
    Distribute(x, 1, p);
  }

  /** Among digit strings of one length, lexicographic order is numeric order. */
  lemma {:induction false} LexIsNumeric(a: string, b: string)
    requires IsDigits(a) && IsDigits(b) && |a| == |b|
    ensures LexLess(a, b) <==> Value(a) < Value(b)
    ensures a == b <==> Value(a) == Value(b)
  {
    if a == "" {
    } else {
      assert a == [a[0]] + a[1..] && b == [b[0]] + b[1..];
      ValuePrepend(a[0], a[1..]);
      ValuePrepend(b[0], b[1..]);
      ValueBound(a[1..]);
      ValueBound(b[1..]);
      LexIsNumeric(a[1..], b[1..]);
      var p := Pow10(|a| - 1);
      var x, y := DigitValue(a[0]), DigitValue(b[0]);
      if x < y {
        DigitDominates(x, y, Value(a[1..]), Value(b[1..]), p);
      } else if y < x {
        DigitDominates(y, x, Value(b[1..]), Value(a[1..]), p);
      }
    }
  }

  lemma {:induction false} Pow10Monotone(a: nat, b: nat)
    requires a <= b
    ensures Pow10(a) <= Pow10(b)
  {
    if a < b {
      Pow10Monotone(a, b - 1);
    }
  }

  /** Canonical digit strings compare by length first, then lexicographically. */
  lemma CanonicalOrder(a: string, b: string)
    requires Canonical(a) && Canonical(b)
    ensures Value(a) < Value(b) <==> (|a| < |b| || (|a| == |b| && LexLess(a, b)))
    ensures Value(a) == Value(b) <==> a == b
  {
    if |a| == |b| {
      LexIsNumeric(a, b);
    } else if |a| < |b| {
      ShorterIsSmaller(a, b);
    } else {
      ShorterIsSmaller(b, a);
    }
  }

  lemma ShorterIsSmaller(a: string, b: string)
    requires Canonical(a) && Canonical(b) && |a| < |b|
    ensures Value(a) < Value(b)
  {
    ValueBound(a);
    CanonicalLowerBound(b);
    Pow10Monotone(|a|, |b| - 1);
  }

  /** Printing and reading are inverse on canonical digit strings. */
  lemma OfNatUnique(s: string)
    requires Canonical(s)
    ensures OfNat(Value(s)) == s
  {
    CanonicalOrder(OfNat(Value(s)), s);
  }

  /** Reading back a printed integer gives the integer, and a signed digit string is a
      printed form exactly when it is canonical and not minus zero. */
  lemma OfIntRoundTrip(n: int)
    ensures IsSigned(OfInt(n)) && IntValue(OfInt(n)) == n
  {
    if n < 0 {
      assert OfInt(n)[1..] == OfNat(-n);
    } else {
      assert IsDigit(OfInt(n)[0]);
    }
  }

  lemma OfIntInjective(a: int, b: int)
    requires OfInt(a) == OfInt(b)
    ensures a == b
  {
    OfIntRoundTrip(a);
    OfIntRoundTrip(b);
  }

  /** Removing leading zeros keeps the value and leaves a canonical form or nothing. */
  lemma {:induction false} StripValue(s: string)
    requires IsDigits(s)
    ensures var t := StripLeadingZeros(s);
            IsDigits(t) && Value(t) == Value(s) && (t == "" <==> Value(s) == 0) && (t != "" ==> Canonical(t))
  {
    if s != "" && s[0] == '0' {
      assert s == [s[0]] + s[1..];
      ValuePrepend(s[0], s[1..]);
      StripValue(s[1..]);
    } else if s != "" && s != "0" {
      CanonicalLowerBound(s);
    }
  }

  /** `s` without its trailing zeros. */
  function TrimTrailingZeros(s: string): (t: string)
    ensures |t| <= |s| && t == s[..|t|] && (t != "" ==> t[|t| - 1] != '0')
  {
    if s != "" && s[|s| - 1] == '0' then TrimTrailingZeros(s[..|s| - 1]) else s
  }

  /** Each trailing zero dropped is a factor of ten. */
  lemma {:induction false} TrimKeeps(s: string)
    requires IsDigits(s)
    ensures var t := TrimTrailingZeros(s);
            IsDigits(t) && Value(t) * Pow10(|s| - |t|) == Value(s)
  {
    if s != "" && s[|s| - 1] == '0' {
      var front := s[..|s| - 1];
      TrimKeeps(front);
      var t := TrimTrailingZeros(front);
      TimesTen(Value(t), Pow10(|front| - |t|));
    }
  }
}
