/** The digit-string arithmetic of the timestamp compare-and-set script. */
module LuaDecimal {
  import opened Decimal

  /** What a Lua variable of the script can hold.  A number decoded from JSON keeps the literal it
      was written as beside the value Lua makes of it. */
  datatype LuaValue = Nil | Text(text: string) | Number(value: real, literal: string) | Other

  const MAX_EXACT: int := 0x20_0000_0000_0000
  const INT64_MIN: int := -0x8000_0000_0000_0000
  const INT64_MAX: int := 0x7FFF_FFFF_FFFF_FFFF

  /** The integers a Lua number (a double) holds exactly, up to 2^53 either way.  Every
      sum, product and floored quotient of the script has this type, so each of these is exact.  The
      quotients under the floor are rounded: see FloorOfRounded. */
  type LuaInt = x: int | -MAX_EXACT <= x <= MAX_EXACT

  /** A double division answers a quotient within one part in 2^53, and exactly when the quotient
      is a whole number. */
  ghost predicate IsDoubleQuotient(q: real, x: LuaInt, d: nat)
    requires d > 0
  {
    var error := RoundingError(q, x, d);
    (x % d == 0 ==> error == 0.0) && -Magnitude(x) <= error * MAX_EXACT as real <= Magnitude(x)
  }

  function Magnitude(x: int): real {
    (if x < 0 then -x else x) as real
  }

  /** The floor of the rounded quotient is the floor of the exact one, for every number the script
      divides. */
  lemma FloorOfRounded(q: real, x: LuaInt, d: nat)
    requires d > 0 && IsDoubleQuotient(q, x, d) && (x % d < d - 1 || -MAX_EXACT < x < MAX_EXACT)
    ensures q.Floor == x / d
  {
    hide *;
    ErrorIsSmall(q, x, d);
    SplitQuotient(q, x, d);
    FloorIs(q, x / d, (x % d) as real + RoundingError(q, x, d), d);
  }

  /** How far the rounded quotient, times the divisor, is from the dividend. */
  ghost function RoundingError(q: real, x: int, d: nat): real {
    q * d as real - x as real
  }

  lemma ErrorIsSmall(q: real, x: LuaInt, d: nat)
    requires d > 0 && IsDoubleQuotient(q, x, d) && (x % d < d - 1 || -MAX_EXACT < x < MAX_EXACT)
    ensures 0.0 <= (x % d) as real + RoundingError(q, x, d) < d as real
  {
    StepBound(x % d, RoundingError(q, x, d), x, d);
  }

  lemma StepBound(r: nat, error: real, x: LuaInt, d: nat)
    requires r < d && -Magnitude(x) <= error * MAX_EXACT as real <= Magnitude(x) && (r == 0 ==> error == 0.0)
    requires r < d - 1 || -MAX_EXACT < x < MAX_EXACT
    ensures 0.0 <= r as real + error < d as real
  {
    assert -1.0 <= error <= 1.0 && (-MAX_EXACT < x < MAX_EXACT ==> -1.0 < error < 1.0);
  }

  lemma SplitQuotient(q: real, x: int, d: nat)
    requires d > 0
    ensures q * d as real == (x / d) as real * d as real + ((x % d) as real + RoundingError(q, x, d))
  {
    var k, r := x / d, x % d;
    assert x == k * d + r;
    RealProduct(k, d);
  }

  lemma RealProduct(k: int, d: nat)
    ensures (k * d) as real == k as real * d as real
  {
  }

  lemma FloorIs(q: real, k: int, rest: real, d: nat)
    requires d > 0 && q * d as real == k as real * d as real + rest && 0.0 <= rest < d as real
    ensures q.Floor == k
  {
    var above := q - k as real;
    assert above * d as real == rest;
  }

  predicate IsInt64(n: int) {
    INT64_MIN <= n <= INT64_MAX
  }

  /** What `decimalParts` reports of a decimal text: its sign and canonical magnitude. */
  ghost predicate IsDecimalText(value: LuaValue) {
    value.Text? && IsSigned(value.text)
  }

  function Sign(n: int): int {
    if n < 0 then -1 else if n > 0 then 1 else 0
  }

  method AllDigitsFrom(value: string, start: nat) returns (ok: bool)
    requires start <= |value|
    ensures ok <==> IsDigits(value[start..])
  {
    for i := start to |value|
      invariant forall k | start <= k < i :: IsDigit(value[k])
    {
      if !IsDigit(value[i]) {
        assert !IsDigit(value[start..][i - start]);
        return false;
      }
    }
    return true;
  }

  method DecimalParts(value: LuaValue) returns (parts: Option<(bool, string)>)
    ensures parts.Some? <==> IsDecimalText(value)
    ensures parts.Some? ==>
              var (negative, digits) := parts.value;
              && Canonical(digits)
              && IntValue(value.text) == (if negative then -(Value(digits) as int) else Value(digits))
              && (negative ==> Value(digits) != 0)
  {
    if !value.Text? {
      return None;
    }
    var text := value.text;
    var negative := text != "" && text[0] == '-';
    var start := if negative then 1 else 0;
    if start + 1 > |text| {
      return None;
    }
    assert text[0..] == text;
    var ok := AllDigitsFrom(text, start);
    if !ok {
      return None;
    }
    var digits := StripLeadingZeros(text[start..]);
    StripValue(text[start..]);
    if digits == "" {
      ValueSingle('0');
      return Some((false, "0"));
    }
    return Some((negative, digits));
  }

  method CompareUnsigned(left: string, right: string) returns (order: int)
    requires Canonical(left) && Canonical(right)
    ensures order == Sign(Value(left) - Value(right))
  {
    CanonicalOrder(left, right);
    CanonicalOrder(right, left);
    if |left| != |right| {
      return if |left| < |right| then -1 else 1;
    }
    if left == right {
      return 0;
    }
    return if LexLess(left, right) then -1 else 1;
  }

  /** The integer order on all optionally signed digit strings, leading zeros and minus
      zero included; nil exactly when one side is not such a string. */
  method CompareDecimals(left: LuaValue, right: LuaValue) returns (order: Option<int>)
    ensures order.Some? <==> IsDecimalText(left) && IsDecimalText(right)
    ensures order.Some? ==> order.value == Sign(IntValue(left.text) - IntValue(right.text))
  {
    var leftParts := DecimalParts(left);
    var rightParts := DecimalParts(right);
    if leftParts.None? || rightParts.None? {
      return None;
    }
    var (leftNegative, leftDigits) := leftParts.value;
    var (rightNegative, rightDigits) := rightParts.value;
    if leftNegative != rightNegative {
      return Some(if leftNegative then -1 else 1);
    }
    CanonicalOrder(leftDigits, rightDigits);
    CanonicalOrder(rightDigits, leftDigits);
    if |leftDigits| != |rightDigits| {
      if leftNegative {
        return Some(if |leftDigits| < |rightDigits| then 1 else -1);
      }
      return Some(if |leftDigits| < |rightDigits| then -1 else 1);
    }
    if leftDigits == rightDigits {
      return Some(0);
    }
    if leftNegative {
      return Some(if LexLess(leftDigits, rightDigits) then 1 else -1);
    }
    return Some(if LexLess(leftDigits, rightDigits) then -1 else 1);
  }

  /** The text is the printed form of an int64. */
  ghost predicate IsInt64Text(text: string) {
    exists n: int :: IsInt64(n) && text == OfInt(n)
  }

  /** Accepts exactly the printed forms of the 2^64 int64 values. */
  method CanonicalInt64(value: LuaValue) returns (ok: bool)
    ensures ok <==> value.Text? && IsInt64Text(value.text)
  {
    if value.Text? {
      Int64TextShape(value.text);
    }
    if !value.Text? || value.text == "" {
      return false;
    }
    var text := value.text;
    var negative := text[0] == '-';
    var start := if negative then 1 else 0;
    if start + 1 > |text| {
      return false;
    }
    if text[start] == '0' && start + 1 < |text| {
      return false;
    }
    assert text[0..] == text;
    ok := AllDigitsFrom(text, start);
    if !ok {
      return;
    }
    var digits := text[start..];
    if negative && digits == "0" {
      return false;
    }
    NineteenDigits(digits);
    if |digits| > 19 {
      return false;
    }
    if |digits| == 19 {
      var limit := if negative then "9223372036854775808" else "9223372036854775807";
      var order := CompareUnsigned(digits, limit);
      if order == 1 {
        return false;
      }
    }
    return true;
  }

  ghost predicate Int64Shape(text: string) {
    var negative := text != "" && text[0] == '-';
    var digits := if negative then text[1..] else text;
    && Canonical(digits)
    && (negative ==> digits != "0" && Value(digits) <= -INT64_MIN)
    && (!negative ==> Value(digits) <= INT64_MAX)
  }

  /** The shape of an int64 text: an optional sign, a canonical magnitude that is not minus
      zero, within the bounds. */
  lemma Int64TextShape(text: string)
    ensures IsInt64Text(text) <==> Int64Shape(text)
  {
    if IsInt64Text(text) {
      var n: int :| IsInt64(n) && text == OfInt(n);
      PrintedShape(n);
      ValueSingle('0');
    }
    if Int64Shape(text) {
      ShapeIsPrinted(text);
    }
  }

  lemma ShapeIsPrinted(text: string)
    requires Int64Shape(text)
    ensures IsInt64Text(text)
  {
    hide Value, OfNat;
    if text[0] == '-' {
      var digits := text[1..];
      OfNatUnique(digits);
      ZeroIsPrintedZero(digits);
      assert text == "-" + digits;
      assert text == OfInt(-(Value(digits) as int));
    } else {
      OfNatUnique(text);
      assert text == OfInt(Value(text));
    }
  }

  lemma PrintedShape(n: int)
    ensures var s := OfInt(n);
            if s[0] == '-' then n < 0 && Canonical(s[1..]) && Value(s[1..]) == -n else n >= 0 && Canonical(s)
  {
    if n < 0 {
      assert OfInt(n)[1..] == OfNat(-n);
    }
  }

  lemma ZeroIsPrintedZero(digits: string)
    requires Canonical(digits) && digits != "0"
    ensures Value(digits) > 0
  {
    CanonicalLowerBound(digits);
  }

  /** The two int64 bounds have nineteen digits, so longer numbers exceed them and shorter
      ones stay below. */
  lemma NineteenDigits(digits: string)
    requires Canonical(digits)
    ensures Canonical("9223372036854775807") && Value("9223372036854775807") == INT64_MAX
    ensures Canonical("9223372036854775808") && Value("9223372036854775808") == -INT64_MIN
    ensures |digits| > 19 ==> Value(digits) > -INT64_MIN
    ensures |digits| < 19 ==> Value(digits) < INT64_MAX
  {
    var low, high := "9223372036854775807", "9223372036854775808";
    LimitValue();
    CanonicalOrder(high, digits);
    CanonicalOrder(digits, low);
  }

  lemma LimitValue()
    ensures Canonical("9223372036854775807") && Value("9223372036854775807") == INT64_MAX
    ensures Canonical("9223372036854775808") && Value("9223372036854775808") == -INT64_MIN
  {
    var stem := "922337203685477580";
    StemValue();
    ValueSnoc(stem, '7');
    ValueSnoc(stem, '8');
    assert "9223372036854775807" == stem + ['7'];
    assert "9223372036854775808" == stem + ['8'];
  }

  lemma StemValue()
    ensures IsDigits("922337203685477580") && Value("922337203685477580") == 922337203685477580
  {
    hide Value;
    FrontValue("922337203", "922", "337", "203");
    FrontValue("685477580", "685", "477", "580");
    assert "922337203685477580" == "922337203" + "685477580";
    ValueConcat("922337203", "685477580");
    assert Pow10(6) == 1_000_000;
    assert Pow10(9) == 1_000_000_000;
  }

  lemma FrontValue(whole: string, a: string, b: string, c: string)
    requires |a| == |b| == |c| == 3 && whole == (a + b) + c
    requires IsDigits(a) && IsDigits(b) && IsDigits(c)
    ensures IsDigits(whole) && Value(whole) == ThreeDigits(a) * 1_000_000 + ThreeDigits(b) * 1000 + ThreeDigits(c)
  {
    ThreeDigitValue(a);
    ThreeDigitValue(b);
    ThreeDigitValue(c);
    ValueConcat(a, b);
    ValueConcat(a + b, c);
    assert Pow10(3) == 1000;
  }

  ghost function ThreeDigits(s: string): int
    requires |s| == 3 && IsDigits(s)
  {
    DigitValue(s[0]) * 100 + DigitValue(s[1]) * 10 + DigitValue(s[2])
  }

  lemma ThreeDigitValue(s: string)
    requires |s| == 3 && IsDigits(s)
    ensures Value(s) == ThreeDigits(s)
  {
    ValueSingle(s[0]);
    ValueSnoc([s[0]], s[1]);
    ValueSnoc([s[0], s[1]], s[2]);
    assert s == ([s[0]] + [s[1]]) + [s[2]];
    assert [s[0]] + [s[1]] == [s[0], s[1]];
  }

  lemma ValueSnoc(s: string, c: char)
    requires IsDigits(s) && IsDigit(c)
    ensures IsDigits(s + [c]) && Value(s + [c]) == Value(s) * 10 + DigitValue(c)
  {
    assert (s + [c])[..|s|] == s;
  }

  lemma EmptyValue()
    ensures Value("") == 0
  {
  }

  /** Takes the last digit off a prefix. */
  lemma LastDigit(s: string, i: nat)
    requires IsDigits(s) && 0 < i <= |s|
    ensures IsDigits(s[..i]) && IsDigits(s[..i - 1]) && IsDigit(s[i - 1])
    ensures Value(s[..i]) == Value(s[..i - 1]) * 10 + DigitValue(s[i - 1])
  {
    assert s[..i][..i - 1] == s[..i - 1];
  }

  method StripZeros(value: string) returns (digits: string)
    requires IsDigits(value)
    ensures Canonical(digits) && Value(digits) == Value(value)
  {
    StripValue(value);
    digits := StripLeadingZeros(value);
    if digits == "" {
      ValueSingle('0');
      return "0";
    }
  }

  /** What a right-to-left digit loop keeps: the digits written so far, plus the number still
      pending in front of them, make up the target. */
  ghost predicate Partial(result: string, pending: int, target: int) {
    IsDigits(result) && Value(result) + pending * Pow10(|result|) == target
  }

  /** The units digit of the pending number joins the result, the rest stays pending. */
  lemma DigitStep(result: string, pending: int, digit: int, rest: int, target: int)
    requires Partial(result, pending, target) && 0 <= digit <= 9 && pending == 10 * rest + digit
    ensures Partial([DigitChar(digit)] + result, rest, target)
  {
    var p := Pow10(|result|);
    ValuePrepend(DigitChar(digit), result);
    TimesTen(rest, p);
    Distribute(10 * rest, digit, p);
    TenTimes(rest, p);
  }

  lemma TenTimes(x: int, p: int)
    ensures (10 * x) * p == 10 * (x * p)
  {
  }

  /** A digit loop is done when nothing is pending. */
  lemma DigitsDone(result: string, target: int)
    requires Partial(result, 0, target)
    ensures IsDigits(result) && Value(result) == target
  {
  }

  lemma NothingWritten(target: int)
    ensures Partial("", target, target)
  {
  }

  method IntegerString(value: LuaInt) returns (digits: string)
    requires value >= 0
    ensures Canonical(digits) && Value(digits) == value
  {
    if value == 0 {
      ValueSingle('0');
      return "0";
    }
    digits := "";
    var rest: LuaInt := value;
    while rest > 0
      invariant rest >= 0 && Partial(digits, rest, value)
      invariant rest == 0 ==> digits != "" && digits[0] != '0'
    {
      var digit := rest % 10;
      DigitStep(digits, rest, digit, rest / 10, value);
      digits := [DigitChar(digit)] + digits;
      rest := rest / 10;
    }
    DigitsDone(digits, value);
  }

  /** Addition of digit strings of any length. */
  method AddUnsigned(left: string, right: string) returns (sum: string)
    requires IsDigits(left) && IsDigits(right)
    ensures Canonical(sum) && Value(sum) == Value(left) + Value(right)
  {
    hide Partial, Value, OfNat;
    EmptyValue();
    var i, j := |left|, |right|;
    var carry: LuaInt := 0;
    var result := "";
    assert left[..i] == left && right[..j] == right;
    ghost var target := Value(left) + Value(right);
    ghost var pending: int := target;
    NothingWritten(target);
    while i >= 1 || j >= 1 || carry > 0
      invariant 0 <= i <= |left| && 0 <= j <= |right| && 0 <= carry <= 1
      invariant pending == Value(left[..i]) + Value(right[..j]) + carry
      invariant Partial(result, pending, target)
      decreases i + j + carry
    {
      var total: LuaInt := carry;
      ghost var front := 0;
      if i >= 1 {
        LastDigit(left, i);
        total := total + DigitValue(left[i - 1]);
        i := i - 1;
        front := front + Value(left[..i]);
      }
      if j >= 1 {
        LastDigit(right, j);
        total := total + DigitValue(right[j - 1]);
        j := j - 1;
        front := front + Value(right[..j]);
      }
      DigitStep(result, pending, total % 10, front + total / 10, target);
      result := [DigitChar(total % 10)] + result;
      carry := total / 10;
      pending := front + carry;
    }
    DigitsDone(result, target);
    sum := StripZeros(result);
  }

  /** Subtraction of digit strings of any length, the left at least the right. */
  method SubtractUnsigned(left: string, right: string) returns (difference: string)
    requires IsDigits(left) && IsDigits(right) && Value(left) >= Value(right)
    ensures Canonical(difference) && Value(difference) == Value(left) - Value(right)
  {
    hide Partial, Value, OfNat;
    EmptyValue();
    var i, j := |left|, |right|;
    var borrow: LuaInt := 0;
    var result := "";
    assert left[..i] == left && right[..j] == right;
    ghost var target := Value(left) - Value(right);
    ghost var pending: int := target;
    NothingWritten(target);
    while i >= 1
      invariant 0 <= i <= |left| && 0 <= j <= |right| && 0 <= borrow <= 1
      invariant pending == Value(left[..i]) - Value(right[..j]) - borrow
      invariant Partial(result, pending, target)
    {
      LastDigit(left, i);
      var digit: LuaInt := DigitValue(left[i - 1]) - borrow;
      ghost var front: int := Value(left[..i - 1]);
      if j >= 1 {
        LastDigit(right, j);
        digit := digit - DigitValue(right[j - 1]);
        j := j - 1;
        front := front - Value(right[..j]);
      }
      if digit < 0 {
        digit := digit + 10;
        borrow := 1;
      } else {
        borrow := 0;
      }
      DigitStep(result, pending, digit, front - borrow, target);
      result := [DigitChar(digit)] + result;
      i := i - 1;
      pending := front - borrow;
    }
    assert left[..0] == "";
    NothingOwed(result, pending, target);
    DigitsDone(result, target);
    difference := StripZeros(result);
  }

  /** A loop that aims at a natural number cannot end with a debt. */
  lemma NothingOwed(result: string, pending: int, target: nat)
    requires Partial(result, pending, target) && pending <= 0
    ensures pending == 0
  {
    ValueBound(result);
    if pending < 0 {
      MulMonotone(pending, -1, Pow10(|result|));
    }
  }

  /** Multiplication of a digit string of any length by a machine integer.  The carry stays
      below the multiplier, so a multiplier up to 2^53 / 10 keeps every intermediate exact. */
  method MultiplyUnsignedByInteger(value: string, multiplier: LuaInt) returns (product: string)
    requires IsDigits(value) && 0 <= multiplier && 10 * multiplier <= MAX_EXACT
    ensures Canonical(product) && Value(product) == Value(value) * multiplier
  {
    hide Partial, Value, OfNat, Pow10;
    EmptyValue();
    var i := |value|;
    var carry: LuaInt := 0;
    var result := "";
    assert value[..i] == value;
    ghost var target := Value(value) * multiplier;
    ghost var front := target;
    NothingWritten(target);
    while i >= 1
      invariant 0 <= i <= |value| && 0 <= carry && (carry < multiplier || carry == multiplier == 0)
      invariant front == Value(value[..i]) * multiplier
      invariant Partial(result, front + carry, target)
    {
      var digit := DigitValue(value[i - 1]);
      DigitTimes(digit, multiplier);
      var total: LuaInt := digit * multiplier + carry;
      ghost var front' := Value(value[..i - 1]) * multiplier;
      LastDigit(value, i);
      FrontDigit(value[..i], multiplier);
      assert value[..i][..i - 1] == value[..i - 1];
      DigitStep(result, front + carry, total % 10, front' + total / 10, target);
      result := [DigitChar(total % 10)] + result;
      carry := total / 10;
      i := i - 1;
      front := front';
    }
    assert value[..0] == "" && front == 0;
    while carry > 0
      invariant carry >= 0 && Partial(result, carry, target)
    {
      DigitStep(result, carry, carry % 10, carry / 10, target);
      result := [DigitChar(carry % 10)] + result;
      carry := carry / 10;
    }
    DigitsDone(result, target);
    product := StripZeros(result);
  }

  lemma FrontDigit(s: string, multiplier: int)
    requires s != "" && IsDigits(s)
    ensures Value(s) * multiplier == 10 * (Value(s[..|s| - 1]) * multiplier) + DigitValue(s[|s| - 1]) * multiplier
  {
    Distribute(10 * Value(s[..|s| - 1]), DigitValue(s[|s| - 1]), multiplier);
    TenTimes(Value(s[..|s| - 1]), multiplier);
  }

  lemma DigitTimes(digit: nat, multiplier: nat)
    requires digit <= 9
    ensures 0 <= digit * multiplier <= 9 * multiplier
  {
    MulMonotone(digit, 9, multiplier);
  }

  /** The number in a fixed-width field, or nil when the text ends too early or the field
      holds something other than digits. */
  method ParseDigits(value: string, start: nat, count: nat) returns (number: Option<LuaInt>)
    requires 1 <= count <= 9
    ensures number.Some? <==> start + count <= |value| && IsDigits(value[start..start + count])
    ensures number.Some? ==> number.value == Value(value[start..start + count])
    ensures number.Some? ==> 0 <= number.value < Pow10(count) <= 1_000_000_000
  {
    if start + count > |value| {
      return None;
    }
    var result: LuaInt := 0;
    assert value[start..start] == "" && IsDigits("");
    hide IsDigits, Value, Pow10;
    FieldBound("", 0);
    for i := start to start + count
      invariant IsDigits(value[start..i]) && result == Value(value[start..i])
    {
      if !IsDigit(value[i]) {
        NotAllDigits(value, start, i, start + count);
        return None;
      }
      NextDigit(value, start, i);
      FieldBound(value[start..i], 8);
      result := result * 10 + DigitValue(value[i]);
    }
    FieldBound(value[start..start + count], count);
    return Some(result);
  }

  lemma NotAllDigits(value: string, start: nat, i: nat, end: nat)
    requires start <= i < end <= |value| && !IsDigit(value[i])
    ensures !IsDigits(value[start..end])
  {
    assert !IsDigit(value[start..end][i - start]);
  }

  lemma NextDigit(value: string, start: nat, i: nat)
    requires start <= i < |value| && IsDigits(value[start..i]) && IsDigit(value[i])
    ensures IsDigits(value[start..i + 1])
    ensures Value(value[start..i + 1]) == Value(value[start..i]) * 10 + DigitValue(value[i])
  {
    assert value[start..i + 1] == value[start..i] + [value[i]];
    ValueSnoc(value[start..i], value[i]);
  }

  lemma FieldBound(field: string, count: nat)
    requires IsDigits(field) && |field| <= count <= 9
    ensures 0 <= Value(field) < Pow10(count) <= 1_000_000_000
    ensures count <= 8 ==> Value(field) < 100_000_000
    ensures field == "" ==> Value(field) == 0
  {
    ValueBound(field);
    Pow10Monotone(|field|, count);
    Pow10Monotone(count, 9);
    if count <= 8 {
      Pow10Monotone(count, 8);
    }
    assert Pow10(8) == 100_000_000;
    assert Pow10(9) == 1_000_000_000;
  }
}
