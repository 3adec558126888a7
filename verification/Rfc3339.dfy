/** Timestamps in the format of section 5.6 of RFC 3339: what a text denotes, the script's
    parser, and the printer of the Go side. */
module Rfc3339 {
  import opened Decimal
  import opened LuaDecimal
  import opened Calendar

  const NANOS_PER_SECOND := 1_000_000_000

  datatype Clock = Clock(date: Date, hour: int, minute: int, second: int)

  datatype Fraction = NoFraction | Fraction(marker: char, digits: string)

  datatype Zone = Zulu | Offset(negative: bool, hours: int, minutes: int)

  /** The fields a timestamp text spells out. */
  datatype Stamp = Stamp(clock: Clock, fraction: Fraction, zone: Zone)

  predicate ValidClock(c: Clock) {
    && 0 <= c.date.year <= 9999 && ValidDate(c.date)
    && 0 <= c.hour <= 23 && 0 <= c.minute <= 59 && 0 <= c.second <= 59
  }

  predicate ValidFraction(f: Fraction) {
    f.Fraction? ==> (f.marker == '.' || f.marker == ',') && 1 <= |f.digits| <= 9 && IsDigits(f.digits)
  }

  predicate ValidZone(z: Zone) {
    z.Offset? ==> 0 <= z.hours <= 23 && 0 <= z.minutes <= 59
  }

  predicate ValidStamp(st: Stamp) {
    ValidClock(st.clock) && ValidFraction(st.fraction) && ValidZone(st.zone)
  }

  /** `n` in exactly `width` digits. */
  function FixedWidth(width: nat, n: nat): (s: string)
    requires n < Pow10(width)
    ensures |s| == width && IsDigits(s) && Value(s) == n
  {
    if width == 0 then "" else
      var front := FixedWidth(width - 1, n / 10);
      var s := front + [DigitChar(n % 10)];
      assert s[..|s| - 1] == front;
      s
  }

  lemma FixedWidthUnique(s: string)
    requires IsDigits(s)
    ensures Value(s) < Pow10(|s|) && FixedWidth(|s|, Value(s)) == s
  {
    ValueBound(s);
    LexIsNumeric(FixedWidth(|s|, Value(s)), s);
  }

  function Two(n: int): (s: string)
    requires 0 <= n <= 99
    ensures |s| == 2 && IsDigits(s) && Value(s) == n
  {
    assert Pow10(2) == 100;
    FixedWidth(2, n)
  }

  function RenderDate(d: Date): (s: string)
    requires 0 <= d.year <= 9999 && 1 <= d.month <= 12 && 1 <= d.day <= 31
    ensures |s| == 10
  {
    assert Pow10(4) == 10000;
    FixedWidth(4, d.year) + "-" + Two(d.month) + "-" + Two(d.day)
  }

  function RenderTime(hour: int, minute: int, second: int): (s: string)
    requires 0 <= hour <= 23 && 0 <= minute <= 59 && 0 <= second <= 59
    ensures |s| == 8
  {
    Two(hour) + ":" + Two(minute) + ":" + Two(second)
  }

  function RenderClock(c: Clock): (s: string)
    requires ValidClock(c)
    ensures |s| == 19
  {
    RenderDate(c.date) + "T" + RenderTime(c.hour, c.minute, c.second)
  }

  function RenderFraction(f: Fraction): string {
    if f.NoFraction? then "" else [f.marker] + f.digits
  }

  function RenderZone(z: Zone): (s: string)
    requires ValidZone(z)
  {
    if z.Zulu? then "Z" else [if z.negative then '-' else '+'] + Two(z.hours) + ":" + Two(z.minutes)
  }

  /** The text of a stamp. */
  function Render(st: Stamp): string
    requires ValidStamp(st)
  {
    RenderClock(st.clock) + RenderFraction(st.fraction) + RenderZone(st.zone)
  }

  ghost predicate Denotes(text: string, st: Stamp) {
    ValidStamp(st) && text == Render(st)
  }

  function OffsetSeconds(z: Zone): int {
    if z.Zulu? then 0
    else if z.negative then -(z.hours * 3600 + z.minutes * 60) else z.hours * 3600 + z.minutes * 60
  }

  function FractionNanos(f: Fraction): nat
    requires ValidFraction(f)
  {
    if f.NoFraction? then 0 else Value(f.digits) * Pow10(9 - |f.digits|)
  }

  /** Seconds since 1970-01-01T00:00:00Z, counting calendar days. */
  function UnixSeconds(c: Clock, z: Zone): int
    requires 1 <= c.date.month <= 12
  {
    DayNumber(c.date) * 86400 + c.hour * 3600 + c.minute * 60 + c.second - OffsetSeconds(z)
  }

  /** The instant a stamp names, in nanoseconds since 1970-01-01T00:00:00Z. */
  function Instant(st: Stamp): int
    requires ValidStamp(st)
  {
    UnixSeconds(st.clock, st.zone) * NANOS_PER_SECOND + FractionNanos(st.fraction)
  }

  /* ---------- the parser ---------- */

  /** The separators and digit fields of a date and time stand in their columns. */
  predicate ClockShape(value: string)
    requires |value| >= 20
  {
    && value[4] == '-' && value[7] == '-' && value[10] == 'T' && value[13] == ':' && value[16] == ':'
    && IsDigits(value[0..4]) && IsDigits(value[5..7]) && IsDigits(value[8..10])
    && IsDigits(value[11..13]) && IsDigits(value[14..16]) && IsDigits(value[17..19])
  }

  function ClockFields(value: string): Clock
    requires |value| >= 20 && ClockShape(value)
  {
    Clock(Date(Value(value[0..4]), Value(value[5..7]), Value(value[8..10])),
          Value(value[11..13]), Value(value[14..16]), Value(value[17..19]))
  }

  method DaysInMonth(year: LuaInt, month: LuaInt) returns (days: LuaInt)
    requires 1 <= month <= 12
    ensures days == MonthLength(year, month)
  {
    var monthDays := [31, 28, 31, 30, 31, 30, 31, 31, 30, 31, 30, 31];
    if month == 2 && IsLeap(year) {
      monthDays := monthDays[1 := 29];
    }
    return monthDays[month - 1];
  }

  /** The date and time fields, at their fixed columns. */
  method ParseClock(value: string) returns (clock: Option<Clock>)
    requires |value| >= 20
    ensures clock.Some? <==> ClockShape(value) && ValidClock(ClockFields(value))
    ensures clock.Some? ==> clock.value == ClockFields(value)
  {
    hide Value;
    var year := ParseDigits(value, 0, 4);
    var month := ParseDigits(value, 5, 2);
    var day := ParseDigits(value, 8, 2);
    var hour := ParseDigits(value, 11, 2);
    var minute := ParseDigits(value, 14, 2);
    var second := ParseDigits(value, 17, 2);
    if year.None? || month.None? || day.None? || hour.None? || minute.None? || second.None? ||
       value[4] != '-' || value[7] != '-' || value[10] != 'T' || value[13] != ':' || value[16] != ':' {
      return None;
    }
    if month.value < 1 || month.value > 12 || hour.value > 23 || minute.value > 59 || second.value > 59 {
      return None;
    }
    var monthDays := DaysInMonth(year.value, month.value);
    if day.value < 1 || day.value > monthDays {
      return None;
    }
    assert Pow10(4) == 10000;
    return Some(Clock(Date(year.value, month.value, day.value), hour.value, minute.value, second.value));
  }

  /** A text begins with a rendered clock exactly when its columns have the shape and hold
      that clock's fields. */
  lemma ClockColumns(value: string, c: Clock)
    requires |value| >= 20 && ValidClock(c)
    ensures value[..19] == RenderClock(c) <==> ClockShape(value) && ClockFields(value) == c
  {
    DateColumns(value, c.date);
    TimeColumns(value, c.hour, c.minute, c.second);
    DateAndTime(value, RenderDate(c.date), RenderTime(c.hour, c.minute, c.second));
  }

  lemma DateAndTime(value: string, date: string, time: string)
    requires |value| >= 20 && |date| == 10 && |time| == 8
    ensures value[..19] == date + "T" + time <==> value[..10] == date && value[10] == 'T' && value[11..19] == time
  {
    var u, t := value[..19], date + "T" + time;
    assert u == value[..10] + [value[10]] + value[11..19];
    assert t[..10] == date && t[10] == 'T' && t[11..19] == time;
    assert u[..10] == value[..10] && u[10] == value[10] && u[11..19] == value[11..19];
  }

  lemma DateColumns(value: string, d: Date)
    requires |value| >= 20 && 0 <= d.year <= 9999 && 1 <= d.month <= 12 && 1 <= d.day <= 31
    ensures value[..10] == RenderDate(d) <==>
            && value[4] == '-' && value[7] == '-'
            && IsDigits(value[0..4]) && Value(value[0..4]) == d.year
            && IsDigits(value[5..7]) && Value(value[5..7]) == d.month
            && IsDigits(value[8..10]) && Value(value[8..10]) == d.day
  {
    assert Pow10(4) == 10000;
    hide Value, FixedWidth;
    FieldIs(value[0..4], 4, d.year);
    TwoIs(value[5..7], d.month);
    TwoIs(value[8..10], d.day);
    assert value[..10] == value[0..10];
    ThreeFields(value, 0, 4, '-', '-', FixedWidth(4, d.year), Two(d.month), Two(d.day));
  }

  lemma TimeColumns(value: string, hour: int, minute: int, second: int)
    requires |value| >= 20 && 0 <= hour <= 23 && 0 <= minute <= 59 && 0 <= second <= 59
    ensures value[11..19] == RenderTime(hour, minute, second) <==>
            && value[13] == ':' && value[16] == ':'
            && IsDigits(value[11..13]) && Value(value[11..13]) == hour
            && IsDigits(value[14..16]) && Value(value[14..16]) == minute
            && IsDigits(value[17..19]) && Value(value[17..19]) == second
  {
    hide Value, FixedWidth;
    TwoIs(value[11..13], hour);
    TwoIs(value[14..16], minute);
    TwoIs(value[17..19], second);
    ThreeFields(value, 11, 2, ':', ':', Two(hour), Two(minute), Two(second));
  }

  lemma TwoIs(field: string, n: int)
    requires |field| == 2 && 0 <= n <= 99
    ensures field == Two(n) <==> IsDigits(field) && Value(field) == n
  {
    assert Pow10(2) == 100;
    FieldIs(field, 2, n);
  }

  /** Three fields with single characters between them fill a stretch of text exactly when
      each field and each separator is in its place. */
  lemma ThreeFields(value: string, at: nat, width: nat, p: char, q: char, a: string, b: string, c: string)
    requires |a| == width && |b| == |c| == 2 && at + width + 6 <= |value|
    ensures value[at..at + width + 6] == a + [p] + b + [q] + c <==>
            && value[at..at + width] == a && value[at + width] == p && value[at + width + 1..at + width + 3] == b
            && value[at + width + 3] == q && value[at + width + 4..at + width + 6] == c
  {
    var u, t := value[at..at + width + 6], a + [p] + b + [q] + c;
    assert u == value[at..at + width] + [value[at + width]] + value[at + width + 1..at + width + 3] +
                [value[at + width + 3]] + value[at + width + 4..at + width + 6];
    if u == t {
      assert t[..width] == a && t[width] == p && t[width + 1..width + 3] == b && t[width + 3] == q &&
          t[width + 4..] == c;
      assert forall k | 0 <= k < |u| :: u[k] == value[at + k];
      assert u[..width] == value[at..at + width] && u[width] == value[at + width];
      assert u[width + 1..width + 3] == value[at + width + 1..at + width + 3];
      assert u[width + 3] == value[at + width + 3] && u[width + 4..] == value[at + width + 4..at + width + 6];
    }
  }

  /** A field holds a number's fixed-width form exactly when it is digits of that value. */
  lemma FieldIs(field: string, width: nat, n: nat)
    requires |field| == width && n < Pow10(width)
    ensures field == FixedWidth(width, n) <==> IsDigits(field) && Value(field) == n
  {
    if IsDigits(field) {
      FixedWidthUnique(field);
    }
  }

  /** The fraction found at column 19, and the column after it.  The digit run is maximal, so
      no other reading of the text has a different fraction. */
  ghost predicate FractionAt(value: string, f: Fraction, position: nat) {
    && 19 <= position <= |value| && ValidFraction(f) && value[19..position] == RenderFraction(f)
    && (f.NoFraction? ==> position < |value| && value[19] != '.' && value[19] != ',')
    && (f.Fraction? && position < |value| ==> !IsDigit(value[position]))
  }

  /** A fraction of one to nine digits in nanoseconds. */
  method ScaledFraction(value: string, start: nat, count: nat) returns (nanos: LuaInt)
    requires 1 <= count <= 9 && start + count <= |value| && IsDigits(value[start..start + count])
    ensures nanos == Value(value[start..start + count]) * Pow10(9 - count) < NANOS_PER_SECOND
  {
    var digits := ParseDigits(value, start, count);
    nanos := digits.value;
    assert Pow10(0) == 1;
    for k := count to 9
      invariant nanos == Value(value[start..start + count]) * Pow10(k - count)
      invariant 0 <= nanos < Pow10(k) <= NANOS_PER_SECOND
    {
      TimesTen(Value(value[start..start + count]), Pow10(k - count));
      Pow10Monotone(k + 1, 9);
      assert Pow10(9) == NANOS_PER_SECOND;
      nanos := nanos * 10;
    }
  }

  method ParseFraction(value: string) returns (parsed: Option<(LuaInt, nat)>, ghost f: Fraction)
    requires |value| >= 20
    ensures parsed.Some? ==> parsed.value.1 <= |value| && ValidFraction(f) && FractionAt(value, f, parsed.value.1)
    ensures parsed.Some? ==> parsed.value.0 == FractionNanos(f) < NANOS_PER_SECOND
    ensures parsed.None? ==> forall g, z | ValidFraction(g) && ValidZone(z) ::
              value[19..] != RenderFraction(g) + RenderZone(z)
  {
    hide Value, RenderZone;
    var position := 19;
    var nanos: LuaInt := 0;
    f := NoFraction;
    if value[19] == '.' || value[19] == ',' {
      position := position + 1;
      var fractionStart := position;
      while position < |value| && IsDigit(value[position])
        invariant fractionStart <= position <= |value|
        invariant IsDigits(value[fractionStart..position])
      {
        assert value[fractionStart..position + 1] == value[fractionStart..position] + [value[position]];
        position := position + 1;
      }
      var fractionDigits := position - fractionStart;
      f := Fraction(value[19], value[fractionStart..position]);
      MaximalRun(value, position);
      if fractionDigits < 1 || fractionDigits > 9 {
        return None, f;
      }
      nanos := ScaledFraction(value, fractionStart, fractionDigits);
      assert value[19..position] == [value[19]] + value[fractionStart..position];
    }
    return Some((nanos, position)), f;
  }

  /** Whatever fraction a text with a marker at column 19 has, its digits are the whole run. */
  lemma MaximalRun(value: string, position: nat)
    requires 20 <= position <= |value| && (value[19] == '.' || value[19] == ',')
    requires IsDigits(value[20..position]) && (position < |value| ==> !IsDigit(value[position]))
    ensures forall g, z | ValidFraction(g) && ValidZone(z) && value[19..] == RenderFraction(g) + RenderZone(z) ::
              g == Fraction(value[19], value[20..position])
  {
    forall g, z | ValidFraction(g) && ValidZone(z) && value[19..] == RenderFraction(g) + RenderZone(z)
      ensures g == Fraction(value[19], value[20..position])
    {
      FractionRun(value, position, g, RenderZone(z));
    }
  }

  lemma FractionRun(value: string, position: nat, g: Fraction, zone: string)
    requires 20 <= position <= |value| && (value[19] == '.' || value[19] == ',')
    requires IsDigits(value[20..position]) && (position < |value| ==> !IsDigit(value[position]))
    requires ValidFraction(g) && zone != "" && !IsDigit(zone[0]) && zone[0] != '.' && zone[0] != ','
    requires value[19..] == RenderFraction(g) + zone
    ensures g == Fraction(value[19], value[20..position])
  {
    var t := value[19..];
    assert t[0] == value[19];
    assert t == zone || t[0] == g.marker;
    var n := |g.digits|;
    assert t == [g.marker] + g.digits + zone;
    assert t[1..1 + n] == g.digits;
    assert value[20..20 + n] == t[1..1 + n];
    assert t[1 + n] == zone[0];
    assert value[20 + n] == t[1 + n];
    SameRun(value, 20, 20 + n, position);
  }

  /** Two digit runs from one place that both end at a non-digit end at the same place. */
  lemma SameRun(value: string, start: nat, i: nat, j: nat)
    requires start <= i <= |value| && IsDigits(value[start..i]) && (i < |value| ==> !IsDigit(value[i]))
    requires start <= j <= |value| && IsDigits(value[start..j]) && (j < |value| ==> !IsDigit(value[j]))
    ensures i == j
  {
    assert forall k | start <= k < i :: value[k] == value[start..i][k - start];
    assert forall k | start <= k < j :: value[k] == value[start..j][k - start];
  }

  /** A numeric offset fills the text from `position` to its end. */
  predicate OffsetShape(value: string, position: nat) {
    && position + 6 == |value| && (value[position] == '+' || value[position] == '-') && value[position + 3] == ':'
    && IsDigits(value[position + 1..position + 3]) && IsDigits(value[position + 4..position + 6])
  }

  function OffsetFields(value: string, position: nat): Zone
    requires OffsetShape(value, position)
  {
    Offset(value[position] == '-', Value(value[position + 1..position + 3]), Value(value[position + 4..position + 6]))
  }

  ghost predicate ZoneAt(value: string, position: nat, z: Zone) {
    ValidZone(z) && position <= |value| && value[position..] == RenderZone(z)
  }

  lemma ZoneColumns(value: string, position: nat, z: Zone)
    requires ValidZone(z) && position <= |value|
    ensures ZoneAt(value, position, z) <==>
            if z.Zulu? then position + 1 == |value| && value[position] == 'Z'
            else OffsetShape(value, position) && OffsetFields(value, position) == z
  {
    hide Value, FixedWidth;
    if z.Offset? && position + 6 == |value| {
      TwoIs(value[position + 1..position + 3], z.hours);
      TwoIs(value[position + 4..position + 6], z.minutes);
      OffsetParts(value, position, if z.negative then '-' else '+', Two(z.hours), Two(z.minutes));
    }
  }

  lemma OffsetParts(value: string, position: nat, sign: char, hours: string, minutes: string)
    requires position + 6 == |value| && |hours| == |minutes| == 2
    ensures value[position..] == [sign] + hours + ":" + minutes <==>
            && value[position] == sign && value[position + 1..position + 3] == hours
            && value[position + 3] == ':' && value[position + 4..position + 6] == minutes
  {
    var u, t := value[position..], [sign] + hours + ":" + minutes;
    assert u == [value[position]] + value[position + 1..position + 3] + [value[position + 3]] +
        value[position + 4..position + 6];
    assert t[0] == sign && t[1..3] == hours && t[3] == ':' && t[4..6] == minutes;
    assert u[0] == value[position] && u[1..3] == value[position + 1..position + 3];
    assert u[3] == value[position + 3] && u[4..6] == value[position + 4..position + 6];
  }

  /** The zone from `position` to the end of the text. */
  method ParseZone(value: string, position: nat) returns (offsetSeconds: Option<LuaInt>, ghost z: Zone)
    requires position <= |value|
    ensures offsetSeconds.Some? ==>
              ValidZone(z) && ZoneAt(value, position, z) && offsetSeconds.value == OffsetSeconds(z)
    ensures offsetSeconds.None? ==> forall y | ValidZone(y) :: !ZoneAt(value, position, y)
  {
    z := Zulu;
    forall y | ValidZone(y)
      ensures ZoneAt(value, position, y) <==>
              if y.Zulu? then position + 1 == |value| && value[position] == 'Z'
              else OffsetShape(value, position) && OffsetFields(value, position) == y
    {
      ZoneColumns(value, position, y);
    }
    if position < |value| && value[position] == 'Z' {
      if position + 1 != |value| {
        return None, z;
      }
      return Some(0), z;
    } else if position < |value| && (value[position] == '+' || value[position] == '-') {
      if position + 6 != |value| || value[position + 3] != ':' {
        return None, z;
      }
      var offsetHour := ParseDigits(value, position + 1, 2);
      var offsetMinute := ParseDigits(value, position + 4, 2);
      if offsetHour.None? || offsetMinute.None? || offsetHour.value > 23 || offsetMinute.value > 59 {
        return None, z;
      }
      z := OffsetFields(value, position);
      var seconds: LuaInt := offsetHour.value * 3600 + offsetMinute.value * 60;
      if value[position] == '-' {
        seconds := -seconds;
      }
      return Some(seconds), z;
    } else {
      return None, z;
    }
  }

  /** Seconds since 1970 of a clock reading at an offset, by the script's closed form. */
  method CivilSeconds(c: Clock, offsetSeconds: LuaInt) returns (seconds: LuaInt)
    requires ValidClock(c) && -86400 < offsetSeconds < 86400
    ensures seconds == DayNumber(c.date) * 86400 + c.hour * 3600 + c.minute * 60 + c.second - offsetSeconds
  {
    hide DaysBeforeYear, DaysBeforeMonth;
    var adjustedYear: LuaInt := c.date.year;
    if c.date.month <= 2 {
      adjustedYear := adjustedYear - 1;
    }
    var era: LuaInt := adjustedYear / 400;
    var yearOfEra: LuaInt := adjustedYear - era * 400;
    var monthOfYear: LuaInt;
    if c.date.month > 2 {
      monthOfYear := c.date.month - 3;
    } else {
      monthOfYear := c.date.month + 9;
    }
    var dayOfYear: LuaInt := (153 * monthOfYear + 2) / 5 + c.date.day - 1;
    var dayOfEra: LuaInt := yearOfEra * 365 + yearOfEra / 4 - yearOfEra / 100 + dayOfYear;
    var days: LuaInt := era * 146097 + dayOfEra - 719468;
    EraFormIsDayNumber(c.date);
    assert -1_000_000 < days < 10_000_000;
    seconds := days * 86400 + c.hour * 3600 + c.minute * 60 + c.second - offsetSeconds;
  }

  method SignedMagnitude(negative: bool, magnitude: string) returns (text: string)
    requires Canonical(magnitude)
    ensures text == OfInt(if negative then -(Value(magnitude) as int) else Value(magnitude))
  {
    OfNatUnique(magnitude);
    if negative {
      if magnitude == "0" {
        ValueSingle('0');
        return "0";
      }
      ZeroIsPrintedZero(magnitude);
      return "-" + magnitude;
    }
    return magnitude;
  }

  /** Seconds and a fraction in one decimal text, borrowing from the seconds before 1970. */
  method NanosText(seconds: LuaInt, nanos: LuaInt) returns (text: string)
    requires 0 <= nanos < NANOS_PER_SECOND
    ensures text == OfInt(seconds * NANOS_PER_SECOND + nanos)
  {
    var negative := seconds < 0;
    var absoluteSeconds: LuaInt := if seconds < 0 then -seconds else seconds;
    var secondsText := IntegerString(absoluteSeconds);
    var magnitude := MultiplyUnsignedByInteger(secondsText, 1_000_000_000);
    if negative {
      if nanos > 0 {
        var nanosText := IntegerString(nanos);
        magnitude := SubtractUnsigned(magnitude, nanosText);
      }
      text := SignedMagnitude(true, magnitude);
      return;
    }
    var nanosText := IntegerString(nanos);
    magnitude := AddUnsigned(magnitude, nanosText);
    text := SignedMagnitude(false, magnitude);
  }

  /** The instant a Lua value denotes as a timestamp text, if it denotes one. */
  ghost function NanosOf(value: LuaValue): Option<int> {
    if value.Text? && exists st :: Denotes(value.text, st) then
      var st :| Denotes(value.text, st);
      Some(Instant(st))
    else
      None
  }

  /** The script's timestamp parser accepts exactly the texts of valid stamps and returns the
      canonical decimal of the instant the text denotes. */
  method TimestampUnixNano(value: LuaValue) returns (nanos: Option<string>)
    ensures nanos.Some? <==> value.Text? && exists st :: Denotes(value.text, st)
    ensures value.Text? ==> forall st | Denotes(value.text, st) :: nanos == Some(OfInt(Instant(st)))
  {
    hide Denotes, ClockShape, ClockFields, FractionAt, ZoneAt, Value, OfInt, Instant;
    if value.Text? && |value.text| < 20 {
      TooShort(value.text);
    }
    if !value.Text? || |value.text| < 20 {
      return None;
    }
    var text := value.text;
    var clock := ParseClock(text);
    if clock.None? {
      NoClock(text);
      return None;
    }
    var fraction;
    ghost var f;
    fraction, f := ParseFraction(text);
    if fraction.None? {
      NoFractionReading(text);
      return None;
    }
    var (fractionNanos, position) := fraction.value;
    var offsetSeconds;
    ghost var z;
    offsetSeconds, z := ParseZone(text, position);
    if offsetSeconds.None? {
      NoZone(text, f, position);
      return None;
    }
    ghost var stamp := Stamp(clock.value, f, z);
    OneReading(text, position, stamp);
    var seconds := CivilSeconds(clock.value, offsetSeconds.value);
    var digits := NanosText(seconds, fractionNanos);
    InstantOfParts(stamp, seconds, fractionNanos);
    return Some(digits);
  }

  lemma InstantOfParts(st: Stamp, seconds: int, nanos: int)
    requires ValidStamp(st) && nanos == FractionNanos(st.fraction) && seconds == UnixSeconds(st.clock, st.zone)
    ensures Instant(st) == seconds * NANOS_PER_SECOND + nanos
  {
  }

  lemma TooShort(text: string)
    requires |text| < 20
    ensures forall st :: !Denotes(text, st)
  {
    forall st | ValidStamp(st)
      ensures |Render(st)| >= 20
    {
      assert |RenderZone(st.zone)| >= 1;
    }
  }

  lemma DenotedParts(text: string, st: Stamp)
    requires |text| >= 20 && Denotes(text, st)
    ensures ClockShape(text) && ClockFields(text) == st.clock
    ensures text[19..] == RenderFraction(st.fraction) + RenderZone(st.zone)
  {
    var rest := RenderFraction(st.fraction) + RenderZone(st.zone);
    assert text == RenderClock(st.clock) + rest;
    assert text[..19] == RenderClock(st.clock);
    ClockColumns(text, st.clock);
  }

  lemma NoClock(text: string)
    requires |text| >= 20 && !(ClockShape(text) && ValidClock(ClockFields(text)))
    ensures forall st :: !Denotes(text, st)
  {
    forall st | Denotes(text, st)
      ensures false
    {
      DenotedParts(text, st);
    }
  }

  lemma NoFractionReading(text: string)
    requires |text| >= 20
    requires forall g, z | ValidFraction(g) && ValidZone(z) :: text[19..] != RenderFraction(g) + RenderZone(z)
    ensures forall st :: !Denotes(text, st)
  {
    forall st | Denotes(text, st)
      ensures false
    {
      DenotedParts(text, st);
    }
  }

  lemma NoZone(text: string, f: Fraction, position: nat)
    requires |text| >= 20 && FractionAt(text, f, position)
    requires forall y | ValidZone(y) :: !ZoneAt(text, position, y)
    ensures forall st :: !Denotes(text, st)
  {
    forall st | Denotes(text, st)
      ensures false
    {
      DenotedParts(text, st);
      FractionUnique(text, f, position, st.fraction, st.zone);
      assert ZoneAt(text, position, st.zone);
    }
  }

  /** The parts found denote a stamp, and the text denotes no other. */
  lemma OneReading(text: string, position: nat, stamp: Stamp)
    requires |text| >= 20 && ValidStamp(stamp) && ClockShape(text) && ClockFields(text) == stamp.clock
    requires FractionAt(text, stamp.fraction, position) && ZoneAt(text, position, stamp.zone)
    ensures Denotes(text, stamp)
    ensures forall st | Denotes(text, st) :: st == stamp
  {
    PartsDenote(text, position, stamp);
    forall st | Denotes(text, st)
      ensures st == stamp
    {
      DenotedParts(text, st);
      FractionUnique(text, stamp.fraction, position, st.fraction, st.zone);
      ZoneUnique(st.zone, stamp.zone);
    }
  }

  lemma PartsDenote(text: string, position: nat, st: Stamp)
    requires |text| >= 20 && ValidStamp(st) && ClockShape(text) && ClockFields(text) == st.clock
    requires FractionAt(text, st.fraction, position) && ZoneAt(text, position, st.zone)
    ensures Denotes(text, st)
  {
    ClockColumns(text, st.clock);
    assert text == text[..19] + text[19..position] + text[position..];
  }

  lemma FractionUnique(value: string, f: Fraction, position: nat, g: Fraction, z: Zone)
    requires |value| >= 20 && FractionAt(value, f, position)
    requires ValidFraction(g) && ValidZone(z) && value[19..] == RenderFraction(g) + RenderZone(z)
    ensures g == f && value[position..] == RenderZone(z)
  {
    hide Value, FixedWidth, Two;
    var zone := RenderZone(z);
    assert !IsDigit(zone[0]) && zone[0] != '.' && zone[0] != ',';
    SplitAt(value, f, position, g, zone);
  }

  lemma SplitAt(value: string, f: Fraction, position: nat, g: Fraction, zone: string)
    requires |value| >= 20 && FractionAt(value, f, position) && ValidFraction(g)
    requires zone != "" && !IsDigit(zone[0]) && zone[0] != '.' && zone[0] != ','
    requires value[19..] == RenderFraction(g) + zone
    ensures g == f && value[position..] == zone
  {
    hide *;
    FractionColumns(value, f, position);
    MarkerFirst(g, zone);
    assert value[19..][0] == value[19];
    if f.Fraction? {
      FractionRun(value, position, g, zone);
    }
    SplitRest(value, f, position, g, zone);
  }

  lemma FractionColumns(value: string, f: Fraction, position: nat)
    requires |value| >= 20 && FractionAt(value, f, position)
    ensures 19 <= position <= |value|
    ensures match f
            case NoFraction => position == 19 && value[19] != '.' && value[19] != ','
            case Fraction(marker, digits) =>
              && position >= 20 && value[19] == marker && (marker == '.' || marker == ',') &&
                  value[20..position] == digits
              && IsDigits(value[20..position]) && (position < |value| ==> !IsDigit(value[position]))
  {
    hide IsDigits;
    if f.Fraction? {
      var s := value[19..position];
      assert s[0] == value[19] && s[1..] == value[20..position];
    }
  }

  lemma SplitRest(value: string, f: Fraction, position: nat, g: Fraction, zone: string)
    requires |value| >= 20 && 19 <= position <= |value| && value[19..] == RenderFraction(g) + zone && ValidFraction(g)
    requires (match f
              case NoFraction => position == 19 && value[19] != '.' && value[19] != ','
              case Fraction(marker, digits) => position >= 20 && g == Fraction(value[19], value[20..position]) == f)
    requires g.Fraction? ==> value[19] == g.marker
    ensures g == f && value[position..] == zone
  {
    hide IsDigits;
    assert position == 19 + |RenderFraction(g)|;
    assert value[19..][|RenderFraction(g)|..] == value[position..];
    assert value[19..][|RenderFraction(g)|..] == zone;
  }

  lemma MarkerFirst(g: Fraction, zone: string)
    requires zone != ""
    ensures (RenderFraction(g) + zone)[0] == if g.Fraction? then g.marker else zone[0]
  {
  }

  lemma ZoneUnique(y: Zone, z: Zone)
    requires ValidZone(y) && ValidZone(z) && RenderZone(y) == RenderZone(z)
    ensures y == z
  {
    var s := RenderZone(y);
    assert s[0..] == s;
    ZoneColumns(s, 0, y);
    ZoneColumns(s, 0, z);
  }

  /** A text denotes at most one stamp. */
  lemma RenderInjective(text: string, a: Stamp, b: Stamp)
    requires Denotes(text, a) && Denotes(text, b)
    ensures a == b
  {
    assert |text| >= 20 by {
      if |text| < 20 {
        TooShort(text);
      }
    }
    DenotedParts(text, a);
    var position := 19 + |RenderFraction(a.fraction)|;
    var rest := RenderFraction(a.fraction) + RenderZone(a.zone);
    assert rest[position - 19] == RenderZone(a.zone)[0] == text[position];
    assert text[19..position] == text[19..][..position - 19] == RenderFraction(a.fraction);
    assert text[position..] == text[19..][position - 19..] == RenderZone(a.zone);
    if a.fraction.NoFraction? {
      assert text[19] == rest[0];
    }
    OneReading(text, position, a);
  }

  lemma NanosOfDenoted(text: string, st: Stamp)
    requires Denotes(text, st)
    ensures NanosOf(Text(text)) == Some(Instant(st))
  {
    var other :| Denotes(text, other) && NanosOf(Text(text)) == Some(Instant(other));
    RenderInjective(text, st, other);
  }
}
