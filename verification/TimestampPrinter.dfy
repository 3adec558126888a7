/** The Go side's timestamp printer: RFC 3339 (section 5.6) with the fraction's trailing zeros
    dropped, and the round trip through the script's parser. */
module TimestampPrinter {
  import opened Decimal
  import opened LuaDecimal
  import opened Calendar
  import opened Rfc3339

  /** Zone offsets are whole minutes, less than a day either way. */
  predicate ValidOffset(minutes: int) {
    -1440 < minutes < 1440
  }

  function ZoneOf(offsetMinutes: int): Zone
    requires ValidOffset(offsetMinutes)
  {
    if offsetMinutes == 0 then Zulu
    else if offsetMinutes < 0 then Offset(true, -offsetMinutes / 60, -offsetMinutes % 60)
    else Offset(false, offsetMinutes / 60, offsetMinutes % 60)
  }

  function FractionOf(nanos: nat): (f: Fraction)
    requires nanos < NANOS_PER_SECOND
  {
    assert Pow10(9) == NANOS_PER_SECOND;
    var digits := TrimTrailingZeros(FixedWidth(9, nanos));
    if digits == "" then NoFraction else Fraction('.', digits)
  }

  /** The wall-clock fields of an instant at an offset from UTC. */
  function StampOf(instant: int, offsetMinutes: int): Stamp
    requires ValidOffset(offsetMinutes)
  {
    var seconds := instant / NANOS_PER_SECOND + offsetMinutes * 60;
    var secondOfDay := seconds % 86400;
    Stamp(Clock(DateOf(seconds / 86400), secondOfDay / 3600, secondOfDay / 60 % 60, secondOfDay % 60),
          FractionOf(instant % NANOS_PER_SECOND),
          ZoneOf(offsetMinutes))
  }

  lemma FractionRoundTrip(nanos: nat)
    requires nanos < NANOS_PER_SECOND
    ensures ValidFraction(FractionOf(nanos)) && FractionNanos(FractionOf(nanos)) == nanos
  {
    assert Pow10(9) == NANOS_PER_SECOND;
    TrimKeeps(FixedWidth(9, nanos));
  }

  lemma ZoneRoundTrip(offsetMinutes: int)
    requires ValidOffset(offsetMinutes)
    ensures ValidZone(ZoneOf(offsetMinutes)) && OffsetSeconds(ZoneOf(offsetMinutes)) == offsetMinutes * 60
  {
  }

  /** A known timestamp names a known instant, at any offset. */
  lemma KnownInstants(st: Stamp)
    requires st.clock == Clock(Date(2023, 11, 14), 22, 13, 20) && st.fraction == Fraction('.', "5")
    requires ValidStamp(st)
    ensures st.zone == Zulu ==> Instant(st) == 1_700_000_000_500_000_000
    ensures st.zone == Offset(false, 5, 30) ==> Instant(st) == 1_699_980_200_500_000_000
    ensures st.zone == Offset(true, 5, 30) ==> Instant(st) == 1_700_019_800_500_000_000
  {
    KnownSeconds(st.clock, st.zone);
    HalfSecond(st.fraction);
    hide UnixSeconds, FractionNanos;
  }

  lemma KnownSeconds(c: Clock, z: Zone)
    requires c == Clock(Date(2023, 11, 14), 22, 13, 20)
    ensures z == Zulu ==> UnixSeconds(c, z) == 1_700_000_000
    ensures z == Offset(false, 5, 30) ==> UnixSeconds(c, z) == 1_699_980_200
    ensures z == Offset(true, 5, 30) ==> UnixSeconds(c, z) == 1_700_019_800
  {
    KnownDay(c.date);
    hide DayNumber;
  }

  lemma KnownDay(d: Date)
    requires d == Date(2023, 11, 14)
    ensures DayNumber(d) == 19675
  {
    EraFormIsDayNumber(d);
    hide DayNumber, ValidDate;
    assert 2023 / 400 == 5 && 23 / 4 == 5 && (153 * 8 + 2) / 5 == 245;
  }

  lemma HalfSecond(f: Fraction)
    requires f == Fraction('.', "5")
    ensures ValidFraction(f) && FractionNanos(f) == 500_000_000
  {
    assert "5"[..0] == "";
    assert Value("5") == 5 && Pow10(8) == 100_000_000;
  }

  /** And this is how such a timestamp is written. */
  lemma KnownDate(d: Date)
    requires d == Date(2023, 11, 14)
    ensures RenderDate(d) == "2023" + "-" + "11" + "-" + "14"
  {
    TwoIs(11, "11");
    TwoIs(14, "14");
    TenThousand();
    FixedIs(2023, "2023");
    hide FixedWidth, Two, Pow10;
  }

  lemma TenThousand()
    ensures Pow10(4) == 10000
  {
  }

  lemma KnownTime()
    ensures RenderTime(22, 13, 20) == "22" + ":" + "13" + ":" + "20"
  {
    TwoIs(22, "22");
    TwoIs(13, "13");
    TwoIs(20, "20");
    hide Two;
  }

  lemma KnownZone()
    ensures RenderZone(Offset(false, 5, 30)) == "+" + "05" + ":" + "30" && RenderZone(Zulu) == "Z"
    ensures RenderFraction(Fraction('.', "5")) == ".5" && RenderFraction(NoFraction) == ""
  {
    TwoIs(5, "05");
    TwoIs(30, "30");
    hide Two;
  }

  lemma TwoIs(n: nat, s: string)
    requires n <= 99 && |s| == 2 && IsDigit(s[0]) && IsDigit(s[1])
    requires n == DigitValue(s[0]) * 10 + DigitValue(s[1])
    ensures Two(n) == s
  {
    assert s[..1][..0] == "" && s[..1][0] == s[0];
    assert Value(s[..1]) == DigitValue(s[0]);
    assert Value(s) == n;
    FixedWidthUnique(s);
  }

  lemma FixedIs(n: nat, s: string)
    requires |s| == 4 && IsDigits(s) && Pow10(4) == 10000
    requires n == DigitValue(s[0]) * 1000 + DigitValue(s[1]) * 100 + DigitValue(s[2]) * 10 + DigitValue(s[3])
    ensures n < 10000 && FixedWidth(4, n) == s
  {
    assert s[..3][..2] == s[..2] && s[..2][..1] == s[..1] && s[..1][..0] == "";
    assert Value(s[..1]) == DigitValue(s[0]);
    assert Value(s[..2]) == Value(s[..1]) * 10 + DigitValue(s[1]);
    assert Value(s[..3]) == Value(s[..2]) * 10 + DigitValue(s[2]);
    assert Value(s) == n;
    FixedWidthUnique(s);
  }

  /** Every int64 instant falls, at any offset, in the years 1677 to 2262. */
  lemma Int64Years(instant: int, offsetMinutes: int)
    requires IsInt64(instant) && ValidOffset(offsetMinutes)
    ensures var seconds := instant / NANOS_PER_SECOND + offsetMinutes * 60;
            1677 <= DateOf(seconds / 86400).year <= 2262
  {
    var days := (instant / NANOS_PER_SECOND + offsetMinutes * 60) / 86400;
    YearsClosed(1677);
    YearsClosed(2263);
    DateWithin(days, 1677, 2262);
  }

  /** Printing an instant names that instant. */
  lemma StampRoundTrip(instant: int, offsetMinutes: int)
    requires IsInt64(instant) && ValidOffset(offsetMinutes)
    ensures ValidStamp(StampOf(instant, offsetMinutes)) && Instant(StampOf(instant, offsetMinutes)) == instant
  {
    hide DateOf, FractionOf, ZoneOf, FractionNanos, OffsetSeconds, DaysBeforeYear, DaysBeforeMonth;
    Int64Years(instant, offsetMinutes);
    ZoneRoundTrip(offsetMinutes);
    FractionRoundTrip(instant % NANOS_PER_SECOND);
    var seconds := instant / NANOS_PER_SECOND + offsetMinutes * 60;
    ClockRoundTrip(seconds);
  }

  lemma ClockRoundTrip(seconds: int)
    ensures var s := seconds % 86400;
            seconds / 86400 * 86400 + s / 3600 * 3600 + s / 60 % 60 * 60 + s % 60 == seconds
    ensures var s := seconds % 86400;
            0 <= s / 3600 <= 23 && 0 <= s / 60 % 60 <= 59 && 0 <= s % 60 <= 59
  {
    var s := seconds % 86400;
    assert s / 3600 == s / 60 / 60;
  }

  /** The printed form of an instant at an offset. */
  function Format(instant: int, offsetMinutes: int): string
    requires IsInt64(instant) && ValidOffset(offsetMinutes)
  {
    StampRoundTrip(instant, offsetMinutes);
    Render(StampOf(instant, offsetMinutes))
  }

  /** Printing an int64 instant at any offset and parsing the text gives the instant back. */
  lemma FormatRoundTrip(instant: int, offsetMinutes: int)
    requires IsInt64(instant) && ValidOffset(offsetMinutes)
    ensures NanosOf(Text(Format(instant, offsetMinutes))) == Some(instant)
  {
    StampRoundTrip(instant, offsetMinutes);
    NanosOfDenoted(Format(instant, offsetMinutes), StampOf(instant, offsetMinutes));
  }
}
