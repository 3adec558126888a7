/** The Go side's reading of a stored envelope, against the script's. */
module MarketReader {
  import opened Decimal
  import opened LuaDecimal
  import opened Calendar
  import opened Rfc3339
  import opened TimestampPrinter
  import opened CasRegister
  import MarketKey

  /** What the JSON library makes of a timestamp text and of the fields that hold market data. */
  datatype Library = Library(time: string -> Option<int>, market: map<string, LuaValue> -> bool) {
    /** It reads every timestamp whose fraction is marked by a point, and takes back the market
        fields of every record it wrote. */
    ghost predicate Lawful() {
      && (forall text, st | Denotes(text, st) && Pointed(st) :: time(text) == Some(Instant(st)))
      && (forall r: Record :: market(r.market) ==> MarketPayload(r).Table? && market(MarketPayload(r).fields))
    }
  }

  /** A library that reads timestamps as the script does and accepts all market fields. */
  ghost function ScriptLibrary(): Library {
    Library(text => NanosOf(Text(text)), _ => true)
  }

  /** There are lawful libraries. */
  lemma ScriptLibraryIsLawful()
    ensures ScriptLibrary().Lawful()
  {
    forall text, st | Denotes(text, st)
      ensures NanosOf(Text(text)) == Some(Instant(st))
    {
      NanosOfDenoted(text, st);
    }
    hide NanosOf, Instant, Denotes, MarketPayload;
    forall r: Record
      ensures MarketPayload(r).Table?
    {
      PayloadIsTable(r);
    }
  }

  lemma PayloadIsTable(r: Record)
    ensures MarketPayload(r).Table?
  {
  }

  predicate Pointed(st: Stamp) {
    st.fraction.Fraction? ==> st.fraction.marker == '.'
  }

  /** Midnight of 1 January of year 1, the library's zero time. */
  const ZERO_TIME: int := -62_135_596_800 * NANOS_PER_SECOND

  /** A text field; an absent one reads as empty. */
  function TextField(value: LuaValue): Option<string> {
    match value case Text(t) => Some(t) case Nil => Some("") case _ => None
  }

  /** The identifier is a non-empty slug, or a number whose literal is that of a positive int64:
      the library takes no fraction and no exponent for an integer field. */
  ghost predicate ReadableId(coinGecko: bool, fields: map<string, LuaValue>) {
    if coinGecko then NonEmptyText(Field(fields, "coingeckoID"))
    else Field(fields, "coinMarketCapID").Number? && IsIdLiteral(Field(fields, "coinMarketCapID").literal)
  }

  ghost predicate IsIdLiteral(literal: string) {
    exists n: int :: 0 < n && IsInt64(n) && literal == OfInt(n)
  }

  /** The script's decoder reads a positive integer literal as a positive number. */
  ghost predicate SignKept(value: LuaValue) {
    value.Number? && IsIdLiteral(value.literal) ==> value.value > 0.0
  }

  /** The fetch time of an envelope that reads as one for this key. */
  ghost function Decoded(lib: Library, coinGecko: bool, payload: Payload, chain: string, token: string): Option<int> {
    if !payload.Table? || !lib.market(payload.fields) then None
    else
      var fields := payload.fields;
      var at, unixNano := Field(fields, "fetchedAt"), Field(fields, "fetchedAtUnixNano");
      if TextField(Field(fields, "chain")) != Some(chain) || TextField(Field(fields, "tokenKey")) != Some(token) then
          None
      else if !ReadableId(coinGecko, fields) || !at.Text? || lib.time(at.text).None? then None
      else if lib.time(at.text).value == ZERO_TIME ||
          !IsCanonical(unixNano, MarketKey.Wrap64(lib.time(at.text).value)) then None
      else lib.time(at.text)
  }

  /** The zero time is the midnight that begins year 1. */
  lemma ZeroTimeIs(st: Stamp)
    requires st == Stamp(Clock(Date(1, 1, 1), 0, 0, 0), NoFraction, Zulu)
    ensures ValidStamp(st) && Instant(st) == ZERO_TIME
  {
    EraFormIsDayNumber(st.clock.date);
    hide DayNumber;
  }

  /** A text field that reads as a text: it is that text, or absent and the text empty. */
  predicate ReadsText(fields: map<string, LuaValue>, name: string, text: string) {
    if name in fields && fields[name] != Nil then fields[name] == Text(text) else text == ""
  }

  /** All it takes for an envelope to read, in the payload's own terms. */
  lemma DecodedInFull(lib: Library, coinGecko: bool, fields: map<string, LuaValue>, chain: string, token: string,
                      v: int)
    ensures Decoded(lib, coinGecko, Table(fields), chain, token) == Some(v) <==>
              && lib.market(fields) && ReadsText(fields, "chain", chain) && ReadsText(fields, "tokenKey", token)
              && (if coinGecko then "coingeckoID" in fields && fields["coingeckoID"].Text?
                                    && fields["coingeckoID"].text != ""
                  else "coinMarketCapID" in fields && fields["coinMarketCapID"].Number?
                       && IsIdLiteral(fields["coinMarketCapID"].literal))
              && "fetchedAt" in fields && fields["fetchedAt"].Text? && lib.time(fields["fetchedAt"].text) == Some(v)
              && v != ZERO_TIME
              && "fetchedAtUnixNano" in fields && fields["fetchedAtUnixNano"] == Text(OfInt(MarketKey.Wrap64(v)))
  {
    FieldReads(fields, "chain", chain);
    FieldReads(fields, "tokenKey", token);
    FieldNamed(fields, "coingeckoID");
    FieldNamed(fields, "coinMarketCapID");
    FieldNamed(fields, "fetchedAt");
    FieldNamed(fields, "fetchedAtUnixNano");
    hide Field, TextField, ReadsText, IsIdLiteral, OfInt, MarketKey.Wrap64;
  }

  lemma FieldReads(fields: map<string, LuaValue>, name: string, text: string)
    ensures TextField(Field(fields, name)) == Some(text) <==> ReadsText(fields, name, text)
  {
  }

  predicate IsCanonical(value: LuaValue, n: int) {
    value == Text(OfInt(n))
  }

  /** An envelope the script takes as fetched at an instant reads as fetched at that instant if
      and only if the library takes its market fields and its identifier, and finds that instant
      in its timestamp. */
  lemma VersionIsRead(lib: Library, coinGecko: bool, payload: Payload, chain: string, token: string, v: int)
    requires Versioned(coinGecko, payload, chain, token, v)
    ensures var at := Field(payload.fields, "fetchedAt");
            at.Text? && (Decoded(lib, coinGecko, payload, chain, token) == Some(v) <==>
                         && lib.market(payload.fields) && ReadableId(coinGecko, payload.fields)
                         && lib.time(at.text) == Some(v))
  {
    hide *;
    EnvelopeFields(coinGecko, payload, chain, token, v);
    DecodedIs(lib, coinGecko, payload, chain, token);
    WrapIsExact(v);
  }

  lemma EnvelopeFields(coinGecko: bool, payload: Payload, chain: string, token: string, v: int)
    requires Versioned(coinGecko, payload, chain, token, v)
    ensures payload.Table? && IsInt64(v) && v != ZERO_TIME && Field(payload.fields, "fetchedAt").Text?
    ensures TextField(Field(payload.fields, "chain")) == Some(chain)
    ensures TextField(Field(payload.fields, "tokenKey")) == Some(token)
    ensures IsCanonical(Field(payload.fields, "fetchedAtUnixNano"), v)
  {
    hide OfInt, UsableId;
  }

  lemma WrapIsExact(v: int)
    ensures IsInt64(v) ==> MarketKey.Wrap64(v) == v
  {
  }

  lemma DecodedIs(lib: Library, coinGecko: bool, payload: Payload, chain: string, token: string)
    requires payload.Table? && Field(payload.fields, "fetchedAt").Text?
    requires TextField(Field(payload.fields, "chain")) == Some(chain)
    requires TextField(Field(payload.fields, "tokenKey")) == Some(token)
    ensures var time := lib.time(Field(payload.fields, "fetchedAt").text);
            Decoded(lib, coinGecko, payload, chain, token) ==
              if lib.market(payload.fields) && ReadableId(coinGecko, payload.fields) && time.Some? &&
                  time.value != ZERO_TIME
                 && IsCanonical(Field(payload.fields, "fetchedAtUnixNano"), MarketKey.Wrap64(time.value))
              then time else None
  {
    hide ReadableId, IsCanonical, MarketKey.Wrap64;
  }

  lemma TimeRead(lib: Library, text: string, st: Stamp)
    requires lib.Lawful() && Denotes(text, st) && Pointed(st)
    ensures lib.time(text) == Some(Instant(st))
  {
    hide Denotes, Instant, Pointed;
  }

  lemma VersionedAt(coinGecko: bool, payload: Payload, chain: string, token: string, v: int)
    requires Version(coinGecko, payload, chain, token) == Some(v)
    ensures Versioned(coinGecko, payload, chain, token, v)
  {
    hide Versioned;
  }

  /** What reads as an envelope of a named key is one to the script too, with the same instant,
      exactly when the script finds in its timestamp the int64 instant the library finds. */
  lemma ReadIsVersion(lib: Library, coinGecko: bool, payload: Payload, chain: string, token: string, v: int)
    requires chain != "" && token != "" && Decoded(lib, coinGecko, payload, chain, token) == Some(v)
    requires payload.Table? && SignKept(Field(payload.fields, "coinMarketCapID"))
    ensures Version(coinGecko, payload, chain, token) == Some(v)
            <==> IsInt64(v) && NanosOf(Field(payload.fields, "fetchedAt")) == Some(v)
  {
    hide NanosOf;
    if IsInt64(v) && NanosOf(Field(payload.fields, "fetchedAt")) == Some(v) {
      assert MarketKey.Wrap64(v) == v;
      assert Versioned(coinGecko, payload, chain, token, v);
    }
  }

  predicate InRange(r: Record) {
    r.id.Numeric? ==> IsInt64(r.id.number)
  }

  /** A usable record reads back with its own instant. */
  lemma WrittenIsRead(lib: Library, r: Record)
    requires lib.Lawful() && Usable(r) && InRange(r) && lib.market(r.market)
    ensures Decoded(lib, r.id.Slug?, MarketPayload(r), r.chain, r.tokenKey) == Some(r.fetchedAt)
  {
    PayloadVersion(r);
    hide *;
    var at := Format(r.fetchedAt, r.zone);
    PayloadIs(r);
    EnvelopeIsReadable(r, at);
    FormatDenotes(r);
    TimeRead(lib, at, StampOf(r.fetchedAt, r.zone));
    LawfulMarket(lib, r);
    VersionedAt(r.id.Slug?, MarketPayload(r), r.chain, r.tokenKey, r.fetchedAt);
    VersionIsRead(lib, r.id.Slug?, MarketPayload(r), r.chain, r.tokenKey, r.fetchedAt);
  }

  lemma LawfulMarket(lib: Library, r: Record)
    requires lib.Lawful() && lib.market(r.market)
    ensures MarketPayload(r).Table? && lib.market(MarketPayload(r).fields)
  {
    hide MarketPayload;
  }

  lemma EnvelopeIsReadable(r: Record, at: string)
    requires InRange(r) && Usable(r)
    ensures Envelope(r, at).Table? && Field(Envelope(r, at).fields, "fetchedAt") == Text(at)
    ensures ReadableId(r.id.Slug?, Envelope(r, at).fields)
  {
    hide OfInt;
    match r.id
    case Slug(s) =>
      assert Field(Envelope(r, at).fields, "coingeckoID") == Text(s);
    case Numeric(n) =>
      assert Field(Envelope(r, at).fields, "coinMarketCapID") == Number(n as real, OfInt(n));
      assert IsIdLiteral(OfInt(n));
  }

  ghost predicate Readable(lib: Library, e: Event) {
    e.Save? ==> Usable(e.write.record) && InRange(e.write.record) && lib.market(e.write.record.market)
  }

  /** After any run of usable saves and passing time on one key that started empty, whatever the
      register holds is what the Go side reads, with the instant the register compares by. */
  lemma {:induction false} HeldIsRead(lib: Library, coinGecko: bool, chain: string, token: string, s: State,
                                      run: seq<Event>)
    requires lib.Lawful() && OnKey(coinGecko, chain, token, run) && CellIn(coinGecko, chain, token, s).Empty?
    requires forall e | e in run :: Readable(lib, e)
    ensures var cell := CellIn(coinGecko, chain, token, After(s, run));
            cell.Holds? ==> Decoded(lib, coinGecko, cell.entry.payload, chain, token) == Some(cell.instant)
  {
    hide Version, MarketPayload, Decoded, Library.Lawful, Usable;
    if run != [] {
      var front, last := run[..|run| - 1], run[|run| - 1];
      assert last in run;
      HeldIsRead(lib, coinGecko, chain, token, s, front);
      if last.Save? {
        SaveIsRegisterStep(After(s, front).slot, last.write, After(s, front).now);
        WrittenIsRead(lib, last.write.record);
      }
    }
  }

  /** Where the two readings differ on an identifier: whatever positive number the script sees,
      the Go side reads the envelope exactly when the literal is that of a positive int64. */
  lemma LiteralDecides(lib: Library, r: Record, id: LuaValue)
    requires r.id.Numeric? && r.chain != "" && r.tokenKey != "" && id.Number? && id.value > 0.0 && lib.Lawful()
    ensures var payload := Table(MarketPayload(r).fields["coinMarketCapID" := id]);
            && Version(false, payload, r.chain, r.tokenKey) == Some(r.fetchedAt)
            && (Decoded(lib, false, payload, r.chain, r.tokenKey) == Some(r.fetchedAt) <==>
                lib.market(payload.fields) && IsIdLiteral(id.literal))
            && (!IsIdLiteral(id.literal) ==> Decoded(lib, false, payload, r.chain, r.tokenKey) == None)
  {
    hide *;
    FormatRoundTrip(r.fetchedAt, r.zone);
    FormatDenotes(r);
    var at := Format(r.fetchedAt, r.zone);
    TimeRead(lib, at, StampOf(r.fetchedAt, r.zone));
    PayloadIs(r);
    LiteralEnvelope(r, id, at);
    var payload := Table(Envelope(r, at).fields["coinMarketCapID" := id]);
    VersionIsRead(lib, false, payload, r.chain, r.tokenKey, r.fetchedAt);
    VersionIs(false, payload, r.chain, r.tokenKey, r.fetchedAt);
    UnreadableId(lib, false, payload, r.chain, r.tokenKey);
  }

  lemma FormatDenotes(r: Record)
    ensures Denotes(Format(r.fetchedAt, r.zone), StampOf(r.fetchedAt, r.zone)) && Pointed(StampOf(r.fetchedAt, r.zone))
    ensures Instant(StampOf(r.fetchedAt, r.zone)) == r.fetchedAt
  {
    StampRoundTrip(r.fetchedAt, r.zone);
    hide Render, ValidStamp, ZoneOf, OfInt, Instant;
  }

  lemma PayloadIs(r: Record)
    ensures MarketPayload(r) == Envelope(r, Format(r.fetchedAt, r.zone)) && MarketPayload(r).Table?
  {
    hide Format;
  }

  lemma LiteralEnvelope(r: Record, id: LuaValue, at: string)
    requires r.id.Numeric? && r.chain != "" && r.tokenKey != "" && id.Number? && id.value > 0.0
    requires NanosOf(Text(at)) == Some(r.fetchedAt)
    ensures Envelope(r, at).Table?
    ensures var payload := Table(Envelope(r, at).fields["coinMarketCapID" := id]);
            && Versioned(false, payload, r.chain, r.tokenKey, r.fetchedAt)
            && Field(payload.fields, "fetchedAt") == Text(at)
            && (ReadableId(false, payload.fields) <==> IsIdLiteral(id.literal))
  {
    hide NanosOf, OfInt, IsIdLiteral;
    var payload := Table(Envelope(r, at).fields["coinMarketCapID" := id]);
    assert Field(payload.fields, "fetchedAt") == Text(at) && Field(payload.fields, "coinMarketCapID") == id;
  }

  lemma UnreadableId(lib: Library, coinGecko: bool, payload: Payload, chain: string, token: string)
    ensures payload.Table? && !ReadableId(coinGecko, payload.fields) ==>
              Decoded(lib, coinGecko, payload, chain, token) == None
  {
    hide ReadableId;
  }

  /** Literals the script may read as a positive number and the Go side does not read: a fraction,
      a whole number with a fraction or an exponent, and the first whole number past int64. */
  lemma UnreadLiterals()
    ensures !IsIdLiteral("0.5") && !IsIdLiteral("1.0") && !IsIdLiteral("1e2") && !IsIdLiteral("9223372036854775808")
  {
    forall n: int
      ensures OfInt(n) != "0.5" && OfInt(n) != "1.0" && OfInt(n) != "1e2"
    {
      OfIntRoundTrip(n);
      assert !IsDigit("0.5"[1]) && !IsDigit("1.0"[1]) && !IsDigit("1e2"[1]);
    }
    forall n: int | IsInt64(n)
      ensures OfInt(n) != "9223372036854775808"
    {
      OfIntRoundTrip(n);
      PastInt64();
    }
  }

  lemma PastInt64()
    ensures IntValue("9223372036854775808") == -INT64_MIN
  {
    LimitValue();
    hide Value;
  }
}
