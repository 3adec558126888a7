/** The timestamp compare-and-set script over one Redis, and the register it implements. */
module CasRegister {
  import opened Decimal
  import opened LuaDecimal
  import opened Rfc3339
  import opened TimestampPrinter
  import opened Texts

  /** What a stored string decodes to. */
  datatype Payload = Undecodable | Scalar | Table(fields: map<string, LuaValue>)

  datatype Entry = Entry(payload: Payload, expiresAt: int)

  /** A provider's identifier: a CoinGecko slug or a CoinMarketCap number. */
  datatype ProviderId = Slug(slug: string) | Numeric(number: int)

  /** One market record.  Its instant is in nanoseconds since 1970; `zone` is the offset in
      minutes its time value is printed at; `market` holds the fields the script never reads. */
  datatype RecordFields = Record(chain: string, tokenKey: string, id: ProviderId, fetchedAt: int, zone: int,
                                 market: map<string, LuaValue>)

  type Record = r: RecordFields | IsInt64(r.fetchedAt) && ValidOffset(r.zone)
    witness Record("", "", Numeric(0), 0, 0, map[])

  /** A record with the lifetime chosen for it, in nanoseconds. */
  datatype Write = Write(record: Record, ttl: int)

  function Field(fields: map<string, LuaValue>, name: string): LuaValue {
    if name in fields then fields[name] else Nil
  }

  predicate NonEmptyText(value: LuaValue) {
    value.Text? && value.text != ""
  }

  function IdField(id: ProviderId): string {
    if id.Slug? then "coingeckoID" else "coinMarketCapID"
  }

  /** A record's fields around the text of its fetch time. */
  function Envelope(r: Record, fetchedAt: string): Payload {
    Table(r.market[
            "chain" := Text(r.chain)][
            "tokenKey" := Text(r.tokenKey)][
            IdField(r.id) := match r.id case Slug(s) => Text(s) case Numeric(n) => Number(n as real, OfInt(n))][
            "fetchedAt" := Text(fetchedAt)][
            "fetchedAtUnixNano" := Text(OfInt(r.fetchedAt))])
  }

  /** The payload the Go side marshals for a record. */
  function MarketPayload(r: Record): Payload {
    Envelope(r, Format(r.fetchedAt, r.zone))
  }

  /** The provider's own validation, spliced into the shared script. */
  predicate UsableId(coinGecko: bool, fields: map<string, LuaValue>) {
    if coinGecko then NonEmptyText(Field(fields, "coingeckoID"))
    else Field(fields, "coinMarketCapID").Number? && Field(fields, "coinMarketCapID").value > 0.0
  }

  /** The payload is a well-formed envelope for this chain and token, fetched at `version`. */
  ghost predicate Versioned(coinGecko: bool, payload: Payload, chain: string, token: string, version: int) {
    && payload.Table?
    && chain != "" && token != ""
    && Field(payload.fields, "chain") == Text(chain) && Field(payload.fields, "tokenKey") == Text(token)
    && UsableId(coinGecko, payload.fields)
    && Stamped(payload.fields, version)
  }

  /** Both of the envelope's times name the same int64 instant. */
  ghost predicate Stamped(fields: map<string, LuaValue>, version: int) {
    && IsInt64(version)
    && Field(fields, "fetchedAtUnixNano") == Text(OfInt(version))
    && NanosOf(Field(fields, "fetchedAt")) == Some(version)
  }

  /** The instant an envelope was fetched at, or nothing when the payload is malformed. */
  ghost function Version(coinGecko: bool, payload: Payload, chain: string, token: string): Option<int> {
    if exists v :: Versioned(coinGecko, payload, chain, token, v) then
      var v :| Versioned(coinGecko, payload, chain, token, v);
      Some(v)
    else
      None
  }

  lemma VersionIs(coinGecko: bool, payload: Payload, chain: string, token: string, v: int)
    requires Versioned(coinGecko, payload, chain, token, v)
    ensures Version(coinGecko, payload, chain, token) == Some(v)
  {
  }

  lemma VersionText(coinGecko: bool, payload: Payload, chain: string, token: string)
    requires Version(coinGecko, payload, chain, token).Some?
    ensures payload.Table?
    ensures var text := Field(payload.fields, "fetchedAtUnixNano");
            IsDecimalText(text) && IntValue(text.text) == Version(coinGecko, payload, chain, token).value
  {
    hide NanosOf;
    OfIntRoundTrip(Version(coinGecko, payload, chain, token).value);
  }

  method RequiredPresent(required: seq<string>, fields: map<string, LuaValue>) returns (ok: bool)
    ensures ok <==> forall i | 0 <= i < |required| :: NonEmptyText(Field(fields, required[i]))
  {
    for i := 0 to |required|
      invariant forall k | 0 <= k < i :: NonEmptyText(Field(fields, required[k]))
    {
      if !NonEmptyText(Field(fields, required[i])) {
        return false;
      }
    }
    return true;
  }

  method ProviderValidation(coinGecko: bool, fields: map<string, LuaValue>) returns (ok: bool)
    ensures ok <==> && UsableId(coinGecko, fields)
                    && NonEmptyText(Field(fields, "chain")) && NonEmptyText(Field(fields, "tokenKey"))
                    && NonEmptyText(Field(fields, "fetchedAt")) && NonEmptyText(Field(fields, "fetchedAtUnixNano"))
  {
    if coinGecko {
      var required := ["chain", "tokenKey", "coingeckoID", "fetchedAt", "fetchedAtUnixNano"];
      assert required[0] == "chain" && required[1] == "tokenKey" && required[2] == "coingeckoID" &&
             required[3] == "fetchedAt" && required[4] == "fetchedAtUnixNano";
      ok := RequiredPresent(required, fields);
    } else {
      var id := Field(fields, "coinMarketCapID");
      if !id.Number? || id.value <= 0.0 {
        return false;
      }
      var required := ["chain", "tokenKey", "fetchedAt", "fetchedAtUnixNano"];
      assert required[0] == "chain" && required[1] == "tokenKey" &&
             required[2] == "fetchedAt" && required[3] == "fetchedAtUnixNano";
      ok := RequiredPresent(required, fields);
    }
  }

  /** The script's envelope check accepts exactly the payloads that have a version. */
  method ValidEnvelope(coinGecko: bool, decoded: Payload, expectedChain: string, expectedToken: string)
    returns (ok: bool)
    ensures ok <==> Version(coinGecko, decoded, expectedChain, expectedToken).Some?
  {
    hide Stamped;
    if !decoded.Table? {
      return false;
    }
    var fields := decoded.fields;
    if Field(fields, "chain") != Text(expectedChain) || Field(fields, "tokenKey") != Text(expectedToken) {
      return false;
    }
    ok := ProviderValidation(coinGecko, fields);
    if !ok {
      NoTimes(fields);
      assert !exists v :: Versioned(coinGecko, decoded, expectedChain, expectedToken, v);
      return;
    }
    ok := TimesAgree(fields);
    if ok {
      ghost var v :| Stamped(fields, v);
      assert Versioned(coinGecko, decoded, expectedChain, expectedToken, v);
    }
  }

  method TimesAgree(fields: map<string, LuaValue>) returns (ok: bool)
    ensures ok <==> exists v :: Stamped(fields, v)
  {
    hide Denotes, Instant;
    var unixNano := Field(fields, "fetchedAtUnixNano");
    var fetchedAt := Field(fields, "fetchedAt");
    ok := CanonicalInt64(unixNano);
    if !ok {
      return;
    }
    var expectedVersion := TimestampUnixNano(fetchedAt);
    assert expectedVersion.Some? <==> NanosOf(fetchedAt).Some?;
    assert expectedVersion.Some? ==> expectedVersion.value == OfInt(NanosOf(fetchedAt).value);
    ok := expectedVersion.Some? && Text(expectedVersion.value) == unixNano;
    if ok {
      var n: int :| IsInt64(n) && unixNano.text == OfInt(n);
      OfIntInjective(n, NanosOf(fetchedAt).value);
      assert Stamped(fields, n);
    }
  }

  lemma NoTimes(fields: map<string, LuaValue>)
    ensures (exists v :: Stamped(fields, v)) ==>
              NonEmptyText(Field(fields, "fetchedAt")) && NonEmptyText(Field(fields, "fetchedAtUnixNano"))
  {
    EmptyIsNoTimestamp(Field(fields, "fetchedAt"));
  }

  lemma EmptyIsNoTimestamp(value: LuaValue)
    ensures NanosOf(value).Some? ==> NonEmptyText(value)
    ensures forall n: int :: OfInt(n) != ""
  {
    if value.Text? && |value.text| < 20 {
      TooShort(value.text);
    }
  }

  /** What a payload says, field by field: the envelope, and for the rest the record's market
      fields. */
  lemma PayloadFields(r: Record, name: string)
    ensures MarketPayload(r).Table?
    ensures var value := Field(MarketPayload(r).fields, name);
            if name == "fetchedAtUnixNano" then value == Text(OfInt(r.fetchedAt))
            else if name == "fetchedAt" then NanosOf(value) == Some(r.fetchedAt)
            else if name == "coingeckoID" && r.id.Slug? then value == Text(r.id.slug)
            else if name == "coinMarketCapID" && r.id.Numeric? then
              value == Number(r.id.number as real, OfInt(r.id.number))
            else if name == "tokenKey" then value == Text(r.tokenKey)
            else if name == "chain" then value == Text(r.chain)
            else value == if name in r.market then r.market[name] else Nil
  {
    FormatRoundTrip(r.fetchedAt, r.zone);
    hide NanosOf, Format, Field;
    var id := match r.id case Slug(s) => Text(s) case Numeric(n) => Number(n as real, OfInt(n));
    var a := r.market["chain" := Text(r.chain)];
    var b := a["tokenKey" := Text(r.tokenKey)];
    var c := b[IdField(r.id) := id];
    var d := c["fetchedAt" := Text(Format(r.fetchedAt, r.zone))];
    FieldUpdated(r.market, "chain", Text(r.chain), name);
    FieldUpdated(a, "tokenKey", Text(r.tokenKey), name);
    FieldUpdated(b, IdField(r.id), id, name);
    FieldUpdated(c, "fetchedAt", Text(Format(r.fetchedAt, r.zone)), name);
    FieldUpdated(d, "fetchedAtUnixNano", Text(OfInt(r.fetchedAt)), name);
    FieldNamed(r.market, name);
    assert MarketPayload(r) == Table(d["fetchedAtUnixNano" := Text(OfInt(r.fetchedAt))]);
    hide MarketPayload, Envelope, OfInt;
  }

  lemma FieldUpdated(fields: map<string, LuaValue>, field: string, value: LuaValue, name: string)
    ensures Field(fields[field := value], name) == if name == field then value else Field(fields, name)
  {
  }

  lemma FieldNamed(fields: map<string, LuaValue>, name: string)
    ensures Field(fields, name) == if name in fields then fields[name] else Nil
  {
  }

  /** The payload of a record has the record's instant as its version exactly when its chain,
      token and identifier are usable. */
  predicate Usable(r: Record) {
    r.chain != "" && r.tokenKey != "" && (if r.id.Slug? then r.id.slug != "" else r.id.number > 0)
  }

  lemma PayloadVersion(r: Record)
    ensures Version(r.id.Slug?, MarketPayload(r), r.chain, r.tokenKey) ==
              (if Usable(r) then Some(r.fetchedAt) else None)
  {
    FormatRoundTrip(r.fetchedAt, r.zone);
    EnvelopeVersion(r, Format(r.fetchedAt, r.zone));
  }

  lemma EnvelopeVersion(r: Record, fetchedAt: string)
    requires NanosOf(Text(fetchedAt)) == Some(r.fetchedAt)
    ensures Version(r.id.Slug?, Envelope(r, fetchedAt), r.chain, r.tokenKey) ==
              (if Usable(r) then Some(r.fetchedAt) else None)
  {
    hide NanosOf;
    var p := Envelope(r, fetchedAt);
    assert Field(p.fields, "fetchedAt") == Text(fetchedAt);
    assert Field(p.fields, IdField(r.id)) ==
        match r.id case Slug(s) => Text(s) case Numeric(n) => Number(n as real, OfInt(n));
    assert UsableId(r.id.Slug?, p.fields) <==> if r.id.Slug? then r.id.slug != "" else r.id.number > 0;
    if Usable(r) {
      assert Versioned(r.id.Slug?, p, r.chain, r.tokenKey, r.fetchedAt);
    }
    forall v | Versioned(r.id.Slug?, p, r.chain, r.tokenKey, v)
      ensures v == r.fetchedAt
    {
    }
  }

  function TtlMilliseconds(ttl: int): (ms: int)
    requires ttl > 0
    ensures ms >= 1
  {
    if ttl / 1_000_000 < 1 then 1 else ttl / 1_000_000
  }

  /** A lifetime counts in whole milliseconds, rounded down, and one at least. */
  lemma LifetimeIs(ttl: int)
    requires ttl > 0
    ensures var ms := TtlMilliseconds(ttl);
            if ttl < 1_000_000 then ms == 1 else ms * 1_000_000 <= ttl < (ms + 1) * 1_000_000
  {
  }

  function Namespace(id: ProviderId): string {
    if id.Slug? then "coingecko:market:" else "cmc:market:"
  }

  function RedisKey(r: Record): string {
    Namespace(r.id) + r.chain + ":" + r.tokenKey
  }

  /** The entry a write offers at a time. */
  function Offered(w: Write, now: int): Entry
    requires w.ttl > 0
  {
    Entry(MarketPayload(w.record), now + TtlMilliseconds(w.ttl))
  }

  predicate Live(slot: Option<Entry>, now: int) {
    slot.Some? && slot.value.expiresAt > now
  }

  /** What a key holds for a record's readers: the instant and entry of a live, well-formed
      envelope, or nothing. */
  datatype Cell = Empty | Holds(instant: int, entry: Entry)

  ghost function CellOf(coinGecko: bool, chain: string, token: string, slot: Option<Entry>, now: int): Cell {
    if Live(slot, now) && Version(coinGecko, slot.value.payload, chain, token).Some? then
      Holds(Version(coinGecko, slot.value.payload, chain, token).value, slot.value)
    else
      Empty
  }

  /** One save, on the content of its key. */
  ghost function Saved(slot: Option<Entry>, w: Write, now: int): Option<Entry> {
    var r := w.record;
    var cell := CellOf(r.id.Slug?, r.chain, r.tokenKey, slot, now);
    if w.ttl <= 0 || (cell.Holds? && r.fetchedAt < cell.instant) then slot else Some(Offered(w, now))
  }

  class Redis {
    /** Server time in milliseconds. */
    var clock: int
    var entries: map<string, Entry>

    /** The script body: arguments are the payload, its version text, the lifetime in
        milliseconds, and the expected chain and token. */
    method Eval(coinGecko: bool, key: string, payload: Payload, version: string, ttlMilliseconds: int,
                chain: string, token: string) returns (stored: bool)
      requires IsSigned(version)
      modifies this`entries
      ensures var cell := CellOf(coinGecko, chain, token, SlotOf(old(entries), key), clock);
              stored <==> !(cell.Holds? && IntValue(version) < cell.instant)
      ensures entries == if stored then old(entries)[key := Entry(payload, clock + ttlMilliseconds)] else old(entries)
    {
      hide Version;
      if Live(SlotOf(entries, key), clock) {
        var decoded := entries[key].payload;
        var ok := ValidEnvelope(coinGecko, decoded, chain, token);
        if ok {
          VersionText(coinGecko, decoded, chain, token);
          var current := Field(decoded.fields, "fetchedAtUnixNano");
          var order := CompareDecimals(Text(version), current);
          if order == Some(-1) {
            return false;
          }
        }
      }
      entries := entries[key := Entry(payload, clock + ttlMilliseconds)];
      return true;
    }

    /** Queues the script call of one write with a positive lifetime. */
    method SaveRecord(w: Write)
      modifies this`entries
      ensures entries == SavedOne(old(entries), w, clock)
    {
      hide Version, MarketPayload;
      if w.ttl <= 0 {
        return;
      }
      var r := w.record;
      OfIntRoundTrip(r.fetchedAt);
      var stored := Eval(r.id.Slug?, RedisKey(r), MarketPayload(r), OfInt(r.fetchedAt), TtlMilliseconds(w.ttl),
                         r.chain, r.tokenKey);
    }

    /** Writes a batch in order, skipping lifetimes that are not positive. */
    method SaveMarketData(writes: seq<Write>)
      modifies this`entries
      ensures entries == SavedAll(old(entries), writes, clock)
    {
      hide SavedOne;
      for i := 0 to |writes|
        invariant entries == SavedAll(old(entries), writes[..i], clock)
      {
        assert writes[..i + 1][..i] == writes[..i];
        SaveRecord(writes[i]);
      }
      assert writes[..|writes|] == writes;
    }

    /** Serves batches as time passes. */
    method Serve(calls: seq<Call>)
      modifies this
      ensures Server(entries, clock) == ServedAll(old(Server(entries, clock)), calls)
    {
      hide SavedAll;
      for i := 0 to |calls|
        invariant Server(entries, clock) == ServedAll(old(Server(entries, clock)), calls[..i])
      {
        assert calls[..i + 1][..i] == calls[..i];
        match calls[i] {
          case Batch(writes) => SaveMarketData(writes);
          case Pass(milliseconds) => clock := clock + milliseconds;
        }
      }
      assert calls[..|calls|] == calls;
    }
  }

  function SlotOf(entries: map<string, Entry>, key: string): Option<Entry> {
    if key in entries then Some(entries[key]) else None
  }

  ghost function SavedOne(entries: map<string, Entry>, w: Write, now: int): map<string, Entry> {
    var key := RedisKey(w.record);
    match Saved(SlotOf(entries, key), w, now)
    case Some(entry) => entries[key := entry]
    case None => entries
  }

  /** A batch of saves, one after the other. */
  ghost function SavedAll(entries: map<string, Entry>, writes: seq<Write>, now: int): map<string, Entry> {
    if writes == [] then entries
    else SavedOne(SavedAll(entries, writes[..|writes| - 1], now), writes[|writes| - 1], now)
  }

  /* ---------- the integer register ---------- */

  /** A register of instants: a write moves it unless the write is strictly older. */
  function RegisterStep(cell: Cell, w: Write, now: int): Cell {
    if w.ttl <= 0 || (cell.Holds? && w.record.fetchedAt < cell.instant) then cell
    else if Usable(w.record) then Holds(w.record.fetchedAt, Offered(w, now))
    else Empty
  }

  predicate SameKey(coinGecko: bool, chain: string, token: string, r: Record) {
    r.id.Slug? == coinGecko && r.chain == chain && r.tokenKey == token
  }

  /** The digit-string script, seen through the cell, is the integer register. */
  lemma SaveIsRegisterStep(slot: Option<Entry>, w: Write, now: int)
    ensures var r := w.record;
            CellOf(r.id.Slug?, r.chain, r.tokenKey, Saved(slot, w, now), now)
            == RegisterStep(CellOf(r.id.Slug?, r.chain, r.tokenKey, slot, now), w, now)
  {
    PayloadVersion(w.record);
    hide Version, MarketPayload, Usable;
    if w.ttl > 0 {
      OfferedIsLive(w, now);
      hide TtlMilliseconds, Offered, Live;
    }
  }

  lemma OfferedIsLive(w: Write, now: int)
    requires w.ttl > 0
    ensures Live(Some(Offered(w, now)), now) && Offered(w, now).payload == MarketPayload(w.record)
  {
  }

  /* ---------- whole runs on one key ---------- */

  datatype Event = Save(write: Write) | Elapse(milliseconds: nat)

  datatype State = State(slot: Option<Entry>, now: int)

  ghost function Next(s: State, e: Event): State {
    match e
    case Save(w) => State(Saved(s.slot, w, s.now), s.now)
    case Elapse(ms) => State(s.slot, s.now + ms)
  }

  ghost function After(s: State, run: seq<Event>): State {
    if run == [] then s else Next(After(s, run[..|run| - 1]), run[|run| - 1])
  }

  ghost predicate OnKey(coinGecko: bool, chain: string, token: string, run: seq<Event>) {
    forall i | 0 <= i < |run| && run[i].Save? :: SameKey(coinGecko, chain, token, run[i].write.record)
  }

  ghost function CellIn(coinGecko: bool, chain: string, token: string, s: State): Cell {
    CellOf(coinGecko, chain, token, s.slot, s.now)
  }

  /** An offer the register could hold: an instant and the entry that came with it. */
  datatype Offer = Offer(instant: int, entry: Entry)

  /** Every offer made since the key was last absent, expired or malformed, oldest first.  A
      well-formed initial content counts as the first offer. */
  ghost function Offers(coinGecko: bool, chain: string, token: string, s: State, run: seq<Event>): seq<Offer> {
    if run == [] then
      match CellIn(coinGecko, chain, token, s)
      case Empty => []
      case Holds(instant, entry) => [Offer(instant, entry)]
    else
      var front, last := run[..|run| - 1], run[|run| - 1];
      var earlier := Offers(coinGecko, chain, token, s, front);
      if CellIn(coinGecko, chain, token, After(s, run)) == Empty then []
      else match last
        case Elapse(_) => earlier
        case Save(w) =>
          if w.ttl <= 0 then earlier
          else earlier + [Offer(w.record.fetchedAt, Offered(w, After(s, front).now))]
  }

  /** The offer at `i` is the newest; among equally new ones, the last. */
  predicate Newest(offers: seq<Offer>, i: nat) {
    && i < |offers|
    && (forall j | 0 <= j < |offers| :: offers[j].instant <= offers[i].instant)
    && (forall j | i < j < |offers| :: offers[j].instant < offers[i].instant)
  }

  /** Over every run of saves and passing time on one key, from any content: the key is empty
      (absent, expired or malformed) exactly when nothing was offered since it last was, and
      otherwise holds the newest offer, payload and expiry, with ties to the last writer. */
  lemma {:induction false} RegisterHoldsNewest(coinGecko: bool, chain: string, token: string, s: State, run: seq<Event>)
    requires OnKey(coinGecko, chain, token, run)
    ensures var cell := CellIn(coinGecko, chain, token, After(s, run));
            var offers := Offers(coinGecko, chain, token, s, run);
            && (cell.Empty? <==> offers == [])
            && (cell.Holds? ==> exists i: nat :: Newest(offers, i) && offers[i] == Offer(cell.instant, cell.entry))
  {
    hide Version, MarketPayload;
    var cell := CellIn(coinGecko, chain, token, After(s, run));
    var offers := Offers(coinGecko, chain, token, s, run);
    if run == [] {
      if cell.Holds? {
        assert Newest(offers, 0);
      }
    } else {
      var front, last := run[..|run| - 1], run[|run| - 1];
      RegisterHoldsNewest(coinGecko, chain, token, s, front);
      var before := CellIn(coinGecko, chain, token, After(s, front));
      var earlier := Offers(coinGecko, chain, token, s, front);
      if last.Save? {
        SaveIsRegisterStep(After(s, front).slot, last.write, After(s, front).now);
        if cell.Holds? && last.write.ttl > 0 {
          NewestExtends(earlier, before, last.write, After(s, front).now, cell);
        }
      }
    }
  }

  lemma NewestExtends(earlier: seq<Offer>, before: Cell, w: Write, now: int, cell: Cell)
    requires w.ttl > 0 && cell == RegisterStep(before, w, now) && cell.Holds?
    requires before.Empty? <==> earlier == []
    requires before.Holds? ==> exists i: nat :: Newest(earlier, i) && earlier[i] == Offer(before.instant, before.entry)
    ensures var offers := earlier + [Offer(w.record.fetchedAt, Offered(w, now))];
            exists i: nat :: Newest(offers, i) && offers[i] == Offer(cell.instant, cell.entry)
  {
    hide Offered;
    var offers := earlier + [Offer(w.record.fetchedAt, Offered(w, now))];
    if before.Holds? {
      var i: nat :| Newest(earlier, i) && earlier[i] == Offer(before.instant, before.entry);
      if w.record.fetchedAt < before.instant {
        assert Newest(offers, i);
      } else {
        assert Newest(offers, |earlier|);
      }
    } else {
      assert Newest(offers, 0);
    }
  }

  /** While a key stays live and well formed, its instant never goes back, and a change of
      payload or expiry is the doing of an offer at least as new. */
  lemma {:induction false} NeverOlder(coinGecko: bool, chain: string, token: string, s: State, run: seq<Event>)
    requires OnKey(coinGecko, chain, token, run)
    requires forall i | 0 <= i <= |run| :: CellIn(coinGecko, chain, token, After(s, run[..i])).Holds?
    ensures var first := CellIn(coinGecko, chain, token, s);
            var last := CellIn(coinGecko, chain, token, After(s, run));
            && first.Holds? && last.Holds? && first.instant <= last.instant
            && (last.entry == first.entry
                || exists i :: 0 <= i < |run| && run[i].Save? && run[i].write.ttl > 0
                               && run[i].write.record.fetchedAt == last.instant
                               && last.entry == Offered(run[i].write, After(s, run[..i]).now))
  {
    hide Version, MarketPayload;
    assert run[..0] == [] && run[..|run|] == run;
    if run != [] {
      var front, e := run[..|run| - 1], run[|run| - 1];
      forall i | 0 <= i <= |front|
        ensures front[..i] == run[..i]
      {
      }
      NeverOlder(coinGecko, chain, token, s, front);
      if e.Save? {
        SaveIsRegisterStep(After(s, front).slot, e.write, After(s, front).now);
      }
    }
  }

  /* ---------- lifetimes ---------- */

  /** A save that no newer envelope refuses stores the record's payload for its lifetime in whole
      milliseconds, and for one at least. */
  lemma AcceptedExpires(entries: map<string, Entry>, w: Write, now: int)
    requires w.ttl > 0
    requires var r := w.record;
             var cell := CellOf(r.id.Slug?, r.chain, r.tokenKey, SlotOf(entries, RedisKey(r)), now);
             cell.Holds? ==> cell.instant <= r.fetchedAt
    ensures var key, after := RedisKey(w.record), SavedAll(entries, [w], now);
            && key in after && after[key].payload == MarketPayload(w.record)
            && var d := after[key].expiresAt - now;
               if w.ttl < 1_000_000 then d == 1 else d * 1_000_000 <= w.ttl < (d + 1) * 1_000_000
  {
    LifetimeIs(w.ttl);
    assert [w][..0] == [];
    assert SavedAll(entries, [], now) == entries;
    hide CellOf, RedisKey, MarketPayload, TtlMilliseconds;
  }

  /** An offered entry is live exactly until its lifetime has passed. */
  lemma OfferedLife(w: Write, at: int, now: int)
    requires w.ttl > 0 && at <= now
    ensures Live(Some(Offered(w, at)), now) <==> now - at == 0 || (now - at + 1) * 1_000_000 <= w.ttl
  {
    LifetimeIs(w.ttl);
    hide MarketPayload, TtlMilliseconds;
  }

  /** The offer came with this save of the run. */
  ghost predicate CameWith(s: State, run: seq<Event>, i: nat, offer: Offer) {
    && i < |run| && run[i].Save? && run[i].write.ttl > 0 && run[i].write.record.fetchedAt == offer.instant
    && offer.entry == Offered(run[i].write, After(s, run[..i]).now)
  }

  /** Every offer is a save of the run, or the content it began with. */
  lemma {:induction false} OfferIsSave(coinGecko: bool, chain: string, token: string, s: State, run: seq<Event>, j: nat)
    returns (i: nat)
    requires j < |Offers(coinGecko, chain, token, s, run)|
    ensures var offer, first := Offers(coinGecko, chain, token, s, run)[j], CellIn(coinGecko, chain, token, s);
            CameWith(s, run, i, offer) || first == Holds(offer.instant, offer.entry)
  {
    hide CellIn, Next, Offered;
    i := 0;
    if run != [] {
      var front, last := run[..|run| - 1], run[|run| - 1];
      var earlier := Offers(coinGecko, chain, token, s, front);
      if j < |earlier| {
        i := OfferIsSave(coinGecko, chain, token, s, front, j);
        if i < |front| {
          assert front[..i] == run[..i];
        }
      } else {
        i := |front|;
      }
    }
  }

  lemma {:induction false} TimeGrows(s: State, run: seq<Event>, i: nat)
    requires i <= |run|
    ensures After(s, run[..i]).now <= After(s, run).now
  {
    hide Saved;
    if i < |run| {
      TimeGrows(s, run[..|run| - 1], i);
      assert run[..|run| - 1][..i] == run[..i];
    } else {
      assert run[..i] == run;
    }
  }

  /** In every run, what a key holds is what it began with, or the payload of a save of exactly the
      instant held, made no longer ago than that save's lifetime. */
  lemma HeldWithinLifetime(coinGecko: bool, chain: string, token: string, s: State, run: seq<Event>)
    requires OnKey(coinGecko, chain, token, run)
    ensures var cell, first := CellIn(coinGecko, chain, token, After(s, run)), CellIn(coinGecko, chain, token, s);
            var after := After(s, run);
            cell.Holds? && cell != first ==>
              exists i :: 0 <= i < |run| && CameWith(s, run, i, Offer(cell.instant, cell.entry))
                && cell.entry.payload == MarketPayload(run[i].write.record)
                && (after.now == After(s, run[..i]).now
                    || (after.now - After(s, run[..i]).now + 1) * 1_000_000 <= run[i].write.ttl)
  {
    RegisterHoldsNewest(coinGecko, chain, token, s, run);
    var cell := CellIn(coinGecko, chain, token, After(s, run));
    var offers := Offers(coinGecko, chain, token, s, run);
    if cell.Holds? && cell != CellIn(coinGecko, chain, token, s) {
      var j: nat :| Newest(offers, j) && offers[j] == Offer(cell.instant, cell.entry);
      var i := OfferIsSave(coinGecko, chain, token, s, run, j);
      TimeGrows(s, run, i);
      OfferedLife(run[i].write, After(s, run[..i]).now, After(s, run).now);
      hide Version, MarketPayload, Newest, Offers;
      assert CameWith(s, run, i, Offer(cell.instant, cell.entry));
    }
  }

  /** A usable record that was just accepted is held exactly until its lifetime has passed. */
  lemma HeldUntilExpired(s: State, w: Write, milliseconds: nat)
    requires w.ttl > 0 && Usable(w.record)
    requires var r := w.record;
             var cell := CellIn(r.id.Slug?, r.chain, r.tokenKey, s);
             cell.Holds? ==> cell.instant <= r.fetchedAt
    ensures var r := w.record;
            var cell := CellIn(r.id.Slug?, r.chain, r.tokenKey, After(s, [Save(w), Elapse(milliseconds)]));
            && (cell.Holds? <==> milliseconds == 0 || (milliseconds + 1) * 1_000_000 <= w.ttl)
            && (cell.Holds? ==> cell.instant == r.fetchedAt && cell.entry.payload == MarketPayload(r))
  {
    hide *;
    AcceptedThenPassed(s, w, milliseconds);
    OfferedLife(w, s.now, s.now + milliseconds);
    CellOfPayload(w.record, Offered(w, s.now), s.now + milliseconds);
  }

  lemma CellOfPayload(r: Record, entry: Entry, now: int)
    requires Usable(r) && entry.payload == MarketPayload(r)
    ensures CellIn(r.id.Slug?, r.chain, r.tokenKey, State(Some(entry), now))
         == if Live(Some(entry), now) then Holds(r.fetchedAt, entry) else Empty
  {
    PayloadVersion(r);
    hide Version, MarketPayload, Usable;
  }

  lemma AcceptedThenPassed(s: State, w: Write, milliseconds: nat)
    requires w.ttl > 0
    requires var r := w.record;
             var cell := CellIn(r.id.Slug?, r.chain, r.tokenKey, s);
             cell.Holds? ==> cell.instant <= r.fetchedAt
    ensures After(s, [Save(w), Elapse(milliseconds)]) == State(Some(Offered(w, s.now)), s.now + milliseconds)
    ensures Offered(w, s.now).payload == MarketPayload(w.record)
  {
    hide Version, MarketPayload, TtlMilliseconds;
    var run := [Save(w), Elapse(milliseconds)];
    assert run[..1] == [Save(w)] && [Save(w)][..0] == [];
    assert After(s, []) == s;
    assert After(s, [Save(w)]) == State(Some(Offered(w, s.now)), s.now);
  }

  /* ---------- batches over many keys ---------- */

  /** Neither chain name begins with the other and a colon. */
  predicate ChainsApart(c: string, d: string) {
    PartsApart(c, d, ':')
  }

  /** The keys stored records live under: changing them strands what is stored. */
  lemma CoinGeckoKeyIsStable(r: Record)
    requires r.chain == "ethereum" && r.id.Slug?
    ensures r.tokenKey == "0xa0b8" ==> RedisKey(r) == "coingecko:market:ethereum:0xa0b8"
    ensures r.tokenKey == "native:ETH" ==> RedisKey(r) == "coingecko:market:ethereum:native:ETH"
  {
  }

  lemma CoinMarketCapKeyIsStable(r: Record)
    requires r.chain == "ethereum" && r.id.Numeric?
    ensures r.tokenKey == "0xa0b8" ==> RedisKey(r) == "cmc:market:ethereum:0xa0b8"
    ensures r.tokenKey == "native:ETH" ==> RedisKey(r) == "cmc:market:ethereum:native:ETH"
  {
  }

  /** Records of different keys never share a Redis key, as long as their chain names are apart;
      the two providers never do. */
  lemma RedisKeyInjective(a: Record, b: Record)
    requires ChainsApart(a.chain, b.chain) && RedisKey(a) == RedisKey(b)
    ensures SameKey(a.id.Slug?, a.chain, a.tokenKey, b)
  {
    SameProvider(a, b);
    hide RedisKey;
    FirstPart(a.chain, a.tokenKey, b.chain, b.tokenKey, ':');
  }

  lemma SameProvider(a: Record, b: Record)
    requires RedisKey(a) == RedisKey(b)
    ensures a.id.Slug? == b.id.Slug? && a.chain + ":" + a.tokenKey == b.chain + ":" + b.tokenKey
  {
    KeyStarts(a);
    KeyStarts(b);
    hide *;
  }

  /** The provider shows in the second letter of a key, and the rest follows its own start. */
  lemma KeyStarts(r: Record)
    ensures |RedisKey(r)| >= (if r.id.Slug? then 17 else 11)
    ensures RedisKey(r)[1] == (if r.id.Slug? then 'o' else 'm')
    ensures RedisKey(r)[if r.id.Slug? then 17 else 11..] == r.chain + ":" + r.tokenKey
  {
    var key, n := RedisKey(r), |Namespace(r.id)|;
    assert n == if r.id.Slug? then 17 else 11;
    assert key == Namespace(r.id) + (r.chain + ":" + r.tokenKey);
    assert key[1] == Namespace(r.id)[1];
    assert key[n..] == r.chain + ":" + r.tokenKey;
  }

  /** Two records, one on each of these chains, share a Redis key. */
  ghost predicate SharesKey(a: Record, b: Record, c: string, d: string) {
    a.chain == c && b.chain == d && RedisKey(a) == RedisKey(b)
  }

  /** Two different chain names keep their Redis keys apart, for all tokens, exactly when they are
      apart. */
  lemma ChainsShareKeys(c: string, d: string)
    requires c != d
    ensures (exists a, b :: SharesKey(a, b, c, d)) <==> !ChainsApart(c, d)
  {
    if c + ":" <= d {
      var a, b := Shifted(c, d);
      assert SharesKey(a, b, c, d);
    } else if d + ":" <= c {
      var a, b := Shifted(d, c);
      assert SharesKey(b, a, c, d);
    }
    forall a, b | SharesKey(a, b, c, d)
      ensures !ChainsApart(c, d)
    {
      if ChainsApart(c, d) {
        RedisKeyInjective(a, b);
      }
    }
  }

  lemma Shifted(c: string, d: string) returns (a: Record, b: Record)
    requires c + ":" <= d
    ensures SharesKey(a, b, c, d)
  {
    var s, t := ShiftedParts(c, d, ':');
    a := Record(c, s, Slug(""), 0, 0, map[]);
    b := Record(d, t, Slug(""), 0, 0, map[]);
    assert RedisKey(a) == Namespace(a.id) + (c + ":" + s) && RedisKey(b) == Namespace(b.id) + (d + ":" + t);
  }

  /** A native token on one chain, and a token on a chain whose name holds a colon. */
  lemma CollidingKeys(a: Record, b: Record)
    requires a.id.Slug? == b.id.Slug? && a.chain == "a" && b.chain == "a:native"
    requires a.tokenKey == "native:X" && b.tokenKey == "X"
    ensures RedisKey(a) == RedisKey(b) && !SameKey(a.id.Slug?, a.chain, a.tokenKey, b)
  {
    assert "a" + ":" + "native:X" == "a:native" + ":" + "X";
    assert RedisKey(a) == Namespace(a.id) + ("a" + ":" + "native:X");
    assert RedisKey(b) == Namespace(b.id) + ("a:native" + ":" + "X");
  }

  /** The events a batch means for one Redis key: its own writes, in order. */
  ghost function EventsFor(key: string, writes: seq<Write>): seq<Event> {
    if writes == [] then [] else
      var front := EventsFor(key, writes[..|writes| - 1]);
      var w := writes[|writes| - 1];
      if RedisKey(w.record) == key then front + [Save(w)] else front
  }

  /** A batch acts on each key as a run of that key's own writes, whatever else it holds. */
  lemma {:induction false} BatchIsRunPerKey(entries: map<string, Entry>, writes: seq<Write>, now: int, key: string)
    ensures After(State(SlotOf(entries, key), now), EventsFor(key, writes))
            == State(SlotOf(SavedAll(entries, writes, now), key), now)
  {
    hide CellOf;
    if writes != [] {
      BatchIsRunPerKey(entries, writes[..|writes| - 1], now, key);
      var front, w := EventsFor(key, writes[..|writes| - 1]), writes[|writes| - 1];
      if RedisKey(w.record) == key {
        assert (front + [Save(w)])[..|front|] == front;
      }
    }
  }

  /* ---------- whole runs on one Redis ---------- */

  datatype Server = Server(entries: map<string, Entry>, now: int)

  /** A batch, or time that passes. */
  datatype Call = Batch(writes: seq<Write>) | Pass(milliseconds: nat)

  ghost function Served(s: Server, call: Call): Server {
    match call
    case Batch(writes) => s.(entries := SavedAll(s.entries, writes, s.now))
    case Pass(milliseconds) => s.(now := s.now + milliseconds)
  }

  ghost function ServedAll(s: Server, calls: seq<Call>): Server {
    if calls == [] then s else Served(ServedAll(s, calls[..|calls| - 1]), calls[|calls| - 1])
  }

  /** The events that the calls mean for one Redis key. */
  ghost function EventsOf(key: string, calls: seq<Call>): seq<Event> {
    if calls == [] then []
    else
      EventsOf(key, calls[..|calls| - 1]) +
      match calls[|calls| - 1]
      case Batch(writes) => EventsFor(key, writes)
      case Pass(milliseconds) => [Elapse(milliseconds)]
  }

  lemma {:induction false} AfterBoth(s: State, first: seq<Event>, second: seq<Event>)
    ensures After(s, first + second) == After(After(s, first), second)
  {
    hide Next;
    if second == [] {
      assert first + second == first;
    } else {
      AfterBoth(s, first, second[..|second| - 1]);
      assert (first + second)[..|first + second| - 1] == first + second[..|second| - 1];
    }
  }

  /** Whatever else the calls write, each key of a Redis sees the run of its own events. */
  lemma {:induction false} RunPerKey(s: Server, calls: seq<Call>, key: string)
    ensures After(State(SlotOf(s.entries, key), s.now), EventsOf(key, calls))
            == State(SlotOf(ServedAll(s, calls).entries, key), ServedAll(s, calls).now)
  {
    hide Saved, SavedAll, EventsFor;
    if calls != [] {
      var front, last := calls[..|calls| - 1], calls[|calls| - 1];
      var start, before := State(SlotOf(s.entries, key), s.now), ServedAll(s, front);
      RunPerKey(s, front, key);
      match last
      case Batch(writes) =>
        AfterBoth(start, EventsOf(key, front), EventsFor(key, writes));
        BatchIsRunPerKey(before.entries, writes, before.now, key);
      case Pass(milliseconds) =>
        AfterBoth(start, EventsOf(key, front), [Elapse(milliseconds)]);
        OneElapse(After(start, EventsOf(key, front)), milliseconds);
    }
  }

  lemma OneElapse(s: State, milliseconds: nat)
    ensures After(s, [Elapse(milliseconds)]) == State(s.slot, s.now + milliseconds)
  {
    assert [Elapse(milliseconds)][..0] == [];
    assert After(s, []) == s;
  }

  /** Every written record's chain name is apart from this one. */
  ghost predicate AllApart(chain: string, calls: seq<Call>) {
    forall i, j | 0 <= i < |calls| && calls[i].Batch? && 0 <= j < |calls[i].writes| ::
      ChainsApart(calls[i].writes[j].record.chain, chain)
  }

  lemma {:induction false} BatchIsOnKey(r: Record, writes: seq<Write>)
    requires forall j | 0 <= j < |writes| :: ChainsApart(writes[j].record.chain, r.chain)
    ensures OnKey(r.id.Slug?, r.chain, r.tokenKey, EventsFor(RedisKey(r), writes))
  {
    hide RedisKey, ChainsApart;
    if writes != [] {
      BatchIsOnKey(r, writes[..|writes| - 1]);
      var w := writes[|writes| - 1];
      if RedisKey(w.record) == RedisKey(r) {
        RedisKeyInjective(w.record, r);
      }
    }
  }

  lemma {:induction false} CallsAreOnKey(r: Record, calls: seq<Call>)
    requires AllApart(r.chain, calls)
    ensures OnKey(r.id.Slug?, r.chain, r.tokenKey, EventsOf(RedisKey(r), calls))
  {
    hide EventsFor, ChainsApart, SameKey, RedisKey;
    if calls != [] {
      CallsAreOnKey(r, calls[..|calls| - 1]);
      var last := calls[|calls| - 1];
      if last.Batch? {
        BatchIsOnKey(r, last.writes);
      }
    }
  }

  /** Over every run of batches and passing time on one Redis, from any contents: the key of a
      record holds the newest of what was offered to that very record's chain and token, if their
      chain's name is apart from those of the other chains written. */
  lemma ServerHoldsNewest(s: Server, calls: seq<Call>, r: Record)
    requires AllApart(r.chain, calls)
    ensures var key, after := RedisKey(r), ServedAll(s, calls);
            var run := EventsOf(key, calls);
            var cell := CellOf(r.id.Slug?, r.chain, r.tokenKey, SlotOf(after.entries, key), after.now);
            var offers := Offers(r.id.Slug?, r.chain, r.tokenKey, State(SlotOf(s.entries, key), s.now), run);
            && OnKey(r.id.Slug?, r.chain, r.tokenKey, run)
            && (cell.Empty? <==> offers == [])
            && (cell.Holds? ==> exists i: nat :: Newest(offers, i) && offers[i] == Offer(cell.instant, cell.entry))
  {
    var key := RedisKey(r);
    CallsAreOnKey(r, calls);
    RunPerKey(s, calls, key);
    RegisterHoldsNewest(r.id.Slug?, r.chain, r.tokenKey, State(SlotOf(s.entries, key), s.now), EventsOf(key, calls));
    hide CellOf, Offers, Newest, RedisKey, OnKey;
  }
}
