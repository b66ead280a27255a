/**
 * The server's key/value store and its three writing/point-reading handlers:
 * POST /sensor-data, GET /sensor-data/latest and POST /log-event.
 *
 * The store is one flat map from string keys to JSON values. Readings live
 * under `sensor_reading_<timestamp>`, events under `event_log_<timestamp>`,
 * and the most recent ingestion is mirrored under `latest_sensor_reading`.
 */
module SensorStore {
  import opened Wrappers
  import Text

  /** One sensor sample as stored: the three measurements and an epoch-millisecond stamp. */
  datatype Reading = Reading(pH: real, orp: real, conductivity: real, timestamp: int)

  /** The three measurement values attached to a logged event. */
  datatype Snapshot = Snapshot(pH: real, orp: real, conductivity: real)

  /** The body of a POST /log-event request. `kind` is the JSON field `type`. */
  datatype LogRequest = LogRequest(kind: string, message: string, systemState: string, sensorData: Option<Snapshot>)

  /** A stored event-log entry: the request's fields plus the server's clock at receipt. */
  datatype Event = Event(kind: string, message: string, systemState: string, sensorData: Option<Snapshot>, timestamp: int)

  /** A JSON value held in the store. */
  datatype Value = ReadingValue(reading: Reading) | EventValue(event: Event) {
    function Timestamp(): int {
      match this
      case ReadingValue(r) => r.timestamp
      case EventValue(e) => e.timestamp
    }
  }

  type Store = map<string, Value>

  /** The two timestamp-keyed families of entries that share the store. */
  datatype Series = Readings | Events {
    function Prefix(): string {
      match this
      case Readings => "sensor_reading_"
      case Events => "event_log_"
    }

    /** The key an entry stamped `t` is stored under. */
    function Key(t: int): string {
      Prefix() + Text.IntToString(t)
    }

    predicate Holds(v: Value) {
      match this
      case Readings => v.ReadingValue?
      case Events => v.EventValue?
    }
  }

  const LatestKey: string := "latest_sensor_reading"

  /** The key set a prefix scan for `series` visits. */
  function Members(store: Store, series: Series): set<string> {
    set k | k in store && series.Prefix() <= k
  }

  /** Every entry of `series` sits under the key of its own timestamp. */
  ghost predicate SeriesWellFormed(store: Store, series: Series) {
    forall k :: k in store && series.Prefix() <= k ==>
      series.Holds(store[k]) && k == series.Key(store[k].Timestamp())
  }

  /** The latest slot holds a reading that is also the history entry for its stamp. */
  ghost predicate LatestWellFormed(store: Store) {
    LatestKey in store ==>
      && store[LatestKey].ReadingValue?
      && Readings.Key(store[LatestKey].Timestamp()) in store
      && store[Readings.Key(store[LatestKey].Timestamp())] == store[LatestKey]
  }

  /** The invariant every handler keeps. */
  ghost predicate WellFormed(store: Store) {
    && SeriesWellFormed(store, Readings)
    && SeriesWellFormed(store, Events)
    && LatestWellFormed(store)
    && (Members(store, Readings) != {} ==> LatestKey in store)
  }

  // ---------------------------------------------------------------------
  // Keys
  // ---------------------------------------------------------------------

  /** Keys of one series are in one-to-one correspondence with timestamps. */
  lemma KeyInjective(series: Series, a: int, b: int)
    requires series.Key(a) == series.Key(b)
    ensures a == b
  {
    Text.PrefixCancel(series.Prefix(), Text.IntToString(a), Text.IntToString(b));
    Text.IntToStringInjective(a, b);
  }

  /**
   * The three key spaces are disjoint: a reading key is never an event key,
   * and the latest slot starts with neither prefix.
   */
  lemma KeySpacesDisjoint(t: int)
    ensures Readings.Prefix() <= Readings.Key(t) && Events.Prefix() <= Events.Key(t)
    ensures !(Events.Prefix() <= Readings.Key(t))
    ensures !(Readings.Prefix() <= Events.Key(t))
    ensures !(Readings.Prefix() <= LatestKey) && !(Events.Prefix() <= LatestKey)
  {
    assert Readings.Key(t)[0] == 's';
    assert Events.Key(t)[0] == 'e';
    assert Readings.Key(t)[..|Readings.Prefix()|] == Readings.Prefix();
    assert Events.Key(t)[..|Events.Prefix()|] == Events.Prefix();
  }

  /** The empty store satisfies the invariant. */
  lemma EmptyWellFormed()
    ensures WellFormed(map[])
  {
  }

  // ---------------------------------------------------------------------
  // POST /sensor-data
  // ---------------------------------------------------------------------

  /** The request body; an absent field is `None`. */
  datatype IngestRequest = IngestRequest(pH: Option<real>, orp: Option<real>, conductivity: Option<real>, timestamp: Option<int>)

  datatype IngestResponse =
    | Stored(reading: Reading)    // 200, echoes the stored reading
    | MissingFields               // 400

  /** A handler's effect: the store afterwards and the reply. */
  datatype Handled<R> = Handled(store: Store, response: R)

  /** `timestamp || Date.now()`: a missing or zero stamp falls back to the receipt time. */
  function StampOf(requested: Option<int>, now: int): (t: int)
    // A usable client stamp is kept as sent.
    ensures requested.Some? && requested.value != 0 ==> t == requested.value
    // The stamp comes from the request or from the clock, nowhere else.
    ensures t == now || requested == Some(t)
    // A stored stamp is never the falsy 0 unless the clock itself reads 0.
    ensures t == 0 ==> now == 0
  {
    if requested.Some? && requested.value != 0 then requested.value else now
  }

  function Ingest(store: Store, req: IngestRequest, now: int): (h: Handled<IngestResponse>)
    // Validation: any missing measurement is a 400 and nothing is written.
    ensures h.response.MissingFields? <==> req.pH.None? || req.orp.None? || req.conductivity.None?
    ensures h.response.MissingFields? ==> h.store == store
    // The stored reading carries the request's values.
    ensures h.response.Stored? ==>
      && h.response.reading.pH == req.pH.value
      && h.response.reading.orp == req.orp.value
      && h.response.reading.conductivity == req.conductivity.value
    // The stamp is the supplied one when truthy, the receipt time otherwise.
    ensures h.response.Stored? && req.timestamp.Some? && req.timestamp.value != 0 ==>
      h.response.reading.timestamp == req.timestamp.value
    ensures h.response.Stored? && (req.timestamp.None? || req.timestamp == Some(0)) ==>
      h.response.reading.timestamp == now
    // Exactly two keys are written, both with the returned reading.
    ensures h.response.Stored? ==>
      var key := Readings.Key(h.response.reading.timestamp);
      && h.store.Keys == store.Keys + {key, LatestKey}
      && h.store[key] == ReadingValue(h.response.reading)
      && h.store[LatestKey] == ReadingValue(h.response.reading)
      && forall k :: k in store && k != key && k != LatestKey ==> h.store[k] == store[k]
  {
    if req.pH.None? || req.orp.None? || req.conductivity.None? then
      Handled(store, MissingFields)
    else
      var r := Reading(req.pH.value, req.orp.value, req.conductivity.value, StampOf(req.timestamp, now));
      Handled(store[Readings.Key(r.timestamp) := ReadingValue(r)][LatestKey := ReadingValue(r)], Stored(r))
  }

  // ---------------------------------------------------------------------
  // GET /sensor-data/latest
  // ---------------------------------------------------------------------

  datatype LatestResponse =
    | Latest(value: Value)        // 200
    | NoData                      // 404

  function GetLatest(store: Store): (r: LatestResponse)
    ensures r.NoData? <==> LatestKey !in store
    ensures r.Latest? ==> r.value == store[LatestKey]
  {
    if LatestKey in store then Latest(store[LatestKey]) else NoData
  }

  /** On a well-formed store the latest slot is a stored history reading, and it is empty only when history is. */
  lemma LatestIsStoredReading(store: Store)
    requires WellFormed(store)
    ensures GetLatest(store).NoData? <==> Members(store, Readings) == {}
    ensures GetLatest(store).Latest? ==>
      var v := GetLatest(store).value;
      v.ReadingValue? && Readings.Key(v.Timestamp()) in Members(store, Readings) && store[Readings.Key(v.Timestamp())] == v
  {
    if LatestKey in store {
      var k := Readings.Key(store[LatestKey].Timestamp());
      KeySpacesDisjoint(store[LatestKey].Timestamp());
      assert k in Members(store, Readings);
    }
  }

  /** A successful ingestion is what the next latest query returns. */
  lemma IngestThenLatest(store: Store, req: IngestRequest, now: int)
    requires Ingest(store, req, now).response.Stored?
    ensures GetLatest(Ingest(store, req, now).store) == Latest(ReadingValue(Ingest(store, req, now).response.reading))
  {
  }

  /** With nothing ever ingested the latest query reports "no data" rather than failing. */
  lemma ColdStartHasNoData()
    ensures GetLatest(map[]) == NoData
  {
  }

  // ---------------------------------------------------------------------
  // POST /log-event
  // ---------------------------------------------------------------------

  function LogEvent(store: Store, req: LogRequest, now: int): (h: Handled<Event>)
    // The entry is the request stamped with the server clock.
    ensures h.response == Event(req.kind, req.message, req.systemState, req.sensorData, now)
    // It is written under its own key and nothing else changes.
    ensures h.store.Keys == store.Keys + {Events.Key(now)}
    ensures h.store[Events.Key(now)] == EventValue(h.response)
    ensures forall k :: k in store && k != Events.Key(now) ==> h.store[k] == store[k]
  {
    var e := Event(req.kind, req.message, req.systemState, req.sensorData, now);
    Handled(store[Events.Key(now) := EventValue(e)], e)
  }

  // ---------------------------------------------------------------------
  // Invariant preservation and key-collision behaviour
  // ---------------------------------------------------------------------

  lemma IngestPreservesWellFormed(store: Store, req: IngestRequest, now: int)
    requires WellFormed(store)
    ensures WellFormed(Ingest(store, req, now).store)
  {
    var h := Ingest(store, req, now);
    if h.response.Stored? {
      var t := h.response.reading.timestamp;
      KeySpacesDisjoint(t);
      assert Readings.Key(t) in Members(h.store, Readings);
    }
  }

  lemma LogEventPreservesWellFormed(store: Store, req: LogRequest, now: int)
    requires WellFormed(store)
    ensures WellFormed(LogEvent(store, req, now).store)
  {
    var s' := LogEvent(store, req, now).store;
    KeySpacesDisjoint(now);
    assert Members(s', Readings) == Members(store, Readings);
    if LatestKey in store {
      KeySpacesDisjoint(store[LatestKey].Timestamp());
    }
  }

  /** A successful ingestion adds exactly its own key to the history scan. */
  lemma IngestHistoryKeys(store: Store, req: IngestRequest, now: int)
    requires Ingest(store, req, now).response.Stored?
    ensures Members(Ingest(store, req, now).store, Readings)
         == Members(store, Readings) + {Readings.Key(Ingest(store, req, now).response.reading.timestamp)}
  {
    KeySpacesDisjoint(Ingest(store, req, now).response.reading.timestamp);
  }

  /**
   * A reading whose stamp no stored reading carries gets a fresh key, so the
   * history grows by one entry.
   */
  lemma {:induction false} NewStampGrowsHistory(store: Store, req: IngestRequest, now: int)
    requires WellFormed(store)
    requires Ingest(store, req, now).response.Stored?
    requires forall k :: k in Members(store, Readings) ==>
      store[k].Timestamp() != Ingest(store, req, now).response.reading.timestamp
    ensures |Members(Ingest(store, req, now).store, Readings)| == |Members(store, Readings)| + 1
  {
    var t := Ingest(store, req, now).response.reading.timestamp;
    var key := Readings.Key(t);
    IngestHistoryKeys(store, req, now);
    if key in Members(store, Readings) {
      KeyInjective(Readings, t, store[key].Timestamp());
      assert false;
    }
  }

  /**
   * Two ingestions with the same stamp share one key: the second replaces
   * the first, history does not grow, and the later reading is the one kept.
   */
  lemma SameStampCollapses(store: Store, first: IngestRequest, second: IngestRequest, now1: int, now2: int)
    requires Ingest(store, first, now1).response.Stored?
    requires Ingest(Ingest(store, first, now1).store, second, now2).response.Stored?
    requires Ingest(store, first, now1).response.reading.timestamp
          == Ingest(Ingest(store, first, now1).store, second, now2).response.reading.timestamp
    ensures var s1 := Ingest(store, first, now1).store;
            var h2 := Ingest(s1, second, now2);
            && Members(h2.store, Readings) == Members(s1, Readings)
            && h2.store[Readings.Key(h2.response.reading.timestamp)] == ReadingValue(h2.response.reading)
  {
    var s1 := Ingest(store, first, now1).store;
    IngestHistoryKeys(store, first, now1);
    IngestHistoryKeys(s1, second, now2);
  }

  /**
   * Events are keyed by the server clock alone, so two events logged in the
   * same millisecond share one key and only the second survives.
   */
  lemma SameMillisecondEventsCollide(store: Store, first: LogRequest, second: LogRequest, now: int)
    ensures var s1 := LogEvent(store, first, now).store;
            var h2 := LogEvent(s1, second, now);
            && Members(h2.store, Events) == Members(s1, Events)
            && h2.store[Events.Key(now)] == EventValue(h2.response)
            && h2.response.kind == second.kind
  {
    KeySpacesDisjoint(now);
  }
}
