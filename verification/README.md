# Sensor dashboard core in Dafny

This project models the decision logic of a small water-quality dashboard. An ESP32 posts pH, ORP and conductivity readings to a Deno/Hono edge function. A React client polls that function and raises alarms. It also logs state changes and browses the event log. Three pieces are modelled:

- **The server handlers** (`SensorStore`, `StoreQueries`):
  - POST /sensor-data, GET /sensor-data/latest, GET /sensor-data/history, POST /log-event and GET /event-logs.
  - Each handler is a pure function, or a method, over a key/value store `map<string, Value>`.
  - Keys are the real strings: `sensor_reading_<stamp>`, `event_log_<stamp>` and `latest_sensor_reading`. The stamp is rendered in decimal by `Text.IntToString`.
  - Key collisions and prefix disjointness are therefore proved, not assumed.
  - Every handler preserves the store invariant `WellFormed`:
    - each prefixed key is the key of its value's own stamp;
    - the latest slot mirrors the history entry at its stamp;
    - non-empty history implies a latest slot.
- **One cycle of the dashboard's polling loop** (`Classifier`, `Monitor`):
  - It fetches the latest reading, pushes it into three bounded windows (16 values each) and reclassifies the safety state from the last two pH values.
  - It posts a log request only when that state changed.
  - The component's effects are written as an explicit step function `Monitor.Poll`, which is iterated over a run of ticks.
- **The event-log screen** (`LogsView`):
  - the fetch handler;
  - the three-stage filter (exact state, exact type, case-insensitive search);
  - the distinct-type list for the type drop-down.

`Text` holds the string operations these rely on: decimal rendering, `includes`, ASCII `toLowerCase` and the `trim` whitespace test. `Wrappers` holds `Option`.

The clock, the network and the locale are parameters:
- `now` is the receipt time.
- A `Fetch`/`LogsFetch` value is the outcome of a request.
- `Locale` holds `toLocaleDateString`/`toLocaleTimeString` as functions.

Some behaviour of the code is easy to miss; each point below is proved about the model:
- **Strict critical bounds.** A pH of exactly 8.5 or 6.5 is only a warning (`Classifier.BoundaryIsWarning`). The warning bounds are inclusive: exactly 8.0 or 6.8 with a small step is safe (`Classifier.InsideBandIsSafe`).
- **The band next to the critical bounds is a warning.** A pH such as 8.49 is a warning whatever the previous value, because it is above 8.0 (`Classifier.WarningBandIsWarning`).
- **Fixed thresholds.** 8.5 / 6.5 / 8.0 / 6.8 / 0.5 are constants in the code, and so they are in `Classifier`.
- **Equal stamps overwrite.** A reading posted with the stamp of a stored reading replaces it (`SensorStore.SameStampCollapses`). Two events logged in the same millisecond share one key (`SensorStore.SameMillisecondEventsCollide`).
- **The log screen searches only the newest 100 events.** It asks the server for `limit=100`, and the server cuts before the screen filters. An older matching event is never shown (`LogsView.FiltersOnlyTheNewestHundred`, `StoreQueries.EventLogs`).

## Model

| member | source | states |
|---|---|---|
| SensorStore.Ingest | src/supabase/functions/server/index.tsx:39-68 | a missing pH, ORP or conductivity is a 400 that leaves the store untouched; otherwise the reading is stored under `sensor_reading_<stamp>` and in the latest slot, which are the only keys written, and echoed back |
| SensorStore.GetLatest | src/supabase/functions/server/index.tsx:78-84 | 404 exactly when the latest slot is empty, otherwise the slot's value |
| SensorStore.LatestIsStoredReading | src/supabase/functions/server/index.tsx:56-60 | on a well-formed store the latest slot is empty exactly when history is, and otherwise is a reading stored in history under its own stamp |
| SensorStore.IngestThenLatest | src/supabase/functions/server/index.tsx:56-60 | the latest query after a successful ingestion returns exactly the reading just stored |
| SensorStore.ColdStartHasNoData | src/supabase/functions/server/index.tsx:80-82 | with nothing ever stored the latest query answers "no data" |
| SensorStore.StampOf | src/supabase/functions/server/index.tsx:52 | a non-zero client stamp is kept as sent; otherwise the receipt time is used; the stamp is 0 only if the clock reads 0 |
| SensorStore.LogEvent | src/supabase/functions/server/index.tsx:118-130 | the event is the request's fields stamped with the server clock, written under `event_log_<now>`, and nothing else changes |
| SensorStore.KeyInjective | src/supabase/functions/server/index.tsx:56 | distinct stamps give distinct keys within a series |
| SensorStore.KeySpacesDisjoint | src/supabase/functions/server/index.tsx:56-60 | reading keys, event keys and the latest key never share a prefix, so no scan returns the latest slot or the other series |
| SensorStore.EmptyWellFormed | src/supabase/functions/server/index.tsx:97 | the empty store satisfies the store invariant |
| SensorStore.IngestPreservesWellFormed | src/supabase/functions/server/index.tsx:56-60 | ingestion keeps the store invariant |
| SensorStore.LogEventPreservesWellFormed | src/supabase/functions/server/index.tsx:129-130 | logging an event keeps the store invariant |
| SensorStore.IngestHistoryKeys | src/supabase/functions/server/index.tsx:56-57 | a successful ingestion adds exactly its own key to the history scan |
| SensorStore.NewStampGrowsHistory | src/supabase/functions/server/index.tsx:56-57 | a reading with a stamp no stored reading carries grows history by exactly one |
| SensorStore.SameStampCollapses | src/supabase/functions/server/index.tsx:56-57 | a second ingestion with the same stamp replaces the first: history does not grow and holds the later reading |
| SensorStore.SameMillisecondEventsCollide | src/supabase/functions/server/index.tsx:125-130 | two events logged in the same millisecond share one key; only the second is kept |
| StoreQueries.EffectiveLimit | src/supabase/functions/server/index.tsx:94 | an absent or empty `limit` means the endpoint's default, otherwise the parsed number is used as given |
| StoreQueries.InsertNewestFirst | src/supabase/functions/server/index.tsx:100-101 | inserting a value with a fresh stamp into a newest-first list keeps it newest first and adds exactly that value |
| StoreQueries.EntriesAreStored | src/supabase/functions/server/index.tsx:97 | every prefix-scan value is stored under its own key with the series' shape, and the stamps are distinct |
| StoreQueries.EntriesCount | src/supabase/functions/server/index.tsx:97 | the scan yields one value per key |
| StoreQueries.SortNewestFirst | src/supabase/functions/server/index.tsx:100-101 | the sort yields every scanned value once, in strictly decreasing stamp order |
| StoreQueries.Scan | src/supabase/functions/server/index.tsx:97-106 | `count` is the length of `data`, which holds `slice(0, limit)` of the scan, newest first, all stored entries; every stored entry left out is older than every one returned |
| StoreQueries.History | src/supabase/functions/server/index.tsx:94-106 | history listing: `min(N, 50)` readings by default, newest first, all stored readings, the omitted ones older |
| StoreQueries.EventLogs | src/supabase/functions/server/index.tsx:148-160 | event listing: `min(N, 100)` events by default, newest first, all stored events, the omitted ones older |
| StoreQueries.NewestFirstUnique | src/supabase/functions/server/index.tsx:100-101 | two newest-first lists over the same values are equal, so the listing does not depend on the scan order |
| StoreQueries.TailIsRest | src/supabase/functions/server/index.tsx:100-101 | in a newest-first list the values after the head are exactly the other values |
| StoreQueries.LatestOutsideHistory | src/supabase/functions/server/index.tsx:60 | the latest key is in neither prefix scan |
| StoreQueries.SliceLengthIsMin | src/supabase/functions/server/index.tsx:102 | `slice(0, end)` keeps `min(n, end)` for a non-negative end, and drops `min(n, -end)` from the end for a negative one |
| Classifier.Classify | src/components/MainStats.tsx:128-141 | critical exactly when pH is above 8.5 or below 6.5; safe exactly when pH is within [6.8, 8.0] and the step is at most 0.5 |
| Classifier.ClassifyIsWorstVerdict | src/components/MainStats.tsx:132-141 | the state is the worse of the absolute-level verdict and the step verdict |
| Classifier.SeverityMonotoneInStep | src/components/MainStats.tsx:132-141 | a larger step never lowers the verdict |
| Classifier.BoundaryIsWarning | src/components/MainStats.tsx:135-138 | pH exactly 8.5 or 6.5 is a warning, not critical |
| Classifier.InsideBandIsSafe | src/components/MainStats.tsx:135-141 | for any previous value within 0.5, a pH of exactly 8.0 or exactly 6.8 is safe: the warning bounds are inclusive |
| Classifier.WarningBandIsWarning | src/components/MainStats.tsx:135-139 | a pH in (8.0, 8.5] or [6.5, 6.8) is a warning for every previous value |
| Classifier.StepNeverCritical | src/components/MainStats.tsx:135-138 | inside the critical bounds a fast step gives a warning and never critical |
| Monitor.Push | src/components/MainStats.tsx:94-96 | the window keeps the newest `min(len, 15)` old values followed by the new one; its length is `min(len + 1, 16)` |
| Monitor.PushKeepsNewest | src/components/MainStats.tsx:94-96 | pushing onto the newest 16 of a history gives the newest 16 of the extended history |
| Monitor.Reclassify | src/components/MainStats.tsx:126-129 | with fewer than two pH values the state is left alone, otherwise it is classified from the last two |
| Monitor.ClassifiesOnLastTwoPH | src/components/MainStats.tsx:128-129 | windows that agree on the last two pH values classify alike, whatever ORP and conductivity hold |
| Monitor.TransitionRequest | src/components/MainStats.tsx:55-67 | the log request carries the state's tag, type and message and the newest value of each window |
| Monitor.EventLabelsDistinguishStates | src/components/MainStats.tsx:56-62 | different states get different tags, types and messages |
| Monitor.Initial | src/components/MainStats.tsx:30-40 | the start state is valid, connecting, with nothing logged; its windows are the seeds [7.2], [650] and [500] stamped with the mount time, and the live and previous states are the given state |
| Monitor.FirstReadingAgainstSeed | src/components/MainStats.tsx:30-129 | the first delivered reading after mount is classified against the seed pH 7.2 |
| Monitor.PushReading | src/components/MainStats.tsx:93-98 | the three windows end with the reading's values and carry its stamp; on valid windows each grows by one up to 16 |
| Monitor.Observe | src/components/MainStats.tsx:90-112 | a 2xx carrying a reading, or a 404, means connected; anything else, including a 2xx whose body is not JSON, means error; a delivered reading is pushed and takes the clock; without one the windows and clock are unchanged; the state and outbox are never touched |
| Monitor.LogChange | src/components/MainStats.tsx:45-77 | the previous state catches up with the live one; exactly one request describing the live state and the newest readings is appended when they differed, and earlier requests are kept |
| Monitor.OutboxAppend | src/components/MainStats.tsx:45-77 | appending the request of a new state keeps the outbox a record of state changes |
| Monitor.PollOutboxStep | src/components/MainStats.tsx:45-77 | one polling cycle keeps the earlier requests and adds one exactly when the live state changed |
| Monitor.PrefixOfPrefix | src/components/MainStats.tsx:45-77 | a request kept by one cycle stays kept by the next |
| Monitor.PollWindowStep | src/components/MainStats.tsx:93-98 | one cycle leaves the pH window as the newest 16 of the old window and the delivered value, if any |
| Monitor.NewestAfterTwoSteps | src/components/MainStats.tsx:94 | truncating to 16 between two appends does not change the newest 16 |
| Monitor.DeliveredPHSplit | src/components/MainStats.tsx:90-98 | the pH values a run delivers are those of its first tick followed by those of the rest |
| Monitor.PushReadingValid | src/components/MainStats.tsx:93-98 | a pushed reading keeps every window within 1..16 values of equal length, with the old newest pH now second-newest |
| Monitor.LogChangeValid | src/components/MainStats.tsx:45-77 | the logging effect appends one request exactly when the state changed and restores the invariant |
| Monitor.Poll | src/components/MainStats.tsx:90-141 | 2xx with a reading or 404 means connected; anything else, including a 2xx whose body is not JSON, means error; without a reading only link health changes; with one, the windows grow, the clock is taken and the state is classified against the previous newest pH; one log request is posted exactly when the state changed; the invariant is kept |
| Monitor.Run | src/components/MainStats.tsx:116-119 | any run of polling cycles keeps the invariant |
| Monitor.Trace | src/components/MainStats.tsx:116-119 | one live state per cycle |
| Monitor.TraceIsRunStates | src/components/MainStats.tsx:116-119 | entry `i` of the trace is the live state after the first `i + 1` cycles, and the last entry is the state the whole run ends in |
| Monitor.TraceRunStep | src/components/MainStats.tsx:116-119 | the first cycle of a run, split off from both the trace and the run |
| Monitor.RunLogsEachChangeOnce | src/components/MainStats.tsx:45-77 | over any run, earlier log requests are kept, and exactly one new request is posted per change of the live state |
| Monitor.SteadyRunLogsNothing | src/components/MainStats.tsx:45-77 | a run that never leaves the current state posts nothing |
| Monitor.NoChangesInConstant | src/components/MainStats.tsx:46 | a constant state sequence has no changes |
| Monitor.RunWindowIsNewestSixteen | src/components/MainStats.tsx:94 | after any run the pH window is the newest 16 of its old contents followed by every delivered value |
| Monitor.LastNOfLastN | src/components/MainStats.tsx:94 | truncating to 16 before appending does not change the newest 16 after |
| Monitor.ScenarioSmallStepStaysSafe | src/components/MainStats.tsx:128-141 | 7.2 then 7.3 stays safe and posts nothing |
| Monitor.ScenarioFastSwingWarns | src/components/MainStats.tsx:135-141 | 7.2 then 7.8 is a warning and posts one WARNING request |
| Monitor.ScenarioRecoveryAfterFailures | src/components/MainStats.tsx:90-112 | failed fetches leave the windows and state alone and set error; the next good fetch reconnects and pushes |
| LogsView.Filter | src/components/LogsView.tsx:77 | an element is kept exactly when it is present and passes the predicate |
| LogsView.FilterIsSubsequence | src/components/LogsView.tsx:77-94 | filtering only deletes, so order is preserved |
| LogsView.FilterExtensional | src/components/LogsView.tsx:77-94 | predicates that agree on the entries select alike |
| LogsView.FilterFuse | src/components/LogsView.tsx:73-95 | filtering twice is filtering once by the conjunction |
| LogsView.FilterCommutes | src/components/LogsView.tsx:73-95 | the stages can be applied in any order |
| LogsView.FilterKeepsAll | src/components/LogsView.tsx:73 | a filter every entry passes keeps the whole list |
| LogsView.MatchesQuery | src/components/LogsView.tsx:86-94 | an entry matches exactly when the lower-cased query occurs in one of its five search texts: message, type, state, date or time |
| LogsView.FilterLogs | src/components/LogsView.tsx:73-97 | the filtered list holds only fetched entries and is never longer than the fetched list |
| LogsView.OptionalStage | src/components/LogsView.tsx:76-95 | a stage applied only when its control is active is one filter by "inactive or passes" |
| LogsView.StateKindStages | src/components/LogsView.tsx:74-82 | the state stage followed by the type stage is one filter by both controls |
| LogsView.FilterLogsIsConjunction | src/components/LogsView.tsx:73-97 | the staged pipeline is a single filter by the conjunction of the active controls |
| LogsView.FilterLogsSpec | src/components/LogsView.tsx:73-97 | the filtered list is an order-preserving subsequence holding exactly the entries that pass every active control; state and type filters are exact; with all/all/blank it is the fetched list |
| LogsView.SearchIgnoresQueryCase | src/components/LogsView.tsx:86-94 | queries that lower-case alike select alike |
| LogsView.SearchDoesNotTrimQuery | src/components/LogsView.tsx:86-94 | only the emptiness test trims: under any locale whose date and time texts do not contain "safe ", the query "safe " does not find an entry that "safe" finds |
| LogsView.SafeQueriesNotBlank | src/components/LogsView.tsx:86 | "safe" and "safe " both count as active searches |
| LogsView.SafeEntryMatches | src/components/LogsView.tsx:87-94 | the query "safe" finds an entry of type "SAFE", and "safe " does not unless the date or time text contains it |
| LogsView.FilterKeepsNewestFirst | src/components/LogsView.tsx:77-94 | filtering a newest-first list leaves it newest first |
| LogsView.FilterKeepsPairwise | src/components/LogsView.tsx:77-94 | an order relation that holds between every earlier and later entry still holds after filtering |
| LogsView.AsValues | src/components/LogsView.tsx:52 | the entries as store values, position by position |
| LogsView.EventsNewestFirstIff | src/components/LogsView.tsx:52 | a list of entries is newest first exactly when every earlier entry has a larger stamp than every later one |
| LogsView.EventsOfRoundTrip | src/components/LogsView.tsx:52 | turning the reply's events into entries and back gives the reply's data |
| LogsView.FiltersOnlyTheNewestHundred | src/components/LogsView.tsx:44-52 | with the `limit=100` reply, the screen shows at most 100 entries, each from that reply |
| LogsView.FilteredListingNewestFirst | src/components/LogsView.tsx:73-97 | the filtered view of a newest-first list is newest first |
| LogsView.EventsOf | src/components/LogsView.tsx:52 | the reply's `data` array becomes the entry list element for element |
| LogsView.ListingReachesScreenInOrder | src/components/LogsView.tsx:73-97 | the server's newest-first event listing stays newest first through the view's filters |
| LogsView.Kinds | src/components/LogsView.tsx:38 | the type of each entry, position by position |
| LogsView.FirstIndex | src/components/LogsView.tsx:38 | the first position of a value |
| LogsView.LogTypes | src/components/LogsView.tsx:38 | `all` first, then every fetched type exactly once, in first-occurrence order |
| LogsView.ApplyLogsFetch | src/components/LogsView.tsx:50-59 | an ok reply replaces the entries with `data`, or with none when `data` is missing; a non-ok reply or a thrown error keeps them; loading ends either way |
| LogsView.FailedRefreshKeepsView | src/components/LogsView.tsx:53-59 | a failed refresh leaves the filtered list unchanged whatever the filters |
| Text.NatToString | src/supabase/functions/server/index.tsx:56 | the decimal numeral of a stamp: non-empty, digits only |
| Text.IntToString | src/supabase/functions/server/index.tsx:56 | a minus sign exactly for negative stamps |
| Text.NatToStringInjective | src/supabase/functions/server/index.tsx:56 | distinct naturals print differently |
| Text.IntToStringInjective | src/supabase/functions/server/index.tsx:56 | distinct integers print differently |
| Text.PrefixCancel | src/supabase/functions/server/index.tsx:56 | a shared prefix can be cancelled |
| Text.IncludesIffOccurs | src/components/LogsView.tsx:89-93 | `includes` is true exactly when the needle occurs at some position |
| Text.IncludesNeedsRoom | src/components/LogsView.tsx:89-93 | a needle longer than the text is never found |
| Text.Lower | src/components/LogsView.tsx:87-91 | lower-casing keeps the length and maps each character |
| Text.TrimStart | src/components/LogsView.tsx:86 | the suffix left after leading whitespace, which starts with a non-whitespace character; empty exactly when the whole string is whitespace |
| Text.TrimEnd | src/components/LogsView.tsx:86 | the prefix left after trailing whitespace, which ends with a non-whitespace character; empty exactly when the whole string is whitespace |
| Text.Trim | src/components/LogsView.tsx:86 | `trim()` is empty exactly when every character is ECMAScript whitespace or a line terminator, and otherwise starts and ends with a non-whitespace character |
| Text.IsBlank | src/components/LogsView.tsx:86 | every character is whitespace exactly when `trim()` gives the empty, falsy string |
| Text.LowerStable | src/components/LogsView.tsx:86-87 | lower-casing is idempotent and does not change blankness |
| Text.DigitChar | src/supabase/functions/server/index.tsx:56 | a digit below ten prints as a decimal digit |

## Left out

- HTTP, CORS and the request logger, the Supabase client and the health endpoint are not modelled; they carry no decision logic. The KV store module `kv_store.tsx` is not part of this model: it is a map with a prefix scan here, and storage failures and partial writes are left out. So are the 500 replies every handler gives when anything throws, whether a storage failure or a body that is not JSON.
- Number parsing is left out. `parseFloat` and `parseInt` are outside the model: readings arrive as `real`, the limit as `Option<int>`, and NaN is not modelled. Readings are exact reals, not IEEE doubles, so a step that rounds to exactly 0.5 may classify differently.
- Only the value of the JSON bodies is modelled; the bodies themselves are not. A reply without `data` is `None`, and the `success`/`message` fields of replies are not modelled.
- Timers, React effect scheduling and concurrency are left out. The 2 s and 5 s polls are a sequence of `Tick`s, and concurrent ingestions racing on the latest slot are not modelled.
- The keyboard and focus handling, `AlertBanner.tsx`, `ChartBar.tsx`, `KeyboardHint.tsx`, `MainMenu.tsx`, `SettingsView.tsx`, `Desktop.tsx`, `glitch.tsx` and `App.tsx` are left out. They are presentation only, and App.tsx imports a name glitch.tsx does not export.
- SensorStore.StampOf: stamps are integers. The code stores whatever JSON value arrives (a fraction, a numeric string) and keys it by its JavaScript rendering, which switches to exponent form (`1e+21`) from 10^21 up; neither is modelled.
- Monitor.Observe: a 2xx whose body is JSON but not a reading (`{}` or `null`, say) is not modelled. The code reports connected and takes the clock for it, and then fails only when rendering the missing values; a reading here always carries its three measurements and a stamp.
- Monitor.Poll: a 2xx whose body is JSON but not a reading is not modelled, for the reason given for `Monitor.Observe`; the model's absent body stands only for a body that is not JSON.
- Monitor.Poll: the parent component is assumed to feed `onStateChange`'s argument back as the `systemState` prop before the next cycle. In the code the live state is a prop, the classifier only calls `onStateChange`, and the logging effect compares the prop with the remembered previous state. The stub `App.tsx` does no such wiring. The outbox clause of `Poll`, `Monitor.RunLogsEachChangeOnce` and `Monitor.SteadyRunLogsNothing` rest on this assumption.
- SensorStore.LogEvent: the body is not validated in the code. A body missing `type`, `message` or `systemState` is stored without that field, and the log screen's search would then throw on the missing field; `LogRequest` types all three as strings, so such bodies are not modelled. A body that is not JSON makes the handler answer 500, which is not modelled either.
- Monitor.Poll: the POST /log-event request goes into an outbox; its network outcome is ignored, as the component ignores it.
- Monitor.Poll: the classification and logging effects run after a delivered reading only. The logging effect also re-runs when the windows change, but it posts only on a state change, which is what is modelled.
- Text.Lower: only ASCII letters are lower-cased; full Unicode `toLowerCase` is not modelled.
- LogsView.MatchesQuery: the locale date and time strings are parameters (`Locale`), because locale formatting is outside the model.
- LogsView.LogTypes: a fetched type that is literally "all" appears a second time after the sentinel, as in the code.
- Classifier.Classify: the thresholds are the code's constants, not a configuration.
