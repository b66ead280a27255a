/**
 * The event-log screen: the fetched entries, the filter pipeline (exact
 * state, exact type, case-insensitive free-text search) and the list of
 * distinct event types offered in the type drop-down.
 */
module LogsView {
  import opened Wrappers
  import opened SensorStore
  import Text
  import StoreQueries

  // ---------------------------------------------------------------------
  // Order-preserving filtering
  // ---------------------------------------------------------------------

  /** `s.filter(keep)`. */
  function Filter<T(!new)>(s: seq<T>, keep: T -> bool): (r: seq<T>)
    ensures |r| <= |s|
    ensures forall x :: x in r <==> x in s && keep(x)
    decreases |s|
  {
    if |s| == 0 then []
    else (if keep(s[0]) then [s[0]] else []) + Filter(s[1..], keep)
  }

  /** `a` can be obtained from `b` by deleting elements. */
  predicate IsSubsequence<T(==)>(a: seq<T>, b: seq<T>)
    decreases |b|
  {
    |a| == 0 || (|b| > 0 && ((a[0] == b[0] && IsSubsequence(a[1..], b[1..])) || IsSubsequence(a, b[1..])))
  }

  /** Filtering only deletes: the survivors keep their relative order. */
  lemma {:induction false} FilterIsSubsequence<T(!new)>(s: seq<T>, keep: T -> bool)
    ensures IsSubsequence(Filter(s, keep), s)
    decreases |s|
  {
    if |s| > 0 {
      FilterIsSubsequence(s[1..], keep);
      var r := Filter(s, keep);
      if keep(s[0]) {
        assert r[0] == s[0] && r[1..] == Filter(s[1..], keep);
      } else {
        assert r == Filter(s[1..], keep);
      }
    }
  }

  /** Filters that agree on the elements present select the same entries. */
  lemma {:induction false} FilterExtensional<T(!new)>(s: seq<T>, p: T -> bool, q: T -> bool)
    requires forall x :: x in s ==> p(x) == q(x)
    ensures Filter(s, p) == Filter(s, q)
    decreases |s|
  {
    if |s| > 0 {
      assert s[0] in s;
      assert forall x :: x in s[1..] ==> x in s;
      FilterExtensional(s[1..], p, q);
    }
  }

  /** Filtering twice is filtering once by the conjunction. */
  lemma {:induction false} FilterFuse<T(!new)>(s: seq<T>, p: T -> bool, q: T -> bool, both: T -> bool)
    requires forall x :: both(x) == (p(x) && q(x))
    ensures Filter(Filter(s, p), q) == Filter(s, both)
    decreases |s|
  {
    if |s| > 0 {
      FilterFuse(s[1..], p, q, both);
      if p(s[0]) {
        assert Filter(s, p) == [s[0]] + Filter(s[1..], p);
        assert Filter(s, p)[1..] == Filter(s[1..], p);
      } else {
        assert Filter(s, p) == Filter(s[1..], p);
      }
    }
  }

  /** The order in which two filters are applied does not matter. */
  lemma FilterCommutes<T(!new)>(s: seq<T>, p: T -> bool, q: T -> bool)
    ensures Filter(Filter(s, p), q) == Filter(Filter(s, q), p)
  {
    var both := (x: T) => p(x) && q(x);
    FilterFuse(s, p, q, both);
    FilterFuse(s, q, p, both);
  }

  /** A filter every element passes keeps the whole sequence. */
  lemma {:induction false} FilterKeepsAll<T(!new)>(s: seq<T>, keep: T -> bool)
    requires forall x :: x in s ==> keep(x)
    ensures Filter(s, keep) == s
    decreases |s|
  {
    if |s| > 0 {
      assert s[0] in s;
      assert forall x :: x in s[1..] ==> x in s;
      FilterKeepsAll(s[1..], keep);
      assert s == [s[0]] + s[1..];
    }
  }

  // ---------------------------------------------------------------------
  // The filter pipeline
  // ---------------------------------------------------------------------

  /** The sentinel both drop-downs use for "no filter". */
  const All: string := "all"

  /** The three controls: state drop-down, type drop-down, search box. */
  datatype Filters = Filters(state: string, kind: string, query: string)

  /** The browser's `toLocaleDateString` / `toLocaleTimeString` of a timestamp. */
  datatype Locale = Locale(dateText: int -> string, timeText: int -> string)

  /** The five texts the search looks in: lower-cased type, message and state, then the date and time text. */
  function SearchTexts(e: Event, locale: Locale): seq<string> {
    [Text.Lower(e.kind), Text.Lower(e.message), Text.Lower(e.systemState),
     locale.dateText(e.timestamp), locale.timeText(e.timestamp)]
  }

  /**
   * The search predicate: the lower-cased query is a substring of the
   * lower-cased type, message or state, or of the (not lower-cased) date
   * or time text.
   */
  function MatchesQuery(e: Event, query: string, locale: Locale): (b: bool)
    ensures b <==> exists t, i :: t in SearchTexts(e, locale) && Text.OccursAt(t, Text.Lower(query), i)
  {
    var q := Text.Lower(query);
    Text.IncludesIffOccurs(Text.Lower(e.kind), q);
    Text.IncludesIffOccurs(Text.Lower(e.message), q);
    Text.IncludesIffOccurs(Text.Lower(e.systemState), q);
    Text.IncludesIffOccurs(locale.dateText(e.timestamp), q);
    Text.IncludesIffOccurs(locale.timeText(e.timestamp), q);
    || Text.Includes(Text.Lower(e.kind), q)
    || Text.Includes(Text.Lower(e.message), q)
    || Text.Includes(Text.Lower(e.systemState), q)
    || Text.Includes(locale.dateText(e.timestamp), q)
    || Text.Includes(locale.timeText(e.timestamp), q)
  }

  /** The state stage: exact match, skipped when the control reads `all`. */
  function ByState(entries: seq<Event>, f: Filters): seq<Event> {
    if f.state != All then Filter(entries, (e: Event) => e.systemState == f.state) else entries
  }

  /** The type stage: exact match, skipped when the control reads `all`. */
  function ByKind(entries: seq<Event>, f: Filters): seq<Event> {
    if f.kind != All then Filter(entries, (e: Event) => e.kind == f.kind) else entries
  }

  /** The search stage: skipped when the trimmed query is empty. */
  function BySearch(entries: seq<Event>, f: Filters, locale: Locale): seq<Event> {
    if !Text.IsBlank(f.query) then Filter(entries, (e: Event) => MatchesQuery(e, f.query, locale)) else entries
  }

  /** The filter effect, stage by stage: state, then type, then search. */
  function FilterLogs(entries: seq<Event>, f: Filters, locale: Locale): (r: seq<Event>)
    ensures |r| <= |entries|
    ensures forall e :: e in r ==> e in entries
  {
    BySearch(ByKind(ByState(entries, f), f), f, locale)
  }

  /** An entry survives exactly when it passes every active control. */
  predicate Selected(e: Event, f: Filters, locale: Locale) {
    && (f.state == All || e.systemState == f.state)
    && (f.kind == All || e.kind == f.kind)
    && (Text.IsBlank(f.query) || MatchesQuery(e, f.query, locale))
  }

  /** `Selected` as a filter argument. */
  function Selector(f: Filters, locale: Locale): Event -> bool {
    (e: Event) => Selected(e, f, locale)
  }

  /** A stage that filters only when its control is active is a filter by "inactive or passes". */
  lemma OptionalStage<T(!new)>(s: seq<T>, active: bool, keep: T -> bool, guarded: T -> bool)
    requires forall x :: guarded(x) == (!active || keep(x))
    ensures (if active then Filter(s, keep) else s) == Filter(s, guarded)
  {
    if active {
      FilterExtensional(s, keep, guarded);
    } else {
      FilterKeepsAll(s, guarded);
    }
  }

  /** The state and type controls together, as one predicate. */
  function StateKindSelector(f: Filters): Event -> bool {
    (e: Event) => (f.state == All || e.systemState == f.state) && (f.kind == All || e.kind == f.kind)
  }

  /** The state stage followed by the type stage is one filter by both controls. */
  lemma StateKindStages(entries: seq<Event>, f: Filters)
    ensures ByKind(ByState(entries, f), f) == Filter(entries, StateKindSelector(f))
  {
    var byStateP := (e: Event) => f.state == All || e.systemState == f.state;
    var byKindP := (e: Event) => f.kind == All || e.kind == f.kind;
    OptionalStage(entries, f.state != All, (e: Event) => e.systemState == f.state, byStateP);
    OptionalStage(ByState(entries, f), f.kind != All, (e: Event) => e.kind == f.kind, byKindP);
    FilterFuse(entries, byStateP, byKindP, StateKindSelector(f));
  }

  /** The staged pipeline is one filter by the conjunction of the active controls. */
  lemma FilterLogsIsConjunction(entries: seq<Event>, f: Filters, locale: Locale)
    ensures FilterLogs(entries, f, locale) == Filter(entries, Selector(f, locale))
  {
    StateKindStages(entries, f);
    var searchP := (e: Event) => Text.IsBlank(f.query) || MatchesQuery(e, f.query, locale);
    OptionalStage(ByKind(ByState(entries, f), f), !Text.IsBlank(f.query), (e: Event) => MatchesQuery(e, f.query, locale), searchP);
    FilterFuse(entries, StateKindSelector(f), searchP, Selector(f, locale));
  }

  /**
   * What the filtered list is: an order-preserving selection of the
   * fetched entries, containing exactly those that pass every active
   * control; with every control off it is the fetched list itself.
   */
  lemma FilterLogsSpec(entries: seq<Event>, f: Filters, locale: Locale)
    ensures var r := FilterLogs(entries, f, locale);
      && IsSubsequence(r, entries)
      && (forall e :: e in r <==> e in entries && Selected(e, f, locale))
      && (f.state != All ==> forall e :: e in r ==> e.systemState == f.state)
      && (f.kind != All ==> forall e :: e in r ==> e.kind == f.kind)
      && (f.state == All && f.kind == All && Text.IsBlank(f.query) ==> r == entries)
  {
    FilterLogsIsConjunction(entries, f, locale);
    FilterIsSubsequence(entries, Selector(f, locale));
    if f.state == All && f.kind == All && Text.IsBlank(f.query) {
      FilterKeepsAll(entries, Selector(f, locale));
    }
  }

  /** Search is case-insensitive in the query: queries that lower-case alike select alike. */
  lemma SearchIgnoresQueryCase(entries: seq<Event>, f: Filters, query: string, locale: Locale)
    requires Text.Lower(query) == Text.Lower(f.query)
    ensures FilterLogs(entries, f.(query := query), locale) == FilterLogs(entries, f, locale)
  {
    Text.LowerStable(query);
    Text.LowerStable(f.query);
    FilterLogsIsConjunction(entries, f.(query := query), locale);
    FilterLogsIsConjunction(entries, f, locale);
    forall e: Event
      ensures Selected(e, f.(query := query), locale) == Selected(e, f, locale)
    {
      assert MatchesQuery(e, query, locale) == MatchesQuery(e, f.query, locale);
    }
    FilterExtensional(entries, Selector(f.(query := query), locale), Selector(f, locale));
  }

  /**
   * Only the emptiness test trims the query: "safe " (trailing space) is an
   * active search that does not find an entry "safe" finds.
   */
  lemma SearchDoesNotTrimQuery(locale: Locale)
    requires !Text.Includes(locale.dateText(0), "safe ") && !Text.Includes(locale.timeText(0), "safe ")
    ensures var e := Event("SAFE", "ok", "safe", None, 0);
      && FilterLogs([e], Filters(All, All, "safe"), locale) == [e]
      && FilterLogs([e], Filters(All, All, "safe "), locale) == []
  {
    var e := Event("SAFE", "ok", "safe", None, 0);
    SafeQueriesNotBlank();
    SafeEntryMatches(locale);
    assert FilterLogs([e], Filters(All, All, "safe"), locale) == Filter([e], (x: Event) => MatchesQuery(x, "safe", locale));
    assert FilterLogs([e], Filters(All, All, "safe "), locale) == Filter([e], (x: Event) => MatchesQuery(x, "safe ", locale));
  }

  /** Neither "safe" nor "safe " trims to the empty string. */
  lemma SafeQueriesNotBlank()
    ensures !Text.IsBlank("safe") && !Text.IsBlank("safe ")
  {
    assert !Text.IsWhitespace("safe"[0]);
    assert !Text.IsWhitespace("safe "[0]);
  }

  /** "safe" finds the entry through its type; "safe " is longer than every searched text but the date and time. */
  lemma SafeEntryMatches(locale: Locale)
    requires !Text.Includes(locale.dateText(0), "safe ") && !Text.Includes(locale.timeText(0), "safe ")
    ensures MatchesQuery(Event("SAFE", "ok", "safe", None, 0), "safe", locale)
    ensures !MatchesQuery(Event("SAFE", "ok", "safe", None, 0), "safe ", locale)
  {
    assert Text.Lower("SAFE") == "safe";
    assert Text.Lower("safe") == "safe";
    assert Text.Lower("safe ") == "safe ";
    assert Text.Includes("safe", "safe");
    if Text.Includes("safe", "safe ") { Text.IncludesNeedsRoom("safe", "safe "); }
    if Text.Includes(Text.Lower("ok"), "safe ") { Text.IncludesNeedsRoom(Text.Lower("ok"), "safe "); }
  }

  /** The entries as the store values they were listed as. */
  function AsValues(s: seq<Event>): (r: seq<Value>)
    ensures |r| == |s|
    ensures forall i :: 0 <= i < |s| ==> r[i] == EventValue(s[i])
  {
    seq(|s|, i requires 0 <= i < |s| => EventValue(s[i]))
  }

  /** Newest first, in the sense the event listing promises. */
  predicate EventsNewestFirst(s: seq<Event>) {
    StoreQueries.NewestFirst(AsValues(s))
  }

  /** Newest first, spelled out on the entries' own stamps. */
  lemma EventsNewestFirstIff(s: seq<Event>)
    ensures EventsNewestFirst(s) <==> forall i, j :: 0 <= i < j < |s| ==> s[i].timestamp > s[j].timestamp
  {
    var v := AsValues(s);
    assert forall i :: 0 <= i < |s| ==> v[i].Timestamp() == s[i].timestamp;
  }

  /** Filtering a newest-first list leaves it newest first. */
  lemma FilterKeepsNewestFirst(s: seq<Event>, keep: Event -> bool)
    requires EventsNewestFirst(s)
    ensures EventsNewestFirst(Filter(s, keep))
  {
    var newer := (a: Event, b: Event) => a.timestamp > b.timestamp;
    EventsNewestFirstIff(s);
    assert Pairwise(s, newer);
    FilterKeepsPairwise(s, keep, newer);
    EventsNewestFirstIff(Filter(s, keep));
  }

  /** Every earlier element stands in relation `before` to every later one. */
  predicate Pairwise<T>(s: seq<T>, before: (T, T) -> bool) {
    forall i, j :: 0 <= i < j < |s| ==> before(s[i], s[j])
  }

  /** Filtering keeps any pairwise order: survivors keep their relative positions. */
  lemma {:induction false} FilterKeepsPairwise<T(!new)>(s: seq<T>, keep: T -> bool, before: (T, T) -> bool)
    requires Pairwise(s, before)
    ensures Pairwise(Filter(s, keep), before)
    decreases |s|
  {
    if |s| > 0 {
      FilterKeepsPairwise(s[1..], keep, before);
      var tail := Filter(s[1..], keep);
      forall x | x in tail
        ensures before(s[0], x)
      {
        var j :| 0 <= j < |s[1..]| && s[1..][j] == x;
        assert s[j + 1] == x;
      }
    }
  }

  /** The server's event listing, shown through any filters, is still newest first. */
  lemma FilteredListingNewestFirst(entries: seq<Event>, f: Filters, locale: Locale)
    requires EventsNewestFirst(entries)
    ensures EventsNewestFirst(FilterLogs(entries, f, locale))
  {
    FilterLogsIsConjunction(entries, f, locale);
    FilterKeepsNewestFirst(entries, Selector(f, locale));
  }

  /** The `data` array of an /event-logs reply as the screen holds it. */
  function EventsOf(data: seq<Value>): (r: seq<Event>)
    requires forall v :: v in data ==> v.EventValue?
    ensures |r| == |data|
    ensures forall i :: 0 <= i < |data| ==> EventValue(r[i]) == data[i]
  {
    assert forall i :: 0 <= i < |data| ==> data[i] in data;
    seq(|data|, i requires 0 <= i < |data| => data[i].event)
  }

  /** Reading the reply loses nothing: the entries are exactly the listed values. */
  lemma EventsOfRoundTrip(data: seq<Value>)
    requires forall v :: v in data ==> v.EventValue?
    ensures AsValues(EventsOf(data)) == data
  {
  }

  /**
   * The server's event listing, once fetched and filtered, is still newest
   * first: the screen never reorders what the store query sorted.
   */
  lemma ListingReachesScreenInOrder(resp: StoreQueries.Listing, f: Filters, locale: Locale)
    requires forall v :: v in resp.data ==> v.EventValue?
    requires StoreQueries.NewestFirst(resp.data)
    ensures EventsNewestFirst(FilterLogs(EventsOf(resp.data), f, locale))
  {
    EventsOfRoundTrip(resp.data);
    FilteredListingNewestFirst(EventsOf(resp.data), f, locale);
  }

  /**
   * The screen asks for `limit=100`, so it filters at most the 100 newest
   * stored events: the search never reaches an older one, and the filtered
   * list never exceeds 100 entries.
   */
  lemma FiltersOnlyTheNewestHundred(resp: StoreQueries.Listing, n: nat, f: Filters, locale: Locale)
    requires forall v :: v in resp.data ==> v.EventValue?
    requires |resp.data| == StoreQueries.SliceLength(n, 100)
    ensures |FilterLogs(EventsOf(resp.data), f, locale)| <= 100
    ensures forall e :: e in FilterLogs(EventsOf(resp.data), f, locale) ==> EventValue(e) in resp.data
  {
    var entries := EventsOf(resp.data);
    StoreQueries.SliceLengthIsMin(n, 100);
    FilterLogsIsConjunction(entries, f, locale);
    forall e | e in FilterLogs(entries, f, locale)
      ensures EventValue(e) in resp.data
    {
      var i :| 0 <= i < |entries| && entries[i] == e;
    }
  }

  // ---------------------------------------------------------------------
  // The type drop-down
  // ---------------------------------------------------------------------

  predicate NoDuplicates<T(==)>(s: seq<T>) {
    forall i, j :: 0 <= i < j < |s| ==> s[i] != s[j]
  }

  function Kinds(entries: seq<Event>): (ks: seq<string>)
    ensures |ks| == |entries|
    ensures forall i :: 0 <= i < |entries| ==> ks[i] == entries[i].kind
  {
    seq(|entries|, i requires 0 <= i < |entries| => entries[i].kind)
  }

  /** Position of the first occurrence of `x`. */
  function FirstIndex<T(==)>(s: seq<T>, x: T): (i: nat)
    requires x in s
    ensures i < |s| && s[i] == x && x !in s[..i]
  {
    if s[0] == x then 0 else 1 + FirstIndex(s[1..], x)
  }

  /**
   * `['all', ...new Set(types)]`: the sentinel, then each fetched type once,
   * in order of first appearance.
   */
  method LogTypes(entries: seq<Event>) returns (options: seq<string>)
    ensures |options| >= 1 && options[0] == All
    ensures NoDuplicates(options[1..])
    ensures forall t :: t in options[1..] <==> t in Kinds(entries)
    ensures forall i, j :: 1 <= i < j < |options| ==>
      FirstIndex(Kinds(entries), options[i]) < FirstIndex(Kinds(entries), options[j])
  {
    var kinds := Kinds(entries);
    var seen: seq<string> := [];
    var n := 0;
    while n < |kinds|
      invariant n <= |kinds|
      invariant NoDuplicates(seen)
      invariant forall t :: t in seen <==> t in kinds[..n]
      invariant forall i :: 0 <= i < |seen| ==> seen[i] in kinds && FirstIndex(kinds, seen[i]) < n
      invariant forall i, j :: 0 <= i < j < |seen| ==> FirstIndex(kinds, seen[i]) < FirstIndex(kinds, seen[j])
    {
      var t := kinds[n];
      assert kinds[..n + 1] == kinds[..n] + [t];
      if t !in seen {
        assert FirstIndex(kinds, t) == n;
        seen := seen + [t];
      }
      n := n + 1;
    }
    assert kinds[..n] == kinds;
    options := [All] + seen;
    assert options[1..] == seen;
  }

  // ---------------------------------------------------------------------
  // Fetching
  // ---------------------------------------------------------------------

  /** The screen's data: the fetched entries and whether the first fetch is still pending. */
  datatype LogsState = LogsState(entries: seq<Event>, loading: bool)

  /** Outcome of GET /event-logs?limit=100: an ok reply whose `data` may be missing, a non-ok reply, or a thrown error. */
  datatype LogsFetch = Fetched(data: Option<seq<Event>>) | NotOk | Thrown

  /** The fetch handler. */
  function ApplyLogsFetch(v: LogsState, f: LogsFetch): (r: LogsState)
    ensures !r.loading
    ensures f.Fetched? && f.data.Some? ==> r.entries == f.data.value
    ensures f.Fetched? && f.data.None? ==> r.entries == []
    ensures !f.Fetched? ==> r.entries == v.entries
  {
    match f
    case Fetched(data) => LogsState(data.GetOr([]), false)
    case NotOk => v.(loading := false)
    case Thrown => v.(loading := false)
  }

  /** A failed refresh leaves the list on screen exactly as it was, whatever the filters. */
  lemma FailedRefreshKeepsView(v: LogsState, f: LogsFetch, filters: Filters, locale: Locale)
    requires !f.Fetched?
    ensures FilterLogs(ApplyLogsFetch(v, f).entries, filters, locale) == FilterLogs(v.entries, filters, locale)
  {
  }
}
