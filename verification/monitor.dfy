/**
 * One cycle of the dashboard's polling loop: fetch the latest reading,
 * push it into the per-metric windows, reclassify, and ask the server to
 * log an event when the safety state changed.
 *
 * The component's effects are written as explicit step functions: the
 * fetch handler, the classification effect (which runs whenever a reading
 * was pushed) and the logging effect (which runs when the state or the
 * windows changed and posts only on a real state change).
 */
module Monitor {
  import opened Wrappers
  import opened SensorStore
  import opened Classifier

  // ---------------------------------------------------------------------
  // Bounded windows
  // ---------------------------------------------------------------------

  const WindowCapacity: nat := 16

  /** `[...w.slice(-15), x]`: keep at most the 15 newest old values, then append. */
  function Push(w: seq<real>, x: real): (r: seq<real>)
    ensures |r| == if |w| < WindowCapacity then |w| + 1 else WindowCapacity
    ensures r[|r| - 1] == x
    ensures r[..|r| - 1] == w[|w| - (|r| - 1)..]
  {
    (if |w| <= WindowCapacity - 1 then w else w[|w| - (WindowCapacity - 1)..]) + [x]
  }

  /** The newest `n` elements of `s`. */
  function LastN(n: nat, s: seq<real>): seq<real> {
    if |s| <= n then s else s[|s| - n..]
  }

  /** Pushing onto the newest sixteen of a history gives the newest sixteen of the longer history. */
  lemma PushKeepsNewest(s: seq<real>, x: real)
    ensures Push(LastN(WindowCapacity, s), x) == LastN(WindowCapacity, s + [x])
  {
    var w := LastN(WindowCapacity, s);
    if |s| > WindowCapacity {
      assert w[|w| - (WindowCapacity - 1)..] == s[|s| - (WindowCapacity - 1)..];
      assert (s + [x])[|s + [x]| - WindowCapacity..] == s[|s| - (WindowCapacity - 1)..] + [x];
    } else if |s| == WindowCapacity {
      assert (s + [x])[|s + [x]| - WindowCapacity..] == s[1..] + [x];
    }
  }

  /** The three charted series and the stamp of the newest reading. */
  datatype Windows = Windows(pH: seq<real>, orp: seq<real>, conductivity: seq<real>, timestamp: int)

  /** The fetch handler's update: every window takes the new value, and the stamp is the reading's. */
  function PushReading(w: Windows, r: Reading): (n: Windows)
    ensures n.timestamp == r.timestamp
    ensures |n.pH| >= 1 && |n.orp| >= 1 && |n.conductivity| >= 1
    ensures n.pH[|n.pH| - 1] == r.pH && n.orp[|n.orp| - 1] == r.orp && n.conductivity[|n.conductivity| - 1] == r.conductivity
    ensures WindowsValid(w) ==> WindowsValid(n) && |n.pH| == (if |w.pH| < WindowCapacity then |w.pH| + 1 else WindowCapacity)
  {
    Windows(Push(w.pH, r.pH), Push(w.orp, r.orp), Push(w.conductivity, r.conductivity), r.timestamp)
  }

  /** Every window holds between 1 and 16 values, and the three have one length. */
  predicate WindowsValid(w: Windows) {
    && 1 <= |w.pH| <= WindowCapacity
    && |w.orp| == |w.pH|
    && |w.conductivity| == |w.pH|
  }

  // ---------------------------------------------------------------------
  // Classification and the event it triggers
  // ---------------------------------------------------------------------

  /** The classification effect: nothing is decided until there are two pH values. */
  function Reclassify(w: Windows, current: SystemState): (s: SystemState)
    ensures |w.pH| < 2 ==> s == current
    ensures |w.pH| >= 2 ==> s == Classify(w.pH[|w.pH| - 1], w.pH[|w.pH| - 2])
  {
    if |w.pH| < 2 then current else Classify(w.pH[|w.pH| - 1], w.pH[|w.pH| - 2])
  }

  /** Two windows that agree on their last two pH values classify alike, whatever ORP and conductivity hold. */
  lemma ClassifiesOnLastTwoPH(w1: Windows, w2: Windows, current: SystemState)
    requires |w1.pH| >= 2 && |w2.pH| >= 2
    requires w1.pH[|w1.pH| - 1] == w2.pH[|w2.pH| - 1] && w1.pH[|w1.pH| - 2] == w2.pH[|w2.pH| - 2]
    ensures Reclassify(w1, current) == Reclassify(w2, current)
  {
  }

  function StateName(s: SystemState): string {
    match s
    case Safe => "safe"
    case Warning => "warning"
    case Critical => "critical"
  }

  function EventKind(s: SystemState): string {
    match s
    case Safe => "SAFE"
    case Warning => "WARNING"
    case Critical => "CRITICAL_ALERT"
  }

  function EventMessage(s: SystemState): string {
    match s
    case Safe => "System normal"
    case Warning => "Logic alert - pH change detected"
    case Critical => "PUMP POWER SEVERED - Dangerous pH detected"
  }

  /** The POST /log-event body for a change to `s`, carrying the newest value of each window. */
  function TransitionRequest(s: SystemState, w: Windows): (req: LogRequest)
    requires WindowsValid(w)
    ensures req.systemState == StateName(s) && req.kind == EventKind(s) && req.message == EventMessage(s)
    ensures req.sensorData == Some(Snapshot(w.pH[|w.pH| - 1], w.orp[|w.orp| - 1], w.conductivity[|w.conductivity| - 1]))
  {
    LogRequest(EventKind(s), EventMessage(s), StateName(s),
      Some(Snapshot(w.pH[|w.pH| - 1], w.orp[|w.orp| - 1], w.conductivity[|w.conductivity| - 1])))
  }

  /** The state tag, the event type and the message each identify the state. */
  lemma EventLabelsDistinguishStates(a: SystemState, b: SystemState)
    ensures a != b ==> StateName(a) != StateName(b) && EventKind(a) != EventKind(b) && EventMessage(a) != EventMessage(b)
  {
  }

  // ---------------------------------------------------------------------
  // The polling cycle
  // ---------------------------------------------------------------------

  datatype Connection = Connecting | Connected | Failed

  /** What one `fetch` of GET /sensor-data/latest produced; `body` is absent when the reply body is not JSON. */
  datatype Fetch = Responded(status: int, body: Option<Reading>) | NetworkError

  /** `response.ok`. */
  predicate IsOk(status: int) {
    200 <= status <= 299
  }

  /** The fetch handed the component a new reading. */
  predicate Delivered(f: Fetch) {
    f.Responded? && IsOk(f.status) && f.body.Some?
  }

  /** The server answered in a way the component treats as reachable. */
  predicate Reachable(f: Fetch) {
    Delivered(f) || (f.Responded? && f.status == 404)
  }

  /**
   * The component's state: the windows, link health, when data last
   * arrived, the live safety state, the state last logged, and the log
   * requests posted so far.
   */
  datatype Dashboard = Dashboard(
    windows: Windows,
    connection: Connection,
    lastDataTime: int,
    systemState: SystemState,
    previousState: SystemState,
    outbox: seq<LogRequest>)

  /** The windows start as one seed value each; nothing has been logged yet. */
  function Initial(state: SystemState, now: int): (m: Dashboard)
    ensures Valid(m) && m.outbox == [] && m.connection == Connecting
    ensures m.windows == Windows([7.2], [650.0], [500.0], now)
    ensures m.systemState == state && m.previousState == state && m.lastDataTime == now
  {
    Dashboard(Windows([7.2], [650.0], [500.0], now), Connecting, now, state, state, [])
  }

  /** Consecutive log requests are for different states, and the last is for the live state. */
  predicate OutboxConsistent(outbox: seq<LogRequest>, state: SystemState) {
    && (forall i :: 0 < i < |outbox| ==> outbox[i].systemState != outbox[i - 1].systemState)
    && (|outbox| > 0 ==> outbox[|outbox| - 1].systemState == StateName(state))
  }

  predicate Valid(m: Dashboard) {
    && WindowsValid(m.windows)
    && m.previousState == m.systemState
    && OutboxConsistent(m.outbox, m.systemState)
  }

  /** The fetch handler: update the windows and link health from one response. */
  function Observe(m: Dashboard, f: Fetch, now: int): (r: Dashboard)
    ensures r.connection == (if Reachable(f) then Connected else Failed)
    ensures Delivered(f) ==> r == m.(windows := PushReading(m.windows, f.body.value), lastDataTime := now, connection := Connected)
    ensures !Delivered(f) ==> r.windows == m.windows && r.lastDataTime == m.lastDataTime
    ensures r.systemState == m.systemState && r.previousState == m.previousState && r.outbox == m.outbox
  {
    if Delivered(f) then
      m.(windows := PushReading(m.windows, f.body.value), lastDataTime := now, connection := Connected)
    else if Reachable(f) then
      m.(connection := Connected)
    else
      m.(connection := Failed)
  }

  /** The logging effect: post a request and remember the state, only when it changed. */
  function LogChange(m: Dashboard): (r: Dashboard)
    requires WindowsValid(m.windows)
    ensures r.previousState == r.systemState == m.systemState
    ensures |r.outbox| == |m.outbox| + (if m.previousState != m.systemState then 1 else 0)
    ensures r.outbox[..|m.outbox|] == m.outbox
    ensures m.previousState != m.systemState ==> r.outbox[|m.outbox|] == TransitionRequest(m.systemState, m.windows)
    ensures r.windows == m.windows && r.connection == m.connection && r.lastDataTime == m.lastDataTime
  {
    if m.previousState != m.systemState then
      m.(outbox := m.outbox + [TransitionRequest(m.systemState, m.windows)], previousState := m.systemState)
    else m
  }

  /** A pushed reading keeps every window within bounds and the old newest pH second-newest. */
  lemma PushReadingValid(w: Windows, r: Reading)
    requires WindowsValid(w)
    ensures WindowsValid(PushReading(w, r))
    ensures var p := PushReading(w, r).pH; |p| >= 2 && p[|p| - 1] == r.pH && p[|p| - 2] == w.pH[|w.pH| - 1]
  {
    var p := PushReading(w, r).pH;
    assert p[..|p| - 1][|p| - 2] == p[|p| - 2];
  }

  /** Appending a request for a new state keeps the outbox consistent with that state. */
  lemma OutboxAppend(outbox: seq<LogRequest>, req: LogRequest, previous: SystemState, current: SystemState)
    requires OutboxConsistent(outbox, previous)
    requires previous != current && req.systemState == StateName(current)
    ensures OutboxConsistent(outbox + [req], current)
  {
    var o := outbox + [req];
    if |outbox| > 0 {
      EventLabelsDistinguishStates(current, previous);
      assert o[|o| - 2] == outbox[|outbox| - 1];
    }
    forall i | 0 < i < |o| - 1
      ensures o[i].systemState != o[i - 1].systemState
    {
      assert o[i] == outbox[i] && o[i - 1] == outbox[i - 1];
    }
  }

  /** The logging effect restores the invariant after the live state is replaced. */
  lemma LogChangeValid(m: Dashboard)
    requires WindowsValid(m.windows) && OutboxConsistent(m.outbox, m.previousState)
    ensures Valid(LogChange(m))
    ensures LogChange(m).outbox == m.outbox + (if m.systemState != m.previousState then [TransitionRequest(m.systemState, m.windows)] else [])
  {
    if m.previousState != m.systemState {
      OutboxAppend(m.outbox, TransitionRequest(m.systemState, m.windows), m.previousState, m.systemState);
    }
  }

  /** One polling cycle: the fetch handler, then (only if a reading arrived) classification and logging. */
  function Poll(m: Dashboard, f: Fetch, now: int): (r: Dashboard)
    requires Valid(m)
    ensures Valid(r)
    // Link health: reachable means connected, anything else is an error.
    ensures r.connection == (if Reachable(f) then Connected else Failed)
    // Without a new reading nothing but link health moves.
    ensures !Delivered(f) ==> r == m.(connection := r.connection)
    // A new reading is appended to every window, the stamp and clock are taken,
    // and the state is classified from the new pH against the previous newest one.
    ensures Delivered(f) ==>
      && r.windows == PushReading(m.windows, f.body.value)
      && r.lastDataTime == now
      && r.systemState == Classify(f.body.value.pH, m.windows.pH[|m.windows.pH| - 1])
    // Exactly one log request is posted per change of state, none otherwise.
    ensures r.outbox == m.outbox + (if r.systemState != m.systemState then [TransitionRequest(r.systemState, r.windows)] else [])
  {
    var seen := Observe(m, f, now);
    if Delivered(f) then
      var w := seen.windows;
      assert WindowsValid(w) && w.pH[|w.pH| - 2] == m.windows.pH[|m.windows.pH| - 1] by {
        PushReadingValid(m.windows, f.body.value);
      }
      var classified := seen.(systemState := Reclassify(w, seen.systemState));
      assert Valid(LogChange(classified)) by {
        LogChangeValid(classified);
      }
      LogChange(classified)
    else seen
  }

  // ---------------------------------------------------------------------
  // Runs of cycles
  // ---------------------------------------------------------------------

  datatype Tick = Tick(fetch: Fetch, now: int)

  function Run(m: Dashboard, ticks: seq<Tick>): (r: Dashboard)
    requires Valid(m)
    ensures Valid(r)
    decreases |ticks|
  {
    if |ticks| == 0 then m else Run(Poll(m, ticks[0].fetch, ticks[0].now), ticks[1..])
  }

  /** The live state after each cycle of a run. */
  function Trace(m: Dashboard, ticks: seq<Tick>): (t: seq<SystemState>)
    requires Valid(m)
    ensures |t| == |ticks|
    decreases |ticks|
  {
    if |ticks| == 0 then []
    else
      var next := Poll(m, ticks[0].fetch, ticks[0].now);
      [next.systemState] + Trace(next, ticks[1..])
  }

  /** Entry `i` of the trace is the live state after the first `i + 1` cycles of the run. */
  lemma {:induction false} TraceIsRunStates(m: Dashboard, ticks: seq<Tick>)
    requires Valid(m)
    ensures forall i :: 0 <= i < |ticks| ==> Trace(m, ticks)[i] == Run(m, ticks[..i + 1]).systemState
    ensures |ticks| > 0 ==> Trace(m, ticks)[|ticks| - 1] == Run(m, ticks).systemState
    decreases |ticks|
  {
    if |ticks| > 0 {
      var next := Poll(m, ticks[0].fetch, ticks[0].now);
      TraceIsRunStates(next, ticks[1..]);
      forall i | 0 <= i < |ticks|
        ensures Trace(m, ticks)[i] == Run(m, ticks[..i + 1]).systemState
      {
        TraceRunStep(m, ticks, i);
      }
      assert ticks[..|ticks|] == ticks;
    }
  }

  /** One unfolding of both `Trace` and `Run` at position `i`. */
  lemma TraceRunStep(m: Dashboard, ticks: seq<Tick>, i: nat)
    requires Valid(m) && i < |ticks|
    ensures var next := Poll(m, ticks[0].fetch, ticks[0].now);
      && Run(m, ticks[..i + 1]) == Run(next, ticks[1..][..i])
      && Trace(m, ticks)[i] == (if i == 0 then next.systemState else Trace(next, ticks[1..])[i - 1])
      && (i == 0 ==> Run(next, ticks[1..][..i]) == next)
  {
    assert ticks[..i + 1][1..] == ticks[1..][..i];
    assert ticks[..i + 1][0] == ticks[0];
  }

  /** How many times a state sequence differs from its predecessor, starting from `start`. */
  function Changes(start: SystemState, states: seq<SystemState>): nat
    decreases |states|
  {
    if |states| == 0 then 0
    else (if states[0] != start then 1 else 0) + Changes(states[0], states[1..])
  }

  /**
   * Transition-only logging: over any run, the log requests posted are
   * appended to what was there, one per change of the live state.
   */
  lemma {:induction false} RunLogsEachChangeOnce(m: Dashboard, ticks: seq<Tick>)
    requires Valid(m)
    ensures |Run(m, ticks).outbox| == |m.outbox| + Changes(m.systemState, Trace(m, ticks))
    ensures Run(m, ticks).outbox[..|m.outbox|] == m.outbox
    decreases |ticks|
  {
    if |ticks| > 0 {
      var next := Poll(m, ticks[0].fetch, ticks[0].now);
      assert Run(m, ticks) == Run(next, ticks[1..]);
      assert Trace(m, ticks) == [next.systemState] + Trace(next, ticks[1..]);
      PollOutboxStep(m, ticks[0].fetch, ticks[0].now);
      RunLogsEachChangeOnce(next, ticks[1..]);
      PrefixOfPrefix(Run(m, ticks).outbox, next.outbox, m.outbox);
    }
  }

  /** One cycle keeps the earlier requests and adds one exactly when the state changed. */
  lemma PollOutboxStep(m: Dashboard, f: Fetch, now: int)
    requires Valid(m)
    ensures var r := Poll(m, f, now);
      && |r.outbox| == |m.outbox| + (if r.systemState != m.systemState then 1 else 0)
      && r.outbox[..|m.outbox|] == m.outbox
  {
    var r := Poll(m, f, now);
    assert r.outbox[..|m.outbox|] == m.outbox;
  }

  /** A prefix of a prefix is a prefix. */
  lemma PrefixOfPrefix(a: seq<LogRequest>, b: seq<LogRequest>, c: seq<LogRequest>)
    requires |b| <= |a| && a[..|b|] == b && |c| <= |b| && b[..|c|] == c
    ensures a[..|c|] == c
  {
    assert a[..|c|] == a[..|b|][..|c|];
  }

  /** A run that never leaves the current state posts nothing. */
  lemma SteadyRunLogsNothing(m: Dashboard, ticks: seq<Tick>)
    requires Valid(m)
    requires forall i :: 0 <= i < |ticks| ==> Trace(m, ticks)[i] == m.systemState
    ensures Run(m, ticks).outbox == m.outbox
  {
    RunLogsEachChangeOnce(m, ticks);
    NoChangesInConstant(m.systemState, Trace(m, ticks));
  }

  lemma {:induction false} NoChangesInConstant(s: SystemState, states: seq<SystemState>)
    requires forall i :: 0 <= i < |states| ==> states[i] == s
    ensures Changes(s, states) == 0
    decreases |states|
  {
    if |states| > 0 {
      NoChangesInConstant(s, states[1..]);
    }
  }

  /** The pH values a run delivers, in order. */
  function DeliveredPH(ticks: seq<Tick>): seq<real>
    decreases |ticks|
  {
    if |ticks| == 0 then []
    else (if Delivered(ticks[0].fetch) then [ticks[0].fetch.body.value.pH] else []) + DeliveredPH(ticks[1..])
  }

  /** One cycle appends the delivered pH, if any, to the newest sixteen. */
  lemma PollWindowStep(m: Dashboard, f: Fetch, now: int)
    requires Valid(m)
    ensures Poll(m, f, now).windows.pH
         == LastN(WindowCapacity, m.windows.pH + DeliveredPH([Tick(f, now)]))
  {
    var s := m.windows.pH;
    var d := DeliveredPH([Tick(f, now)]);
    assert [Tick(f, now)][1..] == [];
    assert d == (if Delivered(f) then [f.body.value.pH] else []) + DeliveredPH([]);
    if Delivered(f) {
      var x := f.body.value.pH;
      assert d == [x];
      assert Poll(m, f, now).windows.pH == Push(s, x);
      assert LastN(WindowCapacity, s) == s;
      PushKeepsNewest(s, x);
    } else {
      assert d == [];
      assert s + d == s;
    }
  }

  /** After any run the pH window is the newest sixteen of its old contents followed by every delivered value. */
  lemma {:induction false} RunWindowIsNewestSixteen(m: Dashboard, ticks: seq<Tick>)
    requires Valid(m)
    ensures Run(m, ticks).windows.pH == LastN(WindowCapacity, m.windows.pH + DeliveredPH(ticks))
    decreases |ticks|
  {
    if |ticks| == 0 {
      assert m.windows.pH + DeliveredPH(ticks) == m.windows.pH;
    } else {
      var next := Poll(m, ticks[0].fetch, ticks[0].now);
      assert Run(m, ticks) == Run(next, ticks[1..]);
      PollWindowStep(m, ticks[0].fetch, ticks[0].now);
      RunWindowIsNewestSixteen(next, ticks[1..]);
      DeliveredPHSplit(ticks);
      NewestAfterTwoSteps(m.windows.pH, DeliveredPH([ticks[0]]), DeliveredPH(ticks[1..]));
    }
  }

  /** Keeping the newest sixteen after each batch is keeping the newest sixteen of everything. */
  lemma NewestAfterTwoSteps(s: seq<real>, head: seq<real>, rest: seq<real>)
    ensures LastN(WindowCapacity, LastN(WindowCapacity, s + head) + rest) == LastN(WindowCapacity, s + (head + rest))
  {
    LastNOfLastN(s + head, rest);
    assert s + head + rest == s + (head + rest);
  }

  /** The delivered values of a run are those of its first tick followed by the rest. */
  lemma DeliveredPHSplit(ticks: seq<Tick>)
    requires |ticks| > 0
    ensures DeliveredPH(ticks) == DeliveredPH([ticks[0]]) + DeliveredPH(ticks[1..])
  {
    assert [ticks[0]][1..] == [];
  }

  /** Taking the newest sixteen before appending more values does not change the newest sixteen after. */
  lemma LastNOfLastN(s: seq<real>, xs: seq<real>)
    ensures LastN(WindowCapacity, LastN(WindowCapacity, s) + xs) == LastN(WindowCapacity, s + xs)
  {
    if |s| > WindowCapacity {
      var t := s[|s| - WindowCapacity..];
      if |xs| < WindowCapacity {
        assert (t + xs)[|t + xs| - WindowCapacity..] == (s + xs)[|s + xs| - WindowCapacity..];
      } else {
        assert (t + xs)[|t + xs| - WindowCapacity..] == xs[|xs| - WindowCapacity..];
        assert (s + xs)[|s + xs| - WindowCapacity..] == xs[|xs| - WindowCapacity..];
      }
    }
  }

  // ---------------------------------------------------------------------
  // Scenarios
  // ---------------------------------------------------------------------

  /**
   * The first reading after start-up is classified against the seed pH 7.2,
   * not against any real earlier reading.
   */
  lemma FirstReadingAgainstSeed(state: SystemState, start: int, f: Fetch, now: int)
    requires Delivered(f)
    ensures Poll(Initial(state, start), f, now).systemState == Classify(f.body.value.pH, 7.2)
  {
  }

  /** 7.2 then 7.3: a small step inside the band stays safe and posts nothing. */
  lemma ScenarioSmallStepStaysSafe()
    ensures var r := Poll(Initial(Safe, 0), Responded(200, Some(Reading(7.3, 650.0, 500.0, 1))), 1);
            r.systemState == Safe && r.outbox == []
  {
  }

  /** 7.2 then 7.8: a step of 0.6 raises a warning and posts one WARNING event. */
  lemma ScenarioFastSwingWarns()
    ensures var r := Poll(Initial(Safe, 0), Responded(200, Some(Reading(7.8, 650.0, 500.0, 1))), 1);
            r.systemState == Warning && |r.outbox| == 1 && r.outbox[0].kind == "WARNING"
  {
  }

  /** A failed fetch, then a good one: the windows wait, then grow by the new point. */
  lemma ScenarioRecoveryAfterFailures(m: Dashboard, r: Reading, now: int)
    requires Valid(m)
    ensures var failed := Poll(Poll(Poll(m, NetworkError, now), Responded(500, None), now), NetworkError, now);
            && failed.connection == Failed
            && failed.windows == m.windows && failed.systemState == m.systemState
            && Poll(failed, Responded(200, Some(r)), now).connection == Connected
            && Poll(failed, Responded(200, Some(r)), now).windows == PushReading(m.windows, r)
  {
  }
}
