/**
 * The pH rate-of-change classifier: the two most recent pH values decide
 * one of three safety states. Absolute bounds catch steady excursions; the
 * step between consecutive values catches fast swings inside those bounds.
 */
module Classifier {

  datatype SystemState = Safe | Warning | Critical

  /** Alarm thresholds, all compared strictly. */
  const CriticalHigh: real := 8.5
  const CriticalLow: real := 6.5
  const WarningHigh: real := 8.0
  const WarningLow: real := 6.8
  const MaxStep: real := 0.5

  function Abs(x: real): real {
    if x < 0.0 then -x else x
  }

  function Classify(current: real, previous: real): (s: SystemState)
    ensures s == Critical <==> current > CriticalHigh || current < CriticalLow
    ensures s == Safe <==> WarningLow <= current <= WarningHigh && Abs(current - previous) <= MaxStep
  {
    if current > CriticalHigh || current < CriticalLow then Critical
    else if Abs(current - previous) > MaxStep || current > WarningHigh || current < WarningLow then Warning
    else Safe
  }

  // ---------------------------------------------------------------------
  // An independent reading: the state is the worse of two partial verdicts
  // ---------------------------------------------------------------------

  function Severity(s: SystemState): nat {
    match s
    case Safe => 0
    case Warning => 1
    case Critical => 2
  }

  /** The verdict of the absolute bounds alone. */
  function LevelVerdict(current: real): SystemState {
    if current > CriticalHigh || current < CriticalLow then Critical
    else if current > WarningHigh || current < WarningLow then Warning
    else Safe
  }

  /** The verdict of the step size alone: a fast swing is never worse than a warning. */
  function StepVerdict(current: real, previous: real): SystemState {
    if Abs(current - previous) > MaxStep then Warning else Safe
  }

  function Worse(a: SystemState, b: SystemState): SystemState {
    if Severity(a) >= Severity(b) then a else b
  }

  /** The classifier is the worse of the level verdict and the step verdict. */
  lemma ClassifyIsWorstVerdict(current: real, previous: real)
    ensures Classify(current, previous) == Worse(LevelVerdict(current), StepVerdict(current, previous))
  {
  }

  /** A larger step never lowers the verdict for the same current value. */
  lemma SeverityMonotoneInStep(current: real, p1: real, p2: real)
    requires Abs(current - p1) <= Abs(current - p2)
    ensures Severity(Classify(current, p1)) <= Severity(Classify(current, p2))
  {
  }

  /**
   * The critical bounds are strict: exactly 8.5 or exactly 6.5 is only a
   * warning (it is past the warning bounds 8.0 and 6.8).
   */
  lemma BoundaryIsWarning(previous: real)
    ensures Classify(8.5, previous) == Warning
    ensures Classify(6.5, previous) == Warning
  {
  }

  /**
   * The warning bounds are inclusive: exactly 8.0 or exactly 6.8 is safe
   * whenever the step from the previous value is small.
   */
  lemma InsideBandIsSafe(previous: real)
    ensures Abs(WarningHigh - previous) <= MaxStep ==> Classify(8.0, previous) == Safe
    ensures Abs(WarningLow - previous) <= MaxStep ==> Classify(6.8, previous) == Safe
  {
  }

  /**
   * Between a warning bound and its critical bound (for example 8.49) the
   * state is a warning whatever the previous value, even a steady one.
   */
  lemma WarningBandIsWarning(current: real, previous: real)
    requires WarningHigh < current <= CriticalHigh || CriticalLow <= current < WarningLow
    ensures Classify(current, previous) == Warning
  {
  }

  /** The step alone can raise a warning but never a critical alarm. */
  lemma StepNeverCritical(current: real, previous: real)
    requires CriticalLow <= current <= CriticalHigh
    ensures Classify(current, previous) != Critical
    ensures Abs(current - previous) > MaxStep ==> Classify(current, previous) == Warning
  {
  }
}
