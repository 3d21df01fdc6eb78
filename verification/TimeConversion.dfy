/** Conversion between simulation time in seconds and the wall clock, which counts
    microseconds. */
module TimeConversion {

  const TICKS_PER_SECOND: int := 1_000_000

  /** Duration in ticks: whole seconds plus the truncated fraction of the last second. */
  function RelativeTicks(time: real): int {
    time.Floor * TICKS_PER_SECOND + ((time - time.Floor as real) * 1_000_000.0).Floor
  }

  function SimulationTime(epoch: int, clock: int): real {
    (clock - epoch) as real / 1_000_000.0
  }

  function SystemTime(epoch: int, time: real): int {
    epoch + RelativeTicks(time)
  }

  predicate IsFuture(epoch: int, clock: int, time: real) {
    SystemTime(epoch, time) > clock
  }

  /** Splitting off the whole seconds does not change which tick a time falls into. */
  lemma RelativeTicksIsFloor(time: real)
    ensures RelativeTicks(time) as real <= time * 1_000_000.0 < RelativeTicks(time) as real + 1.0
  {
    var whole := time.Floor;
    var rest := ((time - whole as real) * 1_000_000.0).Floor;
    assert (whole * TICKS_PER_SECOND + rest) as real == whole as real * 1_000_000.0 + rest as real;
  }

  /** To the clock and back loses less than a tick and never rounds up. */
  lemma RoundTripLosesLessThanATick(epoch: int, time: real)
    ensures time - 0.000001 < SimulationTime(epoch, SystemTime(epoch, time)) <= time
  {
    RelativeTicksIsFloor(time);
  }

  lemma ClockRoundTrip(epoch: int, clock: int)
    ensures SystemTime(epoch, SimulationTime(epoch, clock)) == clock
  {
    RelativeTicksIsFloor(SimulationTime(epoch, clock));
  }

  lemma SystemTimeIsMonotone(epoch: int, earlier: real, later: real)
    requires earlier <= later
    ensures SystemTime(epoch, earlier) <= SystemTime(epoch, later)
  {
    RelativeTicksIsFloor(earlier);
    RelativeTicksIsFloor(later);
  }

  /** An event stops being a future event exactly at the first tick that does not lie
      before its rounded time, hence less than a tick early. */
  lemma FutureMeansClockIsBehind(epoch: int, clock: int, time: real)
    ensures !IsFuture(epoch, clock, time) ==> SimulationTime(epoch, clock) > time - 0.000001
    ensures SimulationTime(epoch, clock) >= time ==> !IsFuture(epoch, clock, time)
  {
    RelativeTicksIsFloor(time);
  }
}
