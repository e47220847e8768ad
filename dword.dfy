/**
 * Unsigned 32-bit (DWORD) arithmetic used by the playback clock in
 * src/library/run_event_loop.c: the elapsed-sample subtraction of `video`
 * and the advance of `minimum_position` after each resubmitted buffer.
 *
 * Every value stored in a DWORD is reduced modulo 2^32 (`ToDword`).  The
 * literal 4294967295 does not fit a 32-bit `long`.  Under C99 rules it is
 * a 64-bit `long long` and `(4294967295 - m) + 1` does not wrap until it is
 * stored into a DWORD; under C90 rules it is an `unsigned long` and the
 * expression wraps modulo 2^32 as it is evaluated.  Both give the same
 * DWORD, which is what `ToDword` of the exact value computes.
 */
module Dword {
  import opened Wrappers
  import opened Failures

  const MODULUS: int := 0x1_0000_0000
  /** The literal 4294967295 of the source, that is 2^32 - 1. */
  const MAX: int := 0xFFFF_FFFF
  /** The largest value of a C `int`; samples_per_tick is an `int`. */
  const INT_MAX: int := 0x7FFF_FFFF

  type DWORD = x: int | 0 <= x < MODULUS

  /** Conversion of an integer value to DWORD, as C performs it for unsigned types. */
  function ToDword(x: int): DWORD {
    x % MODULUS
  }

  /**
   * The elapsed-sample computation of `video`: how far the device's sample
   * counter `position` has moved past `minimum`, the position at which the
   * audio of the current tick began, allowing the counter to have wrapped.
   */
  function Elapsed(position: DWORD, minimum: DWORD): (elapsed: DWORD)
    ensures elapsed == (position - minimum) % MODULUS
    ensures position >= minimum ==> elapsed == position - minimum
    ensures position < minimum ==> elapsed == position + MODULUS - minimum
  {
    if position < minimum then ToDword(position + ((MAX - minimum) + 1))
    else position - minimum
  }

  /**
   * The new `minimum_position` after a buffer of `samplesPerTick` samples has
   * been resubmitted.  `distanceToEnd` wraps to 0 when `previous` is 0, and
   * the first branch then still gives the right answer.
   */
  function NextMinimumPosition(previous: DWORD, samplesPerTick: int): (next: DWORD)
    requires 1 <= samplesPerTick <= INT_MAX
  {
    var distanceToEnd := ToDword((MAX - previous) + 1);
    if distanceToEnd <= samplesPerTick then ToDword(samplesPerTick - distanceToEnd)
    else ToDword(previous + samplesPerTick)
  }

  /** The advance is addition modulo 2^32, for every previous position. */
  lemma NextMinimumPositionIsModularSum(previous: DWORD, samplesPerTick: int)
    requires 1 <= samplesPerTick <= INT_MAX
    ensures NextMinimumPosition(previous, samplesPerTick) == (previous + samplesPerTick) % MODULUS
  {
    var distanceToEnd := ToDword((MAX - previous) + 1);
    if previous == 0 {
      assert distanceToEnd == 0;
    } else {
      assert distanceToEnd == MODULUS - previous;
      if distanceToEnd <= samplesPerTick {
        assert previous + samplesPerTick - MODULUS == samplesPerTick - distanceToEnd;
        assert 0 <= previous + samplesPerTick - MODULUS < MODULUS;
      } else {
        assert previous + samplesPerTick < MODULUS;
      }
    }
  }

  /** Elapsed undoes the advance: one tick after `previous`, exactly `samplesPerTick` samples have elapsed. */
  lemma ElapsedAfterAdvance(previous: DWORD, samplesPerTick: int)
    requires 1 <= samplesPerTick <= INT_MAX
    ensures Elapsed(NextMinimumPosition(previous, samplesPerTick), previous) == samplesPerTick
  {
    NextMinimumPositionIsModularSum(previous, samplesPerTick);
  }

  /** The worked example: position 5 just after a wrap, minimum 4294967294, gives 7. */
  lemma ElapsedAcrossWrapExample()
    ensures Elapsed(5, 4294967294) == 7
  {
  }

  /** The edge cases of the advance: a previous position of 0 (where the distance to the end wraps to 0) and of 2^32 - 1. */
  lemma NextMinimumPositionEdges(samplesPerTick: int)
    requires 1 <= samplesPerTick <= INT_MAX
    ensures NextMinimumPosition(0, samplesPerTick) == samplesPerTick
    ensures NextMinimumPosition(MAX, samplesPerTick) == samplesPerTick - 1
  {
    NextMinimumPositionIsModularSum(0, samplesPerTick);
    NextMinimumPositionIsModularSum(MAX, samplesPerTick);
  }

  /** What the device reports when asked for its position (waveOutGetPosition). */
  datatype PositionQuery =
    | QueryFailed
    | Position(inSamples: bool, sample: DWORD)

  /** The clamp `max(0, min(1, x))` applied to the tick progress. */
  function UnitClamp(x: real): real {
    if x < 0.0 then 0.0 else if x > 1.0 then 1.0 else x
  }

  /** The unclamped fraction of a tick: in [0, 1] up to one tick, at least 1 beyond it. */
  lemma FractionOfTick(elapsed: nat, samplesPerTick: int)
    requires samplesPerTick >= 1
    ensures var f := elapsed as real / samplesPerTick as real;
      0.0 <= f && f * samplesPerTick as real == elapsed as real &&
      (elapsed <= samplesPerTick ==> f <= 1.0) && (elapsed >= samplesPerTick ==> f >= 1.0)
  {
    var e, s := elapsed as real, samplesPerTick as real;
    var f := e / s;
    assert f * s == e;
    if elapsed <= samplesPerTick {
      assert e <= s;
    }
    if elapsed >= samplesPerTick {
      assert e >= s;
    }
  }

  /**
   * Why `video` fails before calling the host, if it does: with an audio
   * device open, the position query fails or reports something other
   * than a sample count.  With no device open nothing is queried.
   */
  function PositionError(deviceOpen: bool, query: PositionQuery): (e: Option<Failure>)
    ensures e.None? <==> !deviceOpen || (query.Position? && query.inSamples)
    ensures deviceOpen && query.QueryFailed? ==> e == Some(PositionQueryFailed)
    ensures deviceOpen && query.Position? && !query.inSamples ==> e == Some(PositionNotInSamples)
  {
    if !deviceOpen then None
    else match query
      case QueryFailed => Some(PositionQueryFailed)
      case Position(inSamples, _) =>
        if !inSamples then Some(PositionNotInSamples) else None
  }

  /**
   * The tick progress passed to the host's `video` callback, or the error
   * `video` returns.  With no audio device open the progress is 0; otherwise
   * it is the elapsed samples as a fraction of one tick, clamped to [0, 1].
   * Single-precision rounding of the division is not modelled.
   */
  function TickProgress(deviceOpen: bool, query: PositionQuery, minimum: DWORD, samplesPerTick: int): (r: Result<real, Failure>)
    requires samplesPerTick >= 1
    ensures !deviceOpen ==> r == Ok(0.0)
    ensures r.Ok? <==> PositionError(deviceOpen, query).None?
    ensures r.Err? ==> PositionError(deviceOpen, query) == Some(r.error)
    ensures r.Ok? ==> 0.0 <= r.value <= 1.0
    ensures deviceOpen && r.Ok? ==> var e := Elapsed(query.sample, minimum);
      (e <= samplesPerTick ==> r.value * samplesPerTick as real == e as real) &&
      (e >= samplesPerTick ==> r.value == 1.0)
  {
    if !deviceOpen then Ok(0.0)
    else match query
      case QueryFailed => Err(PositionQueryFailed)
      case Position(inSamples, sample) =>
        if !inSamples then Err(PositionNotInSamples)
        else
          var elapsed := Elapsed(sample, minimum);
          FractionOfTick(elapsed, samplesPerTick);
          Ok(UnitClamp(elapsed as real / samplesPerTick as real))
  }
}
