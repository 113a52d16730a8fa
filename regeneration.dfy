/** Passive regeneration of one character attribute (health or mana).
    An attribute is a fraction of its maximum, 1.0 meaning 100%. Every frame
    the character adds the frame's duration to a per-attribute time
    accumulator; once the accumulator reaches the configured interval it is
    reset to zero and an attribute below 100% gains the configured amount,
    capped at 100%. Quantities are exact reals. */
module Regeneration {

  /** The value of a full attribute (100%). */
  const Full: real := 1.0

  function Min(a: real, b: real): real
  {
    if a <= b then a else b
  }

  /** The gain rule shared by passive regeneration and the health pickup:
      an attribute below Full gains `amount` and is capped at Full; an
      attribute already at or above Full is left as it is, even above Full. */
  function Replenish(value: real, amount: real): (r: real)
    ensures value < Full ==> r == Min(value + amount, Full)
    ensures Full <= value ==> r == value
    ensures value < Full ==> r <= Full
    ensures value < Full && 0.0 <= amount ==> value <= r
  {
    if value < Full then
      var raised := value + amount;
      if raised > Full then Full else raised
    else
      value
  }

  /** The regeneration state of one attribute: the seconds accumulated since
      the last regeneration (the character's "temp time handle") and the
      attribute itself. */
  datatype Meter = Meter(elapsed: real, value: real)

  /** A frame of `delta` seconds completes the regeneration interval `rate`. */
  predicate Fires(m: Meter, rate: real, delta: real)
  {
    rate <= m.elapsed + delta
  }

  /** One frame of passive regeneration, with regeneration `amount` every
      `rate` seconds. */
  function Advance(m: Meter, amount: real, rate: real, delta: real): Meter
  {
    if Fires(m, rate, delta) then Meter(0.0, Replenish(m.value, amount))
    else Meter(m.elapsed + delta, m.value)
  }

  /** The frames of durations `deltas`, one after the other. */
  function AdvanceAll(m: Meter, amount: real, rate: real, deltas: seq<real>): Meter
    decreases |deltas|
  {
    if deltas == [] then m
    else AdvanceAll(Advance(m, amount, rate, deltas[0]), amount, rate, deltas[1..])
  }

  /** How many of the frames `deltas` regenerate. */
  function FireCount(m: Meter, amount: real, rate: real, deltas: seq<real>): nat
    decreases |deltas|
  {
    if deltas == [] then 0
    else
      (if Fires(m, rate, deltas[0]) then 1 else 0)
      + FireCount(Advance(m, amount, rate, deltas[0]), amount, rate, deltas[1..])
  }

  /** Total duration of the frames `deltas`. */
  function Sum(deltas: seq<real>): real
    decreases |deltas|
  {
    if deltas == [] then 0.0 else deltas[0] + Sum(deltas[1..])
  }

  /** Regeneration never lifts an attribute that is at most 100% above 100%,
      whatever the frames and whatever the amount. */
  lemma {:induction false} AdvanceAllKeepsCap(m: Meter, amount: real, rate: real, deltas: seq<real>)
    requires m.value <= Full
    ensures AdvanceAll(m, amount, rate, deltas).value <= Full
    decreases |deltas|
  {
    if deltas != [] {
      AdvanceAllKeepsCap(Advance(m, amount, rate, deltas[0]), amount, rate, deltas[1..]);
    }
  }

  /** With a non-negative regeneration amount, no sequence of frames lowers
      the attribute. */
  lemma {:induction false} AdvanceAllNeverLowers(m: Meter, amount: real, rate: real, deltas: seq<real>)
    requires 0.0 <= amount
    ensures m.value <= AdvanceAll(m, amount, rate, deltas).value
    decreases |deltas|
  {
    if deltas != [] {
      AdvanceAllNeverLowers(Advance(m, amount, rate, deltas[0]), amount, rate, deltas[1..]);
    }
  }

  /** An attribute that starts within [0, 1] stays within [0, 1] over any
      sequence of frames when the regeneration amount is non-negative. */
  lemma AdvanceAllStaysInRange(m: Meter, amount: real, rate: real, deltas: seq<real>)
    requires 0.0 <= m.value <= Full && 0.0 <= amount
    ensures 0.0 <= AdvanceAll(m, amount, rate, deltas).value <= Full
  {
    AdvanceAllKeepsCap(m, amount, rate, deltas);
    AdvanceAllNeverLowers(m, amount, rate, deltas);
  }

  /** With a positive interval and frames of non-negative duration, the
      accumulator stays in [0, rate): it never holds a completed interval. */
  lemma {:induction false} AdvanceAllElapsedBelowRate(m: Meter, amount: real, rate: real, deltas: seq<real>)
    requires 0.0 <= m.elapsed < rate
    requires forall i :: 0 <= i < |deltas| ==> 0.0 <= deltas[i]
    ensures 0.0 <= AdvanceAll(m, amount, rate, deltas).elapsed < rate
    decreases |deltas|
  {
    if deltas != [] {
      var next := Advance(m, amount, rate, deltas[0]);
      assert 0.0 <= next.elapsed < rate;
      AdvanceAllElapsedBelowRate(next, amount, rate, deltas[1..]);
    }
  }

  /** Regeneration fires at most once per interval of accumulated time: the
      firings, each worth one interval, plus what is left in the accumulator
      never exceed the time that was accumulated. */
  lemma {:induction false} FiringsNeedElapsedTime(m: Meter, amount: real, rate: real, deltas: seq<real>)
    ensures FireCount(m, amount, rate, deltas) as real * rate + AdvanceAll(m, amount, rate, deltas).elapsed
            <= m.elapsed + Sum(deltas)
    decreases |deltas|
  {
    if deltas != [] {
      var next := Advance(m, amount, rate, deltas[0]);
      var rest := deltas[1..];
      FiringsNeedElapsedTime(next, amount, rate, rest);
      var n := FireCount(next, amount, rate, rest);
      if Fires(m, rate, deltas[0]) {
        assert FireCount(m, amount, rate, deltas) == n + 1;
        assert (n + 1) as real * rate == n as real * rate + rate;
      }
    }
  }

  /** Time enough for one interval makes regeneration fire at least once:
      with frames of non-negative duration, an accumulator below the
      interval that the frames carry to the interval or beyond fires. */
  lemma {:induction false} ReachingIntervalFires(m: Meter, amount: real, rate: real, deltas: seq<real>)
    requires forall i :: 0 <= i < |deltas| ==> 0.0 <= deltas[i]
    requires m.elapsed < rate <= m.elapsed + Sum(deltas)
    ensures 1 <= FireCount(m, amount, rate, deltas)
    decreases |deltas|
  {
    assert deltas != [];
    if !Fires(m, rate, deltas[0]) {
      var next := Advance(m, amount, rate, deltas[0]);
      assert next.elapsed == m.elapsed + deltas[0];
      ReachingIntervalFires(next, amount, rate, deltas[1..]);
    }
  }

  /** The accumulator is reset to 0 rather than reduced by the interval, so
      the time by which a frame overshoots the interval is lost: frames of
      0.7, 0.7 and 0.6 seconds make two whole seconds, yet regeneration
      with a one-second interval fires only once. */
  lemma OvershootIsDiscarded()
    ensures Sum([0.7, 0.7, 0.6]) == 2.0
    ensures FireCount(Meter(0.0, 0.5), 0.05, 1.0, [0.7, 0.7, 0.6]) == 1
    ensures AdvanceAll(Meter(0.0, 0.5), 0.05, 1.0, [0.7, 0.7, 0.6]) == Meter(0.6, 0.55)
  {
  }

  /** A worked example: at 0.5 with 0.05 every second, frames adding up to
      one second give 0.55, and one more second gives 0.60. */
  lemma RegenerationExample()
    ensures AdvanceAll(Meter(0.0, 0.5), 0.05, 1.0, [0.25, 0.25, 0.5]) == Meter(0.0, 0.55)
    ensures AdvanceAll(Meter(0.0, 0.5), 0.05, 1.0, [0.25, 0.25, 0.5, 1.0]) == Meter(0.0, 0.6)
  {
  }
}
