/** ScrollPhysics/ExponentialScrollPhysics.cs: the remaining-distance model.
    OnScroll adds to the distance still to travel; each Update travels the fraction
    1 - e^(-DecayRate * dt) of it, and once it is below StopThreshold travels all of it. */
module ExponentialPhysics {
  import opened MathExtension
  import opened Transcendental

  const DefaultDecayRate: real := 8.0
  const MinDecayRate: real := 1.0
  const MaxDecayRate: real := 20.0
  const DefaultStopThreshold: real := 0.5

  /** The transient state: the signed distance still to travel and the rest flag. */
  datatype Glide = Glide(remaining: real, isStable: bool)

  /** A model at rest has arrived: nothing remains to travel. */
  ghost predicate RestIsArrived(s: Glide) {
    s.isStable ==> s.remaining == 0.0
  }

  /** OnScroll on the transient state. */
  function Impulse(s: Glide, delta: real): Glide {
    Glide(s.remaining - delta, false)
  }

  /** Impulses accumulate into the remaining distance. */
  lemma ImpulsesAccumulate(s: Glide, d1: real, d2: real)
    ensures Impulse(Impulse(s, d1), d2) == Impulse(s, d1 + d2)
  {
  }

  /** The fraction of the remaining distance travelled in a frame of length dt. */
  function DecayFactor(decayRate: real, dt: real, m: MathFunctions): real {
    1.0 - m.exp(-decayRate * dt)
  }

  /** With a lawful Math.Exp, a non-negative rate and dt, the fraction lies in [0, 1),
      and a frame of zero length travels nothing. */
  lemma DecayFactorRange(decayRate: real, dt: real, m: MathFunctions)
    requires Lawful(m) && decayRate >= 0.0 && dt >= 0.0
    ensures 0.0 <= DecayFactor(decayRate, dt, m) < 1.0
    ensures dt == 0.0 ==> DecayFactor(decayRate, dt, m) == 0.0
  {
    assert decayRate * dt >= 0.0;
    assert -decayRate * dt <= 0.0;
  }

  /** Update on the transient state, given the stop threshold and the frame's fraction. */
  function Step(s: Glide, currentOffset: real, stopThreshold: real, factor: real): (Glide, real) {
    if s.isStable then (s, currentOffset)
    else if Abs(s.remaining) < stopThreshold then (Glide(0.0, true), currentOffset + s.remaining)
    else (Glide(s.remaining - s.remaining * factor, false), currentOffset + s.remaining * factor)
  }

  /** The moving branch of Step, spelled out for the imperative Update. */
  lemma StepMoves(s: Glide, currentOffset: real, stopThreshold: real, factor: real)
    requires !s.isStable && Abs(s.remaining) >= stopThreshold
    ensures Step(s, currentOffset, stopThreshold, factor).0 == Glide(s.remaining - s.remaining * factor, false)
    ensures Step(s, currentOffset, stopThreshold, factor).1 == currentOffset + s.remaining * factor
  {
  }

  /** Every Update, resting or moving or arriving, keeps offset + remaining distance. */
  lemma StepConserves(s: Glide, currentOffset: real, stopThreshold: real, factor: real)
    ensures var r := Step(s, currentOffset, stopThreshold, factor);
      r.1 + r.0.remaining == currentOffset + s.remaining
  {
  }

  /** Below the threshold the model arrives in one step, exactly at the target. */
  lemma StepArrives(s: Glide, currentOffset: real, stopThreshold: real, factor: real)
    requires !s.isStable && Abs(s.remaining) < stopThreshold
    ensures var r := Step(s, currentOffset, stopThreshold, factor);
      r.0 == Glide(0.0, true) && r.1 == currentOffset + s.remaining
  {
  }

  /** With a fraction in [0, 1] the remaining distance keeps its sign and does not grow. */
  lemma StepDecays(s: Glide, currentOffset: real, stopThreshold: real, factor: real)
    requires 0.0 <= factor <= 1.0
    ensures var r := Step(s, currentOffset, stopThreshold, factor);
      Shrinks(s.remaining, r.0.remaining)
  {
    var d := s.remaining;
    if !s.isStable && Abs(d) >= stopThreshold {
      assert d - d * factor == d * (1.0 - factor);
      ScaleShrinks(d, 1.0 - factor);
    }
  }

  /** StopThreshold is stored unclamped: with a threshold of zero or below, Update never
      brings a moving model to rest. */
  lemma StepNeverRestsWithoutThreshold(s: Glide, currentOffset: real, stopThreshold: real, factor: real)
    requires stopThreshold <= 0.0 && !s.isStable
    ensures !Step(s, currentOffset, stopThreshold, factor).0.isStable
  {
  }

  /** A call made by a client that feeds every returned offset into the next Update: a scroll,
      a frame, or a write of the DecayRate or StopThreshold property between frames. */
  datatype Input = Scroll(delta: real) | Tick(dt: real) | DecayRateSet(rate: real) | StopThresholdSet(threshold: real)

  /** What such a client sees, with the decay rate and stop threshold in force. */
  datatype Trace = Trace(glide: Glide, offset: real, decayRate: real, stopThreshold: real)

  /** Sum of the scroll deltas in a call sequence. */
  function SumDeltas(inputs: seq<Input>): real
    decreases |inputs|
  {
    if inputs == [] then 0.0
    else (if inputs[0].Scroll? then inputs[0].delta else 0.0) + SumDeltas(inputs[1..])
  }

  /** One call of a sequence; the setters store as the class's setters do. */
  function RunStep(t: Trace, input: Input, m: MathFunctions): Trace {
    match input
    case Scroll(d) => t.(glide := Impulse(t.glide, d))
    case DecayRateSet(k) => t.(decayRate := Clamp(k, MinDecayRate, MaxDecayRate))
    case StopThresholdSet(th) => t.(stopThreshold := th)
    case Tick(dt) =>
      var r := Step(t.glide, t.offset, t.stopThreshold, DecayFactor(t.decayRate, dt, m));
      t.(glide := r.0, offset := r.1)
  }

  /** A whole call sequence. */
  function Run(t: Trace, inputs: seq<Input>, m: MathFunctions): Trace
    decreases |inputs|
  {
    if inputs == [] then t
    else Run(RunStep(t, inputs[0], m), inputs[1..], m)
  }

  /** Over any call sequence, whatever the settings written in between, offset + remaining moves
      by exactly minus the scrolled deltas, and the decay rate stays in its range. */
  lemma {:induction false} RunConserves(t: Trace, inputs: seq<Input>, m: MathFunctions)
    requires RestIsArrived(t.glide)
    ensures var r := Run(t, inputs, m);
      && RestIsArrived(r.glide)
      && r.offset + r.glide.remaining == t.offset + t.glide.remaining - SumDeltas(inputs)
      && (MinDecayRate <= t.decayRate <= MaxDecayRate ==> MinDecayRate <= r.decayRate <= MaxDecayRate)
    decreases |inputs|
  {
    if inputs != [] {
      if inputs[0].Tick? {
        StepConserves(t.glide, t.offset, t.stopThreshold, DecayFactor(t.decayRate, inputs[0].dt, m));
      }
      if inputs[0].DecayRateSet? {
        ClampInRange(inputs[0].rate, MinDecayRate, MaxDecayRate);
      }
      RunConserves(RunStep(t, inputs[0], m), inputs[1..], m);
    }
  }

  /** A fresh model (rate 8, threshold 0.5, at rest) that has come to rest again sits exactly at
      start - (sum of deltas), whatever settings were written along the way. */
  lemma RestingOffsetIsTarget(start: real, inputs: seq<Input>, m: MathFunctions)
    requires Run(Trace(Glide(0.0, true), start, DefaultDecayRate, DefaultStopThreshold), inputs, m).glide.isStable
    ensures Run(Trace(Glide(0.0, true), start, DefaultDecayRate, DefaultStopThreshold), inputs, m).offset
         == start - SumDeltas(inputs)
  {
    RunConserves(Trace(Glide(0.0, true), start, DefaultDecayRate, DefaultStopThreshold), inputs, m);
  }

  class ExponentialScrollPhysics {
    var decayRate: real
    var stopThreshold: real
    /** Stored and never read by the model. */
    var isPreciseMode: bool
    var remaining: real
    var isStable: bool

    ghost predicate Valid()
      reads this
    {
      MinDecayRate <= decayRate <= MaxDecayRate && RestIsArrived(Glide(remaining, isStable))
    }

    constructor ()
      ensures Valid()
      ensures decayRate == DefaultDecayRate && stopThreshold == DefaultStopThreshold
      ensures !isPreciseMode && remaining == 0.0 && isStable
    {
      decayRate := DefaultDecayRate;
      stopThreshold := DefaultStopThreshold;
      isPreciseMode := false;
      remaining := 0.0;
      isStable := true;
    }

    /** The DecayRate setter stores its argument clamped to [1, 20]. */
    method SetDecayRate(value: real)
      requires Valid()
      modifies this`decayRate
      ensures Valid()
      ensures decayRate == Clamp(value, MinDecayRate, MaxDecayRate)
      ensures MinDecayRate <= value <= MaxDecayRate ==> decayRate == value
    {
      decayRate := Clamp(value, MinDecayRate, MaxDecayRate);
    }

    /** The StopThreshold setter stores its argument as it is, whatever the documented range. */
    method SetStopThreshold(value: real)
      requires Valid()
      modifies this`stopThreshold
      ensures Valid() && stopThreshold == value
    {
      stopThreshold := value;
    }

    method SetPreciseMode(value: bool)
      requires Valid()
      modifies this`isPreciseMode
      ensures Valid() && isPreciseMode == value
    {
      isPreciseMode := value;
    }

    method OnScroll(delta: real)
      requires Valid()
      modifies this`remaining, this`isStable
      ensures Valid()
      ensures Glide(remaining, isStable) == Impulse(old(Glide(remaining, isStable)), delta)
      ensures !isStable && remaining == old(remaining) - delta
    {
      isStable := false;
      remaining := remaining - delta;
    }

    method Update(currentOffset: real, dt: real, m: MathFunctions) returns (newOffset: real)
      requires Valid()
      modifies this`remaining, this`isStable
      ensures Valid()
      ensures var r := Step(old(Glide(remaining, isStable)), currentOffset, stopThreshold, DecayFactor(decayRate, dt, m));
        Glide(remaining, isStable) == r.0 && newOffset == r.1
      ensures newOffset + remaining == currentOffset + old(remaining)
      ensures old(isStable) ==> isStable && newOffset == currentOffset
      ensures !old(isStable) && Abs(old(remaining)) < stopThreshold ==>
                isStable && remaining == 0.0 && newOffset == currentOffset + old(remaining)
      ensures Lawful(m) && dt >= 0.0 ==>
                Shrinks(old(remaining), remaining)
    {
      ghost var s := Glide(remaining, isStable);
      if isStable {
        return currentOffset;
      }
      if Abs(remaining) < stopThreshold {
        var finalDisplacement := remaining;
        remaining := 0.0;
        isStable := true;
        return currentOffset + finalDisplacement;
      }
      var factor := DecayFactor(decayRate, dt, m);
      var displacement := remaining * factor;
      remaining := remaining - displacement;
      newOffset := currentOffset + displacement;
      StepMoves(s, currentOffset, stopThreshold, factor);
      StepConserves(s, currentOffset, stopThreshold, factor);
      if Lawful(m) && dt >= 0.0 {
        DecayFactorRange(decayRate, dt, m);
        StepDecays(s, currentOffset, stopThreshold, factor);
      }
    }
  }
}
