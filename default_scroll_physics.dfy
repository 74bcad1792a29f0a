/** ScrollPhysics/DefaultScrollPhysics.cs: the velocity/friction model.
    OnScroll subtracts the impulse from the velocity; each Update moves by velocity * (1 - f) and
    keeps velocity * f, where f is the friction raised to dt / ReferenceFrameTime. */
module DefaultPhysics {
  import opened MathExtension
  import opened Transcendental

  const MinFriction: real := 0.85
  const MaxFriction: real := 0.96
  const DefaultSmoothness: real := 0.72
  const ReferenceFrameTime: real := 1.0 / 144.0
  /** Below this speed the model drops the residual velocity and comes to rest. */
  const RestSpeed: real := 0.5

  /** The Friction property: smoothness 0 gives MinFriction, smoothness 1 gives MaxFriction. */
  function FrictionOf(smoothness: real): (f: real)
    ensures 0.0 <= smoothness <= 1.0 ==> MinFriction <= f <= MaxFriction
    ensures smoothness == 0.0 ==> f == MinFriction
    ensures smoothness == 1.0 ==> f == MaxFriction
  {
    MinFriction + smoothness * (MaxFriction - MinFriction)
  }

  /** A smoother setting never gives a smaller friction. */
  lemma FrictionMonotone(s1: real, s2: real)
    requires s1 <= s2
    ensures FrictionOf(s1) <= FrictionOf(s2)
  {
  }

  /** The time factor of a frame: dt measured in reference frames. */
  function TimeFactor(dt: real): (tf: real)
    ensures tf == 144.0 * dt
    ensures dt >= 0.0 ==> tf >= 0.0
    ensures dt == 0.0 ==> tf == 0.0
  {
    dt / ReferenceFrameTime
  }

  /** With a lawful Math.Pow and a non-negative dt, the per-frame factor lies in (0, 1]. */
  lemma FactorInUnitInterval(smoothness: real, dt: real, m: MathFunctions)
    requires Lawful(m) && 0.0 <= smoothness <= 1.0 && dt >= 0.0
    ensures 0.0 < m.pow(FrictionOf(smoothness), TimeFactor(dt)) <= 1.0
  {
    var f := FrictionOf(smoothness);
    var tf := TimeFactor(dt);
    assert 0.0 < f <= 1.0 && 0.0 <= tf;
  }

  /** The transient state of the model. */
  datatype Motion = Motion(velocity: real, isStable: bool)

  /** A model at rest carries no velocity. */
  ghost predicate RestIsStill(s: Motion) {
    s.isStable ==> s.velocity == 0.0
  }

  /** OnScroll on the transient state. */
  function Impulse(s: Motion, delta: real): Motion {
    Motion(s.velocity - delta, false)
  }

  /** Impulses accumulate: two scrolls add their deltas to the same velocity. */
  lemma ImpulsesAccumulate(s: Motion, d1: real, d2: real)
    ensures Impulse(Impulse(s, d1), d2) == Impulse(s, d1 + d2)
  {
  }

  /** Update on the transient state with the time-scaled friction factor f:
      the new state and the returned offset. */
  function Step(s: Motion, currentOffset: real, f: real): (Motion, real) {
    if s.isStable then (s, currentOffset)
    else if Abs(s.velocity) < RestSpeed then (Motion(0.0, true), currentOffset)
    else (Motion(s.velocity * f, false), currentOffset + s.velocity * (1.0 - f))
  }

  /** At rest, Update is a no-op. */
  lemma StepAtRest(s: Motion, currentOffset: real, f: real)
    requires s.isStable
    ensures Step(s, currentOffset, f) == (s, currentOffset)
  {
  }

  /** A slow model comes to rest where it is: the residual it drops is below RestSpeed. */
  lemma StepSnaps(s: Motion, currentOffset: real, f: real)
    requires !s.isStable && Abs(s.velocity) < RestSpeed
    ensures Step(s, currentOffset, f) == (Motion(0.0, true), currentOffset)
    ensures Abs(Step(s, currentOffset, f).1 - (currentOffset + s.velocity)) < RestSpeed
  {
  }

  /** A moving step keeps offset + velocity: what the step travels is taken from the velocity. */
  lemma StepConserves(s: Motion, currentOffset: real, f: real)
    requires !s.isStable && Abs(s.velocity) >= RestSpeed
    ensures var (s', o') := Step(s, currentOffset, f);
      !s'.isStable && o' + s'.velocity == currentOffset + s.velocity
  {
    var v := s.velocity;
    assert currentOffset + v * (1.0 - f) + v * f == currentOffset + v;
  }

  /** With f in (0, 1] the velocity keeps its sign and does not grow. */
  lemma StepDecays(s: Motion, currentOffset: real, f: real)
    requires 0.0 < f <= 1.0
    ensures var (s', o') := Step(s, currentOffset, f);
      Shrinks(s.velocity, s'.velocity)
  {
    var v := s.velocity;
    if !s.isStable && Abs(v) >= RestSpeed {
      ScaleShrinks(v, f);
    }
  }

  /** The moving branch of Step, spelled out for the imperative Update. */
  lemma StepMoves(s: Motion, currentOffset: real, f: real)
    requires !s.isStable && Abs(s.velocity) >= RestSpeed
    ensures Step(s, currentOffset, f).0 == Motion(s.velocity * f, false)
    ensures Step(s, currentOffset, f).1 == currentOffset + s.velocity * (1.0 - f)
  {
  }

  /** A frame of zero length (f = Pow(friction, 0) = 1) moves nothing and keeps the velocity. */
  lemma StepZeroTime(s: Motion, currentOffset: real)
    requires !s.isStable && Abs(s.velocity) >= RestSpeed
    ensures Step(s, currentOffset, 1.0) == (s, currentOffset)
  {
  }

  /** A call made by a client that feeds every returned offset into the next Update: a scroll,
      a frame, or a write of the Smoothness property between frames. */
  datatype Input = Scroll(delta: real) | Tick(dt: real) | SmoothnessSet(value: real)

  /** What such a client sees, plus the bookkeeping of the residual velocities the model drops:
      `dropped` sums them and `stops` counts the steps that brought the model to rest. The
      smoothness in force is part of the trace, so each frame uses the friction of its moment. */
  datatype Trace = Trace(motion: Motion, offset: real, dropped: real, stops: nat, smoothness: real)

  /** Sum of the scroll deltas in a call sequence. */
  function SumDeltas(inputs: seq<Input>): real
    decreases |inputs|
  {
    if inputs == [] then 0.0
    else (if inputs[0].Scroll? then inputs[0].delta else 0.0) + SumDeltas(inputs[1..])
  }

  /** The per-frame factor of a frame of length dt at the given smoothness. */
  function FrameFactor(smoothness: real, dt: real, m: MathFunctions): real {
    m.pow(FrictionOf(smoothness), TimeFactor(dt))
  }

  /** One call of a sequence. */
  function RunStep(t: Trace, input: Input, m: MathFunctions): Trace {
    match input
    case Scroll(d) => t.(motion := Impulse(t.motion, d))
    case SmoothnessSet(v) => t.(smoothness := Clamp(v, 0.0, 1.0))
    case Tick(dt) =>
      var (s', o') := Step(t.motion, t.offset, FrameFactor(t.smoothness, dt, m));
      if !t.motion.isStable && s'.isStable then Trace(s', o', t.dropped + t.motion.velocity, t.stops + 1, t.smoothness)
      else Trace(s', o', t.dropped, t.stops, t.smoothness)
  }

  /** A whole call sequence. */
  function Run(t: Trace, inputs: seq<Input>, m: MathFunctions): Trace
    decreases |inputs|
  {
    if inputs == [] then t else Run(RunStep(t, inputs[0], m), inputs[1..], m)
  }

  /** Over any call sequence, whatever the smoothness settings in between, offset + velocity moves
      by exactly minus the scrolled deltas, except for the residuals dropped at rest, each below
      RestSpeed. The smoothness stays in [0, 1]. */
  lemma {:induction false} RunAccounting(t: Trace, inputs: seq<Input>, m: MathFunctions)
    requires RestIsStill(t.motion)
    ensures var r := Run(t, inputs, m);
      && RestIsStill(r.motion)
      && r.offset + r.motion.velocity + r.dropped
         == t.offset + t.motion.velocity + t.dropped - SumDeltas(inputs)
      && r.stops >= t.stops
      && (r.stops == t.stops ==> r.dropped == t.dropped)
      && (r.stops > t.stops ==> Abs(r.dropped - t.dropped) < RestSpeed * (r.stops - t.stops) as real)
      && (0.0 <= t.smoothness <= 1.0 ==> 0.0 <= r.smoothness <= 1.0)
    decreases |inputs|
  {
    if inputs != [] {
      if inputs[0].Tick? && !t.motion.isStable && Abs(t.motion.velocity) >= RestSpeed {
        StepConserves(t.motion, t.offset, FrameFactor(t.smoothness, inputs[0].dt, m));
      }
      if inputs[0].SmoothnessSet? {
        ClampInRange(inputs[0].value, 0.0, 1.0);
      }
      RunAccounting(RunStep(t, inputs[0], m), inputs[1..], m);
    }
  }

  /** A fresh model (smoothness 0.72, at rest) that has come to rest again sits at
      start - (sum of deltas), up to the residuals it dropped: within RestSpeed for a single
      gesture (one stop), whatever smoothness was set along the way. */
  lemma RestingOffsetNearTarget(start: real, inputs: seq<Input>, m: MathFunctions)
    requires Run(Trace(Motion(0.0, true), start, 0.0, 0, DefaultSmoothness), inputs, m).motion.isStable
    ensures var r := Run(Trace(Motion(0.0, true), start, 0.0, 0, DefaultSmoothness), inputs, m);
      && (r.stops == 0 ==> r.offset == start - SumDeltas(inputs))
      && (r.stops > 0 ==> Abs(r.offset - (start - SumDeltas(inputs))) < RestSpeed * r.stops as real)
  {
    RunAccounting(Trace(Motion(0.0, true), start, 0.0, 0, DefaultSmoothness), inputs, m);
  }

  class DefaultScrollPhysics {
    var smoothness: real
    var velocity: real
    var isStable: bool

    ghost predicate Valid()
      reads this
    {
      0.0 <= smoothness <= 1.0 && RestIsStill(Motion(velocity, isStable))
    }

    constructor ()
      ensures Valid()
      ensures smoothness == DefaultSmoothness && velocity == 0.0 && isStable
    {
      smoothness := DefaultSmoothness;
      velocity := 0.0;
      isStable := true;
    }

    /** The Smoothness setter stores its argument clamped to [0, 1]. */
    method SetSmoothness(value: real)
      requires Valid()
      modifies this`smoothness
      ensures Valid()
      ensures smoothness == Clamp(value, 0.0, 1.0)
      ensures 0.0 <= value <= 1.0 ==> smoothness == value
    {
      smoothness := Clamp(value, 0.0, 1.0);
    }

    method OnScroll(delta: real)
      requires Valid()
      modifies this`velocity, this`isStable
      ensures Valid()
      ensures Motion(velocity, isStable) == Impulse(old(Motion(velocity, isStable)), delta)
      ensures !isStable && velocity == old(velocity) - delta
    {
      isStable := false;
      velocity := velocity - delta;
    }

    method Update(currentOffset: real, dt: real, m: MathFunctions) returns (newOffset: real)
      requires Valid()
      modifies this`velocity, this`isStable
      ensures Valid()
      ensures var r := Step(old(Motion(velocity, isStable)), currentOffset, FrameFactor(smoothness, dt, m));
        Motion(velocity, isStable) == r.0 && newOffset == r.1
      ensures old(isStable) ==> isStable && velocity == old(velocity) && newOffset == currentOffset
      ensures !old(isStable) && isStable ==>
                velocity == 0.0 && newOffset == currentOffset && Abs(old(velocity)) < RestSpeed
      ensures !isStable ==> newOffset + velocity == currentOffset + old(velocity)
      ensures Lawful(m) && dt >= 0.0 ==>
                Shrinks(old(velocity), velocity)
      ensures Lawful(m) && dt == 0.0 ==> newOffset == currentOffset
    {
      ghost var s := Motion(velocity, isStable);
      if isStable {
        return currentOffset;
      }
      var timeFactor := TimeFactor(dt);
      newOffset := currentOffset;
      if Abs(velocity) < RestSpeed {
        velocity := 0.0;
        isStable := true;
      } else {
        var friction := m.pow(FrictionOf(smoothness), timeFactor);
        var displacement := velocity * (1.0 - friction);
        velocity := velocity * friction;
        newOffset := currentOffset + displacement;
        StepMoves(s, currentOffset, friction);
        StepConserves(s, currentOffset, friction);
        if Lawful(m) && dt >= 0.0 {
          FactorInUnitInterval(smoothness, dt, m);
          StepDecays(s, currentOffset, friction);
        }
      }
    }
  }
}
