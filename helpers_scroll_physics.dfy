/** Helpers/DefaultScrollPhysics.cs: the older dual-mode model the controller drives.
    Precise input (touchpad) seeks a clamped target by interpolation and snaps onto it;
    coarse input (wheel notches) accumulates velocity that decays by friction, and every
    coarse frame's offset is clamped to the bounds. The private Clamp of that file has exactly
    the body of MathExtension.Clamp and is modelled by it. */
module HelpersPhysics {
  import opened MathExtension
  import opened Transcendental

  const DefaultVelocityFactor: real := 2.0
  const DefaultFriction: real := 0.92
  const DefaultLerpFactor: real := 0.5
  const TargetFrameTime: real := 1.0 / 144.0
  /** A precise model closer to its target than this snaps onto it. */
  const SnapDistance: real := 0.5
  /** A coarse model slower than this comes to rest. */
  const RestSpeed: real := 0.1
  /** A coarse frame travels velocity * timeFactor / VelocityDivisor. */
  const VelocityDivisor: real := 24.0

  /** The three public tuning properties (auto-properties, stored as given). */
  datatype Tuning = Tuning(velocityFactor: real, friction: real, lerpFactor: real)

  /** The transient state of the model. */
  datatype Motion = Motion(velocity: real, target: real, isPrecision: bool, isStable: bool)

  /** Precise mode and rest both carry no velocity. */
  ghost predicate Consistent(s: Motion) {
    (s.isStable ==> s.velocity == 0.0) && (s.isPrecision ==> s.velocity == 0.0)
  }

  /** The time factor of a frame: dt measured in reference frames. */
  function TimeFactor(dt: real): (tf: real)
    ensures tf == 144.0 * dt
    ensures dt >= 0.0 ==> tf >= 0.0
  {
    dt / TargetFrameTime
  }

  /** The offset a precise frame moves to before snapping: a fraction 1 - (1 - lerpFactor)^tf of
      the way from the current offset to the target. */
  function PreciseNext(currentOffset: real, target: real, dt: real, p: Tuning, m: MathFunctions): real {
    currentOffset + (target - currentOffset) * (1.0 - m.pow(1.0 - p.lerpFactor, TimeFactor(dt)))
  }

  /** The velocity after a coarse frame: scaled by friction^tf. */
  function CoarseVelocity(velocity: real, dt: real, p: Tuning, m: MathFunctions): real {
    velocity * m.pow(p.friction, TimeFactor(dt))
  }

  /** OnScroll on the transient state. */
  function Impulse(s: Motion, currentOffset: real, delta: real, isPrecision: bool,
                   minOffset: real, maxOffset: real, velocityFactor: real): Motion
  {
    if isPrecision then Motion(0.0, Clamp(currentOffset - delta, minOffset, maxOffset), true, false)
    else Motion(s.velocity + -delta * velocityFactor, s.target, false, false)
  }

  /** Every impulse records its mode, makes the model move, and keeps it consistent. */
  lemma ImpulseSetsMode(s: Motion, currentOffset: real, delta: real, isPrecision: bool,
                        minOffset: real, maxOffset: real, velocityFactor: real)
    requires Consistent(s)
    ensures var s' := Impulse(s, currentOffset, delta, isPrecision, minOffset, maxOffset, velocityFactor);
      s'.isPrecision == isPrecision && !s'.isStable && Consistent(s')
  {
  }

  /** A precise impulse drops all momentum and aims at current - delta, clamped into
      ordered bounds. */
  lemma PreciseImpulseTargetsInBounds(s: Motion, currentOffset: real, delta: real,
                                      minOffset: real, maxOffset: real, velocityFactor: real)
    requires minOffset <= maxOffset
    ensures var s' := Impulse(s, currentOffset, delta, true, minOffset, maxOffset, velocityFactor);
      && s'.velocity == 0.0
      && minOffset <= s'.target <= maxOffset
      && (minOffset <= currentOffset - delta <= maxOffset ==> s'.target == currentOffset - delta)
  {
  }

  /** Coarse impulses accumulate: two notches add their scaled deltas to the velocity and
      leave the target alone. */
  lemma CoarseImpulsesAccumulate(s: Motion, o1: real, o2: real, d1: real, d2: real,
                                 minOffset: real, maxOffset: real, velocityFactor: real)
    ensures var s' := Impulse(Impulse(s, o1, d1, false, minOffset, maxOffset, velocityFactor),
                              o2, d2, false, minOffset, maxOffset, velocityFactor);
      s'.velocity == s.velocity - (d1 + d2) * velocityFactor && s'.target == s.target
  {
  }

  /** Update on the transient state: the new state and the returned offset. */
  function Step(s: Motion, currentOffset: real, dt: real, minOffset: real, maxOffset: real,
                p: Tuning, m: MathFunctions): (Motion, real)
  {
    if s.isStable then (s, currentOffset)
    else if s.isPrecision then
      var next := PreciseNext(currentOffset, s.target, dt, p, m);
      if Abs(s.target - next) < SnapDistance then (s.(isStable := true), s.target)
      else (s, next)
    else if Abs(s.velocity) < RestSpeed then (s.(velocity := 0.0, isStable := true), currentOffset)
    else
      var v := CoarseVelocity(s.velocity, dt, p, m);
      (s.(velocity := v), Clamp(currentOffset + v * (TimeFactor(dt) / VelocityDivisor), minOffset, maxOffset))
  }

  /** The precise branch of Step, spelled out for the imperative Update. */
  lemma StepPrecise(s: Motion, currentOffset: real, dt: real, minOffset: real, maxOffset: real,
                    p: Tuning, m: MathFunctions)
    requires s.isPrecision && !s.isStable
    ensures var next := PreciseNext(currentOffset, s.target, dt, p, m);
      && Step(s, currentOffset, dt, minOffset, maxOffset, p, m).0
         == (if Abs(s.target - next) < SnapDistance then s.(isStable := true) else s)
      && Step(s, currentOffset, dt, minOffset, maxOffset, p, m).1
         == (if Abs(s.target - next) < SnapDistance then s.target else next)
  {
  }

  /** The moving coarse branch of Step, spelled out for the imperative Update. */
  lemma StepCoarseMoves(s: Motion, currentOffset: real, dt: real, minOffset: real, maxOffset: real,
                        p: Tuning, m: MathFunctions)
    requires !s.isPrecision && !s.isStable && Abs(s.velocity) >= RestSpeed
    ensures var v := CoarseVelocity(s.velocity, dt, p, m);
      && Step(s, currentOffset, dt, minOffset, maxOffset, p, m).0 == s.(velocity := v)
      && Step(s, currentOffset, dt, minOffset, maxOffset, p, m).1
         == Clamp(currentOffset + v * (TimeFactor(dt) / VelocityDivisor), minOffset, maxOffset)
  {
  }

  /** Update keeps the state consistent, never changes the mode or the target. */
  lemma StepKeepsMode(s: Motion, currentOffset: real, dt: real, minOffset: real, maxOffset: real,
                      p: Tuning, m: MathFunctions)
    requires Consistent(s)
    ensures var r := Step(s, currentOffset, dt, minOffset, maxOffset, p, m);
      && Consistent(r.0)
      && r.0.isPrecision == s.isPrecision && r.0.target == s.target
      && (s.isStable ==> r.0 == s && r.1 == currentOffset)
  {
  }

  /** A precise model that comes to rest lands exactly on its target. */
  lemma PreciseRestIsExact(s: Motion, currentOffset: real, dt: real, minOffset: real, maxOffset: real,
                           p: Tuning, m: MathFunctions)
    requires s.isPrecision && !s.isStable
    ensures var r := Step(s, currentOffset, dt, minOffset, maxOffset, p, m);
      r.0.isStable ==> r.1 == s.target
  {
  }

  /** With a lawful Math.Pow, a lerp factor in [0, 1) and dt >= 0, a precise step lands between
      the current offset and the target and never moves away from the target. */
  lemma PreciseApproaches(s: Motion, currentOffset: real, dt: real, minOffset: real, maxOffset: real,
                          p: Tuning, m: MathFunctions)
    requires s.isPrecision && !s.isStable
    requires Lawful(m) && 0.0 <= p.lerpFactor < 1.0 && dt >= 0.0
    ensures var r := Step(s, currentOffset, dt, minOffset, maxOffset, p, m);
      && Abs(s.target - r.1) <= Abs(s.target - currentOffset)
      && (currentOffset <= s.target ==> currentOffset <= r.1 <= s.target)
      && (s.target <= currentOffset ==> s.target <= r.1 <= currentOffset)
  {
    var keep := m.pow(1.0 - p.lerpFactor, TimeFactor(dt));
    assert 0.0 < keep <= 1.0;
    var d := s.target - currentOffset;
    var lerp := 1.0 - keep;
    var next := currentOffset + d * lerp;
    assert s.target - next == d * keep by {
      MulDistributes(d, lerp);
    }
    ScaleShrinks(d, keep);
  }

  /** Starting inside the bounds with a target inside them, a precise step stays inside. */
  lemma PreciseStaysInBounds(s: Motion, currentOffset: real, dt: real, minOffset: real, maxOffset: real,
                             p: Tuning, m: MathFunctions)
    requires s.isPrecision && !s.isStable
    requires Lawful(m) && 0.0 <= p.lerpFactor < 1.0 && dt >= 0.0
    requires minOffset <= currentOffset <= maxOffset && minOffset <= s.target <= maxOffset
    ensures var r := Step(s, currentOffset, dt, minOffset, maxOffset, p, m);
      minOffset <= r.1 <= maxOffset
  {
    PreciseApproaches(s, currentOffset, dt, minOffset, maxOffset, p, m);
  }

  /** A slow coarse model stops where it is, without clamping. */
  lemma CoarseRestIsInPlace(s: Motion, currentOffset: real, dt: real, minOffset: real, maxOffset: real,
                            p: Tuning, m: MathFunctions)
    requires !s.isPrecision && !s.isStable && Abs(s.velocity) < RestSpeed
    ensures var r := Step(s, currentOffset, dt, minOffset, maxOffset, p, m);
      r.0.isStable && r.0.velocity == 0.0 && r.1 == currentOffset
  {
  }

  /** A moving coarse step returns an offset inside ordered bounds, whatever dt or the velocity. */
  lemma CoarseMoveInBounds(s: Motion, currentOffset: real, dt: real, minOffset: real, maxOffset: real,
                           p: Tuning, m: MathFunctions)
    requires !s.isPrecision && !s.isStable && Abs(s.velocity) >= RestSpeed
    requires minOffset <= maxOffset
    ensures var r := Step(s, currentOffset, dt, minOffset, maxOffset, p, m);
      !r.0.isStable && minOffset <= r.1 <= maxOffset
  {
  }

  /** With a lawful Math.Pow, a friction in (0, 1] and dt >= 0, coarse velocity keeps its sign
      and does not grow. */
  lemma CoarseDecays(s: Motion, currentOffset: real, dt: real, minOffset: real, maxOffset: real,
                     p: Tuning, m: MathFunctions)
    requires !s.isPrecision
    requires Lawful(m) && 0.0 < p.friction <= 1.0 && dt >= 0.0
    ensures Shrinks(s.velocity, Step(s, currentOffset, dt, minOffset, maxOffset, p, m).0.velocity)
  {
    var f := m.pow(p.friction, TimeFactor(dt));
    assert 0.0 < f <= 1.0;
    ScaleShrinks(s.velocity, f);
  }

  class DefaultScrollPhysics {
    var velocityFactor: real
    var friction: real
    var lerpFactor: real
    var velocity: real
    var targetOffset: real
    var isPrecision: bool
    var isStable: bool

    function State(): Motion
      reads this
    {
      Motion(velocity, targetOffset, isPrecision, isStable)
    }

    function Tunables(): Tuning
      reads this
    {
      Tuning(velocityFactor, friction, lerpFactor)
    }

    ghost predicate Valid()
      reads this
    {
      Consistent(State())
    }

    constructor ()
      ensures Valid()
      ensures Tunables() == Tuning(DefaultVelocityFactor, DefaultFriction, DefaultLerpFactor)
      ensures velocity == 0.0 && targetOffset == 0.0 && !isPrecision && isStable
    {
      velocityFactor := DefaultVelocityFactor;
      friction := DefaultFriction;
      lerpFactor := DefaultLerpFactor;
      velocity := 0.0;
      targetOffset := 0.0;
      isPrecision := false;
      isStable := true;
    }

    method OnScroll(currentOffset: real, delta: real, isPrecision': bool, minOffset: real, maxOffset: real)
      requires Valid()
      modifies this`velocity, this`targetOffset, this`isPrecision, this`isStable
      ensures Valid()
      ensures State() == Impulse(old(State()), currentOffset, delta, isPrecision', minOffset, maxOffset, velocityFactor)
      ensures isPrecision == isPrecision' && !isStable
      ensures isPrecision' ==> velocity == 0.0 && targetOffset == Clamp(currentOffset - delta, minOffset, maxOffset)
      ensures !isPrecision' ==> velocity == old(velocity) - delta * velocityFactor && targetOffset == old(targetOffset)
    {
      isPrecision := isPrecision';
      isStable := false;
      if isPrecision' {
        velocity := 0.0;
        targetOffset := Clamp(currentOffset - delta, minOffset, maxOffset);
      } else {
        velocity := velocity + -delta * velocityFactor;
      }
    }

    method Update(currentOffset: real, dt: real, minOffset: real, maxOffset: real, m: MathFunctions)
      returns (newOffset: real)
      requires Valid()
      modifies this`velocity, this`isStable
      ensures Valid()
      ensures State() == Step(old(State()), currentOffset, dt, minOffset, maxOffset, Tunables(), m).0
      ensures newOffset == Step(old(State()), currentOffset, dt, minOffset, maxOffset, Tunables(), m).1
      ensures old(isStable) ==> isStable && velocity == old(velocity) && newOffset == currentOffset
      ensures isPrecision && isStable && !old(isStable) ==> newOffset == targetOffset
      ensures !isPrecision && !isStable && minOffset <= maxOffset ==> minOffset <= newOffset <= maxOffset
    {
      ghost var s := State();
      if isStable {
        return currentOffset;
      }
      var timeFactor := TimeFactor(dt);
      newOffset := currentOffset;
      if isPrecision {
        newOffset := PreciseNext(currentOffset, targetOffset, dt, Tunables(), m);
        StepPrecise(s, currentOffset, dt, minOffset, maxOffset, Tunables(), m);
        if Abs(targetOffset - newOffset) < SnapDistance {
          newOffset := targetOffset;
          isStable := true;
        }
      } else {
        if Abs(velocity) < RestSpeed {
          velocity := 0.0;
          isStable := true;
        } else {
          velocity := CoarseVelocity(velocity, dt, Tunables(), m);
          var delta := velocity * (timeFactor / VelocityDivisor);
          newOffset := Clamp(currentOffset + delta, minOffset, maxOffset);
          StepCoarseMoves(s, currentOffset, dt, minOffset, maxOffset, Tunables(), m);
          if minOffset <= maxOffset {
            ClampInRange(currentOffset + delta, minOffset, maxOffset);
          }
        }
      }
    }
  }
}
