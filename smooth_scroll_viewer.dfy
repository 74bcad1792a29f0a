/** C# integer arithmetic the controller depends on: 32-bit wrap-around of `int` subtraction
    and the truncating remainder operator. */
module CSharpInt {
  const Modulus: int := 0x1_0000_0000

  newtype int32 = x: int | -0x8000_0000 <= x < 0x8000_0000

  /** The 32-bit two's-complement value of x: what unchecked `int` arithmetic yields. */
  function Wrap32(x: int): (r: int32)
    ensures (r as int - x) % Modulus == 0
  {
    var y := x % Modulus;
    if y >= 0x8000_0000 then (y - Modulus) as int32 else y as int32
  }

  /** Wrap32 forgets whole multiples of 2^32. */
  lemma WrapShift(x: int, k: int)
    ensures Wrap32(x + k * Modulus) == Wrap32(x)
  {
    assert (x + k * Modulus) % Modulus == x % Modulus;
  }

  /** Wrap32 leaves values that already fit unchanged. */
  lemma WrapInRange(x: int)
    requires -0x8000_0000 <= x < 0x8000_0000
    ensures Wrap32(x) as int == x
  {
  }

  /** Subtracting an earlier reading of a wrapping 32-bit counter recovers the time elapsed,
      as long as less than 2^31 ticks passed, even when the counter overflowed in between. */
  lemma WrapRecoversElapsed(last: int32, elapsed: int)
    requires -0x8000_0000 <= elapsed < 0x8000_0000
    ensures Wrap32(Wrap32(last as int + elapsed) as int - last as int) as int == elapsed
  {
    var t := last as int + elapsed;
    var w := Wrap32(t) as int;
    var k := (t - w) / Modulus;
    assert t - w == k * Modulus;
    assert w - last as int + k * Modulus == elapsed;
    WrapShift(w - last as int, k);
    WrapInRange(elapsed);
  }

  /** The C# `%` operator for a positive divisor (the only divisor used here): the remainder
      truncates toward zero and takes the dividend's sign. */
  function Rem(a: int, b: int): (r: int)
    requires b > 0
    ensures a >= 0 ==> 0 <= r < b
    ensures a < 0 ==> -b < r <= 0
  {
    if a < 0 then -((-a) % b) else a % b
  }

  /** Testing a C# remainder by a wheel line (120) against zero tests divisibility, so for a
      negative delta it agrees with Dafny's Euclidean `%`. */
  lemma RemZeroIffDivides(a: int)
    ensures Rem(a, 120) == 0 <==> a % 120 == 0
  {
    if a < 0 {
      var q := (-a) / 120;
      var r := (-a) % 120;
      assert -a == q * 120 + r;
      if r != 0 {
        assert a == (-q - 1) * 120 + (120 - r);
      }
    }
  }
}

/** Controls/SmoothScrollViewer.cs: the controller that drives the dual-mode physics model and
    keeps the displayed content at the smooth (visual) offset while the host ScrollViewer's own
    (logical) offset is synchronised only now and then.

    The host is abstract: its VerticalOffset and ScrollableHeight arrive as handler arguments and
    every ScrollToVerticalOffset call is appended to `scrollRequests`. The content's
    TranslateTransform is its Y value and IsHitTestVisible a flag. The clocks
    (Stopwatch.GetTimestamp, Environment.TickCount, the wheel event's Timestamp) are arguments,
    and the CompositionTarget.Rendering subscription is the `isRendering` flag. */
module SmoothScroll {
  import opened MathExtension
  import opened Transcendental
  import opened CSharpInt
  import HelpersPhysics

  /** The host setter is called at most at 24 Hz while rendering. */
  const ScrollBarUpdateInterval: real := 1.0 / 24.0
  /** Mouse.MouseWheelDeltaForOneLine. */
  const MouseWheelDeltaForOneLine: int := 120
  /** Wheel events closer than this (in TickCount milliseconds) count as one gesture. */
  const TouchpadGestureGap: int := 100

  /** The touchpad rule of IsTouchpadScroll: a delta that is not a whole number of wheel lines,
      or any delta arriving within 100 ms of one that was not. */
  function IsPrecise(delta: int32, tickCount: int32, lastTick: int32, lastDelta: int32): bool {
    || Rem(delta as int, MouseWheelDeltaForOneLine) != 0
    || (Wrap32(tickCount as int - lastTick as int) < TouchpadGestureGap as int32
        && Rem(lastDelta as int, MouseWheelDeltaForOneLine) != 0)
  }

  /** Described in terms of divisibility: a fractional delta is always precise; a whole-line delta
      is precise exactly when the previous delta was fractional and the wrapped gap is under 100. */
  lemma IsPreciseMeaning(delta: int32, tickCount: int32, lastTick: int32, lastDelta: int32)
    ensures delta as int % 120 != 0 ==> IsPrecise(delta, tickCount, lastTick, lastDelta)
    ensures delta as int % 120 == 0 ==>
      (IsPrecise(delta, tickCount, lastTick, lastDelta)
       <==> lastDelta as int % 120 != 0 && Wrap32(tickCount as int - lastTick as int) < 100)
  {
    RemZeroIffDivides(delta as int);
    RemZeroIffDivides(lastDelta as int);
  }

  /** A mouse wheel that only ever sends whole lines (in either direction) is never taken for a
      touchpad. */
  lemma WholeLinesAreCoarse(k: int, tickCount: int32, lastTick: int32, j: int)
    requires -17_000_000 <= k <= 17_000_000 && -17_000_000 <= j <= 17_000_000
    ensures !IsPrecise((k * 120) as int32, tickCount, lastTick, (j * 120) as int32)
  {
    IsPreciseMeaning((k * 120) as int32, tickCount, lastTick, (j * 120) as int32);
  }

  /** The gap is computed on wrapped 32-bit ticks: 30 ms that straddle the counter's overflow
      still count as a short gap (the first operand wrapped to a negative TickCount). */
  lemma GapAcrossOverflow()
    ensures Wrap32(Wrap32(0x7FFF_FFF0 + 30) as int - 0x7FFF_FFF0) == 30
    ensures IsPrecise(240, Wrap32(0x7FFF_FFF0 + 30), 0x7FFF_FFF0, 7)
  {
    WrapRecoversElapsed(0x7FFF_FFF0, 30);
  }

  /** The throttle of OnRendering: add the frame time, and sync (resetting to 0) once the
      interval is reached. */
  function Throttle(accumulator: real, dt: real): (r: (real, bool))
    ensures r.1 <==> accumulator + dt >= ScrollBarUpdateInterval
    ensures r.0 < ScrollBarUpdateInterval
    ensures r.1 ==> r.0 == 0.0
  {
    var a := accumulator + dt;
    if a >= ScrollBarUpdateInterval then (0.0, true) else (a, false)
  }

  /** Sum of a sequence of frame times. */
  function Total(dts: seq<real>): real
    decreases |dts|
  {
    if dts == [] then 0.0 else dts[0] + Total(dts[1..])
  }

  /** The accumulator after a run of frames, and how many host syncs they made. */
  function ThrottleRun(accumulator: real, dts: seq<real>): (real, nat)
    decreases |dts|
  {
    if dts == [] then (accumulator, 0)
    else
      var r := Throttle(accumulator, dts[0]);
      var rest := ThrottleRun(r.0, dts[1..]);
      (rest.0, rest.1 + (if r.1 then 1 else 0))
  }

  /** With non-negative frame times the host is synced at most once per 1/24 s of elapsed time:
      the syncs, each worth an interval, plus what is still accumulated never exceed the time. */
  lemma {:induction false} ThrottleRate(accumulator: real, dts: seq<real>)
    requires accumulator >= 0.0
    requires forall i :: 0 <= i < |dts| ==> dts[i] >= 0.0
    ensures var r := ThrottleRun(accumulator, dts);
      0.0 <= r.0 && r.1 as real * ScrollBarUpdateInterval + r.0 <= accumulator + Total(dts)
    decreases |dts|
  {
    if dts != [] {
      var r := Throttle(accumulator, dts[0]);
      assert forall i :: 0 <= i < |dts[1..]| ==> dts[1..][i] >= 0.0 by {
        forall i | 0 <= i < |dts[1..]| ensures dts[1..][i] >= 0.0 {
          assert dts[1..][i] == dts[i + 1];
        }
      }
      ThrottleRate(r.0, dts[1..]);
    }
  }

  /** Frames each at least one interval long sync the host on every frame. */
  lemma {:induction false} LongFramesAlwaysSync(accumulator: real, dts: seq<real>)
    requires accumulator >= 0.0
    requires forall i :: 0 <= i < |dts| ==> dts[i] >= ScrollBarUpdateInterval
    ensures ThrottleRun(accumulator, dts).1 == |dts|
    decreases |dts|
  {
    if dts != [] {
      assert forall i :: 0 <= i < |dts[1..]| ==> dts[1..][i] >= ScrollBarUpdateInterval by {
        forall i | 0 <= i < |dts[1..]| ensures dts[1..][i] >= ScrollBarUpdateInterval {
          assert dts[1..][i] == dts[i + 1];
        }
      }
      LongFramesAlwaysSync(0.0, dts[1..]);
    }
  }

  /** dt of a frame: elapsed Stopwatch ticks over the Stopwatch frequency. */
  function Elapsed(lastTimestamp: int, now: int, frequency: int): real
    requires frequency > 0
  {
    (now - lastTimestamp) as real / frequency as real
  }

  class SmoothScrollViewer {
    var logicalOffset: real
    var currentVisualOffset: real
    var visualDelta: real
    var lastTimestamp: int
    var scrollBarUpdateAccumulator: real
    var isRendering: bool
    /** The content's TranslateTransform.Y. */
    var transformY: real
    /** The content's IsHitTestVisible. */
    var contentHitTestVisible: bool
    var lastScrollDelta: int32
    var lastScrollingTick: int32
    /** Every ScrollToVerticalOffset sent to the host, oldest first. */
    var scrollRequests: seq<real>
    const physics: HelpersPhysics.DefaultScrollPhysics
    /** Stopwatch.Frequency. */
    const frequency: int

    /** Where the content appears: the host's offset moved by the transform. */
    function DisplayedOffset(): real
      reads this
    {
      logicalOffset - transformY
    }

    /** What holds at every handler boundary and also in the middle of a frame, after the physics
        model has come to rest and before StopRendering runs. */
    ghost predicate Settled()
      reads this, physics
    {
      && physics.Valid()
      && frequency > 0
      && transformY == -visualDelta
      && scrollBarUpdateAccumulator < ScrollBarUpdateInterval
      && (isRendering ==> !contentHitTestVisible)
      && (!isRendering ==> visualDelta == 0.0 && contentHitTestVisible)
    }

    /** The controller's invariant: while rendering, the transform makes up exactly for the gap
        between the visual and the logical offset, and the physics model is still moving. */
    ghost predicate Valid()
      reads this, physics
    {
      && Settled()
      && (isRendering ==> visualDelta == currentVisualOffset - logicalOffset && !physics.isStable)
    }

    /** While rendering the content is shown at the visual offset; while idle at the host's. */
    lemma DisplayedIsVisualWhileRendering()
      requires Valid()
      ensures isRendering ==> DisplayedOffset() == currentVisualOffset
      ensures !isRendering ==> DisplayedOffset() == logicalOffset && transformY == 0.0
    {
    }

    /** The control after Loaded, with a UIElement content and a fresh physics model. */
    constructor (stopwatchFrequency: int)
      requires stopwatchFrequency > 0
      ensures Valid() && fresh(physics)
      ensures !isRendering && logicalOffset == 0.0 && currentVisualOffset == 0.0
      ensures scrollBarUpdateAccumulator == 0.0 && scrollRequests == []
      ensures physics.isStable && lastScrollDelta == 0 && lastScrollingTick == 0
    {
      logicalOffset := 0.0;
      currentVisualOffset := 0.0;
      visualDelta := 0.0;
      lastTimestamp := 0;
      scrollBarUpdateAccumulator := 0.0;
      isRendering := false;
      transformY := 0.0;
      contentHitTestVisible := true;
      lastScrollDelta := 0;
      lastScrollingTick := 0;
      scrollRequests := [];
      physics := new HelpersPhysics.DefaultScrollPhysics();
      frequency := stopwatchFrequency;
    }

    /** IsTouchpadScroll: classify the event, then remember its delta and its Timestamp (not the
        TickCount it was compared with). */
    method IsTouchpadScroll(delta: int32, timestamp: int32, tickCount: int32) returns (isPrecision: bool)
      modifies this`lastScrollDelta, this`lastScrollingTick
      ensures isPrecision == IsPrecise(delta, tickCount, old(lastScrollingTick), old(lastScrollDelta))
      ensures lastScrollDelta == delta && lastScrollingTick == timestamp
    {
      isPrecision :=
        || Rem(delta as int, MouseWheelDeltaForOneLine) != 0
        || (Wrap32(tickCount as int - lastScrollingTick as int) < TouchpadGestureGap as int32
            && Rem(lastScrollDelta as int, MouseWheelDeltaForOneLine) != 0);
      lastScrollDelta := delta;
      lastScrollingTick := timestamp;
    }

    /** Subscribe to the frame loop. Its only caller has just moved the physics model and, when
        idle, aligned the visual offset with the logical one. */
    method StartRendering(now: int)
      requires Valid() && !physics.isStable
      requires !isRendering ==> currentVisualOffset == logicalOffset
      modifies this`lastTimestamp, this`scrollBarUpdateAccumulator, this`isRendering, this`contentHitTestVisible
      ensures Valid() && isRendering
      ensures old(isRendering) ==> unchanged(this)
      ensures !old(isRendering) ==>
        lastTimestamp == now && scrollBarUpdateAccumulator == 0.0 && !contentHitTestVisible
    {
      if isRendering {
        return;
      }
      lastTimestamp := now;
      scrollBarUpdateAccumulator := 0.0;
      isRendering := true;
      contentHitTestVisible := false;
    }

    /** Unsubscribe and settle: send the visual offset, clamped to the scrollable range, to the
        host and drop the transform. The visual offset itself is left as it was. */
    method StopRendering(scrollableHeight: real)
      requires Settled()
      modifies this`isRendering, this`visualDelta, this`logicalOffset, this`transformY,
               this`contentHitTestVisible, this`scrollRequests
      ensures Valid() && !isRendering
      ensures !old(isRendering) ==> unchanged(this)
      ensures old(isRendering) ==>
        var final := Clamp(currentVisualOffset, 0.0, scrollableHeight);
        && scrollRequests == old(scrollRequests) + [final]
        && logicalOffset == final
        && visualDelta == 0.0 && transformY == 0.0 && contentHitTestVisible
    {
      if !isRendering {
        return;
      }
      isRendering := false;
      var finalOffset := Clamp(currentVisualOffset, 0.0, scrollableHeight);
      scrollRequests := scrollRequests + [finalOffset];
      visualDelta := 0.0;
      logicalOffset := finalOffset;
      transformY := 0.0;
      contentHitTestVisible := true;
    }

    method OnUnloaded(scrollableHeight: real)
      requires Valid()
      modifies this`isRendering, this`visualDelta, this`logicalOffset, this`transformY,
               this`contentHitTestVisible, this`scrollRequests
      ensures Valid() && !isRendering
      ensures !old(isRendering) ==> unchanged(this)
      ensures old(isRendering) ==>
        && scrollRequests == old(scrollRequests) + [Clamp(currentVisualOffset, 0.0, scrollableHeight)]
        && logicalOffset == Clamp(currentVisualOffset, 0.0, scrollableHeight)
    {
      StopRendering(scrollableHeight);
    }

    /** A wheel event: always handled. An idle control first takes the host's offset as both the
        logical and the visual offset; a rendering one keeps gliding from where it is, so the new
        impulse adds to the current motion. */
    method OnMouseWheel(delta: int32, timestamp: int32, tickCount: int32, now: int,
                        verticalOffset: real, scrollableHeight: real) returns (handled: bool)
      requires Valid()
      modifies this`logicalOffset, this`currentVisualOffset, this`visualDelta, this`lastScrollDelta,
               this`lastScrollingTick, this`lastTimestamp, this`scrollBarUpdateAccumulator,
               this`isRendering, this`contentHitTestVisible,
               physics`velocity, physics`targetOffset, physics`isPrecision, physics`isStable
      ensures Valid() && handled && isRendering && !contentHitTestVisible
      ensures lastScrollDelta == delta && lastScrollingTick == timestamp
      ensures physics.State()
           == HelpersPhysics.Impulse(old(physics.State()), currentVisualOffset, delta as real,
                                     IsPrecise(delta, tickCount, old(lastScrollingTick), old(lastScrollDelta)),
                                     0.0, scrollableHeight, physics.velocityFactor)
      ensures !old(isRendering) ==>
        && logicalOffset == verticalOffset && currentVisualOffset == verticalOffset
        && lastTimestamp == now && scrollBarUpdateAccumulator == 0.0
      ensures old(isRendering) ==>
        && logicalOffset == old(logicalOffset) && currentVisualOffset == old(currentVisualOffset)
        && lastTimestamp == old(lastTimestamp)
        && scrollBarUpdateAccumulator == old(scrollBarUpdateAccumulator)
      ensures scrollRequests == old(scrollRequests) && transformY == old(transformY)
    {
      handled := true;
      if !isRendering {
        logicalOffset := verticalOffset;
        currentVisualOffset := logicalOffset;
        visualDelta := 0.0;
      }
      var isPrecision := IsTouchpadScroll(delta, timestamp, tickCount);
      physics.OnScroll(currentVisualOffset, delta as real, isPrecision, 0.0, scrollableHeight);
      StartRendering(now);
    }

    /** The host's offset changed. While rendering the transform is recomputed so that the
        content stays at the visual offset; while idle (a scroll-bar drag, say) it is dropped. */
    method OnScrollChanged(verticalChange: real, verticalOffset: real)
      requires Valid()
      modifies this`logicalOffset, this`visualDelta, this`transformY
      ensures Valid()
      ensures verticalChange == 0.0 ==> unchanged(this)
      ensures verticalChange != 0.0 ==>
        && logicalOffset == verticalOffset
        && (isRendering ==> DisplayedOffset() == currentVisualOffset)
        && (!isRendering ==> visualDelta == 0.0 && transformY == 0.0)
    {
      if verticalChange == 0.0 {
        return;
      }
      logicalOffset := verticalOffset;
      if isRendering {
        visualDelta := currentVisualOffset - logicalOffset;
        transformY := -visualDelta;
      } else {
        visualDelta := 0.0;
        transformY := 0.0;
      }
    }

    /** One frame: advance the physics model by the elapsed time. If it has come to rest, stop at
        once (no periodic sync on that frame); otherwise sync the host through the throttle and
        move the transform so that the content is shown at the new visual offset. */
    method OnRendering(now: int, scrollableHeight: real, m: MathFunctions)
      requires Valid() && isRendering
      modifies this`lastTimestamp, this`currentVisualOffset, this`scrollBarUpdateAccumulator,
               this`isRendering, this`visualDelta, this`logicalOffset, this`transformY,
               this`contentHitTestVisible, this`scrollRequests,
               physics`velocity, physics`isStable
      ensures Valid() && lastTimestamp == now
      ensures var step := HelpersPhysics.Step(old(physics.State()), old(currentVisualOffset),
                                              Elapsed(old(lastTimestamp), now, frequency),
                                              0.0, scrollableHeight, physics.Tunables(), m);
        physics.State() == step.0 && currentVisualOffset == step.1
      ensures physics.isStable ==>
        && !isRendering
        && logicalOffset == Clamp(currentVisualOffset, 0.0, scrollableHeight)
        && scrollRequests == old(scrollRequests) + [logicalOffset]
        && scrollBarUpdateAccumulator == old(scrollBarUpdateAccumulator)
      ensures !physics.isStable ==>
        var t := Throttle(old(scrollBarUpdateAccumulator), Elapsed(old(lastTimestamp), now, frequency));
        && isRendering
        && logicalOffset == old(logicalOffset)
        && scrollBarUpdateAccumulator == t.0
        && scrollRequests == old(scrollRequests) + (if t.1 then [currentVisualOffset] else [])
        && DisplayedOffset() == currentVisualOffset
    {
      var dt := Elapsed(lastTimestamp, now, frequency);
      lastTimestamp := now;
      currentVisualOffset := physics.Update(currentVisualOffset, dt, 0.0, scrollableHeight, m);
      if physics.isStable {
        StopRendering(scrollableHeight);
        return;
      }
      scrollBarUpdateAccumulator := scrollBarUpdateAccumulator + dt;
      if scrollBarUpdateAccumulator >= ScrollBarUpdateInterval {
        scrollBarUpdateAccumulator := 0.0;
        scrollRequests := scrollRequests + [currentVisualOffset];
      }
      visualDelta := currentVisualOffset - logicalOffset;
      transformY := -visualDelta;
    }
  }
}
