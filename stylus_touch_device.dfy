/** AttachedProperties/StylusTouchDevice.cs: turns stylus input into touch input. A stylus going
    down activates a fresh touch device and reports Down; moves are reported once the pen has
    travelled MoveThreshold from where it went down (and from then on without the check), the
    first reported move capturing the stylus to the element under it; the pen going up reports
    Up and deactivates the device.

    The class's static fields are the fields of one object. The touch device's WPF calls
    (Activate, ReportDown, ReportMove, ReportUp, Deactivate) and the stylus capture calls are
    appended to `reports`. Event positions, the device's hash code and each sender's MoveThreshold
    are arguments. */
module StylusTouch {
  import Wrappers

  /** The MoveThreshold attached property's default, in device-independent pixels. */
  const DefaultMoveThreshold: real := 3.0

  datatype Point = Point(x: real, y: real)

  /** (p1.X - p2.X)^2 + (p1.Y - p2.Y)^2: the square of GetPointDistance. */
  function SquaredDistance(p1: Point, p2: Point): (r: real)
    ensures r >= 0.0
  {
    (p1.x - p2.x) * (p1.x - p2.x) + (p1.y - p2.y) * (p1.y - p2.y)
  }

  /** `GetPointDistance(p1, p2) >= threshold`, decided without a square root. */
  predicate FarEnough(p1: Point, p2: Point, threshold: real) {
    threshold <= 0.0 || SquaredDistance(p1, p2) >= threshold * threshold
  }

  lemma SquareMonotone(a: real, b: real)
    requires 0.0 <= a && 0.0 <= b
    ensures a <= b <==> a * a <= b * b
  {
    if a <= b {
      assert a * a <= a * b;
      assert a * b <= b * b;
    } else {
      assert a - b > 0.0 && a + b > 0.0;
      assert (a - b) * (a + b) > 0.0;
      assert a * a - b * b == (a - b) * (a + b);
    }
  }

  /** FarEnough is the Euclidean comparison: for the distance d (the non-negative square root of
      the squared distance) it holds exactly when d >= threshold. */
  lemma FarEnoughIsDistance(p1: Point, p2: Point, threshold: real, d: real)
    requires d >= 0.0 && d * d == SquaredDistance(p1, p2)
    ensures FarEnough(p1, p2, threshold) <==> d >= threshold
  {
    if threshold > 0.0 {
      SquareMonotone(threshold, d);
    }
  }

  /** With the default threshold a 3-pixel move qualifies, a move to (2, 2) (2.83 px) does not. */
  lemma DefaultThresholdExamples()
    ensures FarEnough(Point(0.0, 0.0), Point(3.0, 0.0), DefaultMoveThreshold)
    ensures !FarEnough(Point(0.0, 0.0), Point(2.0, 2.0), DefaultMoveThreshold)
  {
  }

  /** The sender of a move: not a DependencyObject, a DependencyObject, or a UIElement (which is a
      DependencyObject too); a DependencyObject carries its MoveThreshold. */
  datatype Sender = Other | Dependency(threshold: real) | Element(element: int, threshold: real)

  /** A StylusTouchDevice: its id (the stylus device's hash code), Position and IsActive. */
  datatype Device = Device(id: int, position: Point, isActive: bool)

  /** The static state: `_device`, `_currentStylusUIElement`, `_stylusMoved`, `_stylusDownPosition`. */
  datatype Gesture = Gesture(device: Wrappers.Option<Device>, captured: Wrappers.Option<int>,
                             moved: bool, downPosition: Point)

  /** A call into WPF's touch and capture machinery. */
  datatype TouchReport =
    | Activated(id: int)
    | ReportedDown(id: int, position: Point)
    | ReportedMove(id: int, position: Point)
    | ReportedUp(id: int, position: Point)
    | Deactivated(id: int)
    | Captured(element: int)
    | CaptureReleased

  /** `_device != null && _device.IsActive`. */
  predicate Active(s: Gesture) {
    s.device.Some? && s.device.value.isActive
  }

  /** StylusDown. */
  function Down(s: Gesture, id: int, position: Point): (Gesture, seq<TouchReport>) {
    var ended := if Active(s) then [ReportedUp(s.device.value.id, s.device.value.position),
                                    Deactivated(s.device.value.id)] else [];
    (Gesture(Wrappers.Some(Device(id, position, true)), Wrappers.None, false, position),
     ended + [Activated(id), ReportedDown(id, position)])
  }

  /** StylusMove. */
  function Move(s: Gesture, sender: Sender, position: Point): (Gesture, seq<TouchReport>) {
    if sender.Other? then (s, [])
    else if Active(s) && (s.moved || FarEnough(s.downPosition, position, sender.threshold)) then
      var d := s.device.value;
      var capture := sender.Element? && !s.moved;
      (s.(device := Wrappers.Some(d.(position := position)),
          captured := if capture then Wrappers.Some(sender.element) else s.captured,
          moved := true),
       [ReportedMove(d.id, position)] + (if capture then [Captured(sender.element)] else []))
    else (s, [])
  }

  /** StylusUp. The captured element is released but not forgotten. */
  function Up(s: Gesture, position: Point): (Gesture, seq<TouchReport>) {
    if Active(s) then
      var d := s.device.value;
      (s.(device := Wrappers.None),
       [ReportedUp(d.id, position), Deactivated(d.id)] + (if s.captured.Some? then [CaptureReleased] else []))
    else (s, [])
  }

  /** After StylusDown: not moved, the down position is the event's, nothing captured, and the new
      device is active and reported down there, after any still-active device was ended. */
  lemma DownStartsGesture(s: Gesture, id: int, position: Point)
    ensures var r := Down(s, id, position);
      && r.0.device == Wrappers.Some(Device(id, position, true))
      && !r.0.moved && r.0.downPosition == position && r.0.captured.None?
      && r.1[|r.1| - 2..] == [Activated(id), ReportedDown(id, position)]
      && (Active(s) ==> r.1[..2] == [ReportedUp(s.device.value.id, s.device.value.position),
                                     Deactivated(s.device.value.id)])
      && (!Active(s) ==> |r.1| == 2)
  {
  }

  /** A move is reported exactly when the sender is a DependencyObject, a device is active, and
      the pen has already moved or is now far enough from where it went down; otherwise nothing
      changes. */
  lemma MoveReportedIff(s: Gesture, sender: Sender, position: Point)
    ensures var r := Move(s, sender, position);
      (r.1 != []) <==> !sender.Other? && Active(s) && (s.moved || FarEnough(s.downPosition, position, sender.threshold))
    ensures var r := Move(s, sender, position);
      r.1 == [] ==> r.0 == s
  {
  }

  /** The first reported move from a UIElement captures it; a later move neither checks the
      distance nor captures again. */
  lemma MoveCapturesOnce(s: Gesture, sender: Sender, position: Point)
    requires !sender.Other? && Active(s)
    ensures var r := Move(s, sender, position);
      && (!s.moved && sender.Element? && FarEnough(s.downPosition, position, sender.threshold) ==>
            r.0.captured == Wrappers.Some(sender.element) && r.0.moved
            && r.1 == [ReportedMove(s.device.value.id, position), Captured(sender.element)])
      && (s.moved ==> r.0.captured == s.captured && r.0.moved
                      && r.1 == [ReportedMove(s.device.value.id, position)])
  {
  }

  /** Up ends the gesture and releases capture only when an element was captured, keeping the
      reference. */
  lemma UpEndsGesture(s: Gesture, position: Point)
    requires Active(s)
    ensures var r := Up(s, position);
      && r.0.device.None? && r.0.captured == s.captured
      && r.1[..2] == [ReportedUp(s.device.value.id, position), Deactivated(s.device.value.id)]
      && (CaptureReleased in r.1 <==> s.captured.Some?)
  {
  }

  /** Move or Up with no active device does nothing. */
  lemma InactiveIgnoresMoveAndUp(s: Gesture, sender: Sender, position: Point)
    requires !Active(s)
    ensures Move(s, sender, position) == (s, []) && Up(s, position) == (s, [])
  {
  }

  /** The touch protocol a device follows: activated, down, any moves, up, deactivated.
      Capture calls may come at any point. */
  datatype Phase = Idle | Ready(id: int) | Touching(id: int) | Lifted(id: int)

  function Advance(p: Phase, r: TouchReport): Wrappers.Option<Phase> {
    match r
    case Activated(id) => if p == Idle then Wrappers.Some(Ready(id)) else Wrappers.None
    case ReportedDown(id, _) => if p == Ready(id) then Wrappers.Some(Touching(id)) else Wrappers.None
    case ReportedMove(id, _) => if p == Touching(id) then Wrappers.Some(p) else Wrappers.None
    case ReportedUp(id, _) => if p == Touching(id) then Wrappers.Some(Lifted(id)) else Wrappers.None
    case Deactivated(id) => if p == Lifted(id) then Wrappers.Some(Idle) else Wrappers.None
    case Captured(_) => Wrappers.Some(p)
    case CaptureReleased => Wrappers.Some(p)
  }

  /** The phase after a sequence of reports, or None if the sequence breaks the protocol. */
  function AdvanceAll(p: Phase, rs: seq<TouchReport>): Wrappers.Option<Phase>
    decreases |rs|
  {
    if rs == [] then Wrappers.Some(p)
    else match Advance(p, rs[0])
      case None => Wrappers.None
      case Some(q) => AdvanceAll(q, rs[1..])
  }

  lemma {:induction false} AdvanceAllAppend(p: Phase, a: seq<TouchReport>, b: seq<TouchReport>)
    requires AdvanceAll(p, a).Some?
    ensures AdvanceAll(p, a + b) == AdvanceAll(AdvanceAll(p, a).value, b)
    decreases |a|
  {
    if a == [] {
      assert a + b == b;
    } else {
      assert (a + b)[0] == a[0];
      assert (a + b)[1..] == a[1..] + b;
      AdvanceAllAppend(Advance(p, a[0]).value, a[1..], b);
    }
  }

  lemma AdvanceAllSingle(p: Phase, r: TouchReport)
    ensures AdvanceAll(p, [r]) == Advance(p, r)
  {
    assert [r][1..] == [];
  }

  lemma AdvanceAllPair(p: Phase, r1: TouchReport, r2: TouchReport)
    requires Advance(p, r1).Some?
    ensures AdvanceAll(p, [r1, r2]) == Advance(Advance(p, r1).value, r2)
  {
    assert [r1, r2][1..] == [r2];
    AdvanceAllSingle(Advance(p, r1).value, r2);
  }

  /** The phase the protocol is in for a gesture state: touching while a device is active. */
  function PhaseOf(s: Gesture): Phase {
    if s.device.Some? then Touching(s.device.value.id) else Idle
  }

  /** A stored device is always active: Up clears `_device` before deactivating it. */
  predicate Consistent(s: Gesture) {
    s.device.Some? ==> s.device.value.isActive
  }

  /** Lemmas for the three handlers: each one's reports carry the protocol from the state's phase
      to the new state's phase. */
  lemma DownFollowsProtocol(s: Gesture, id: int, position: Point)
    requires Consistent(s)
    ensures var r := Down(s, id, position);
      Consistent(r.0) && AdvanceAll(PhaseOf(s), r.1) == Wrappers.Some(PhaseOf(r.0))
  {
    var r := Down(s, id, position);
    var start := [Activated(id), ReportedDown(id, position)];
    AdvanceAllPair(Idle, Activated(id), ReportedDown(id, position));
    if Active(s) {
      var d := s.device.value;
      var ended := [ReportedUp(d.id, d.position), Deactivated(d.id)];
      AdvanceAllPair(Touching(d.id), ended[0], ended[1]);
      AdvanceAllAppend(Touching(d.id), ended, start);
      assert r.1 == ended + start;
    } else {
      assert r.1 == start;
    }
  }

  lemma MoveFollowsProtocol(s: Gesture, sender: Sender, position: Point)
    requires Consistent(s)
    ensures var r := Move(s, sender, position);
      Consistent(r.0) && AdvanceAll(PhaseOf(s), r.1) == Wrappers.Some(PhaseOf(r.0))
  {
    var r := Move(s, sender, position);
    if r.1 != [] {
      var id := s.device.value.id;
      var mv := [ReportedMove(id, position)];
      AdvanceAllSingle(Touching(id), mv[0]);
      if sender.Element? && !s.moved {
        var cap := [Captured(sender.element)];
        AdvanceAllSingle(Touching(id), cap[0]);
        AdvanceAllAppend(Touching(id), mv, cap);
      } else {
        assert r.1 == mv;
      }
    }
  }

  lemma UpFollowsProtocol(s: Gesture, position: Point)
    requires Consistent(s)
    ensures var r := Up(s, position);
      Consistent(r.0) && AdvanceAll(PhaseOf(s), r.1) == Wrappers.Some(PhaseOf(r.0))
  {
    if Active(s) {
      var id := s.device.value.id;
      var ended := [ReportedUp(id, position), Deactivated(id)];
      AdvanceAllPair(Touching(id), ended[0], ended[1]);
      if s.captured.Some? {
        var rel := [CaptureReleased];
        AdvanceAllSingle(Idle, rel[0]);
        AdvanceAllAppend(Touching(id), ended, rel);
      } else {
        assert Up(s, position).1 == ended;
      }
    }
  }

  /** A stylus event. */
  datatype StylusEvent = StylusDown(id: int, position: Point) | StylusMove(sender: Sender, position: Point)
                       | StylusUp(position: Point)

  function Handle(s: Gesture, ev: StylusEvent): (Gesture, seq<TouchReport>) {
    match ev
    case StylusDown(id, p) => Down(s, id, p)
    case StylusMove(sender, p) => Move(s, sender, p)
    case StylusUp(p) => Up(s, p)
  }

  /** A whole event sequence: the final state and every report, in order. */
  function HandleAll(s: Gesture, evs: seq<StylusEvent>): (Gesture, seq<TouchReport>)
    decreases |evs|
  {
    if evs == [] then (s, [])
    else
      var r := Handle(s, evs[0]);
      var rest := HandleAll(r.0, evs[1..]);
      (rest.0, r.1 + rest.1)
  }

  lemma HandleFollowsProtocol(s: Gesture, ev: StylusEvent)
    requires Consistent(s)
    ensures var r := Handle(s, ev);
      Consistent(r.0) && AdvanceAll(PhaseOf(s), r.1) == Wrappers.Some(PhaseOf(r.0))
  {
    match ev
    case StylusDown(id, p) => DownFollowsProtocol(s, id, p);
    case StylusMove(sender, p) => MoveFollowsProtocol(s, sender, p);
    case StylusUp(p) => UpFollowsProtocol(s, p);
  }

  /** Whatever stylus events arrive, in whatever order, the touch reports follow the protocol:
      every device is activated, reported down, moved, reported up and deactivated in that order,
      one device at a time, and the protocol ends touching exactly while a device is stored. */
  lemma {:induction false} EventsFollowProtocol(s: Gesture, evs: seq<StylusEvent>)
    requires Consistent(s)
    ensures var r := HandleAll(s, evs);
      Consistent(r.0) && AdvanceAll(PhaseOf(s), r.1) == Wrappers.Some(PhaseOf(r.0))
    decreases |evs|
  {
    if evs != [] {
      var r := Handle(s, evs[0]);
      HandleFollowsProtocol(s, evs[0]);
      EventsFollowProtocol(r.0, evs[1..]);
      AdvanceAllAppend(PhaseOf(s), r.1, HandleAll(r.0, evs[1..]).1);
    }
  }

  class StylusTouchDevice {
    var device: Wrappers.Option<Device>
    var currentStylusUIElement: Wrappers.Option<int>
    var stylusMoved: bool
    var stylusDownPosition: Point
    var reports: seq<TouchReport>

    function State(): Gesture
      reads this
    {
      Gesture(device, currentStylusUIElement, stylusMoved, stylusDownPosition)
    }

    /** The reports so far follow the touch protocol and leave it in the state's phase. */
    ghost predicate Valid()
      reads this
    {
      Consistent(State()) && AdvanceAll(Idle, reports) == Wrappers.Some(PhaseOf(State()))
    }

    constructor ()
      ensures Valid()
      ensures device.None? && currentStylusUIElement.None? && !stylusMoved && reports == []
    {
      device := Wrappers.None;
      currentStylusUIElement := Wrappers.None;
      stylusMoved := false;
      stylusDownPosition := Point(0.0, 0.0);
      reports := [];
    }

    method OnStylusDown(id: int, position: Point)
      requires Valid()
      modifies this
      ensures Valid()
      ensures State() == Down(old(State()), id, position).0
      ensures reports == old(reports) + Down(old(State()), id, position).1
    {
      ghost var s := State();
      ghost var e := Down(s, id, position).1;
      DownFollowsProtocol(s, id, position);
      AdvanceAllAppend(Idle, reports, e);
      if device.Some? && device.value.isActive {
        reports := reports + [ReportedUp(device.value.id, device.value.position), Deactivated(device.value.id)];
        device := Wrappers.None;
      }
      var d := Device(id, position, false);
      d := d.(isActive := true);
      reports := reports + [Activated(id), ReportedDown(id, position)];
      device := Wrappers.Some(d);
      stylusMoved := false;
      stylusDownPosition := position;
      currentStylusUIElement := Wrappers.None;
      assert reports == old(reports) + e;
    }

    method OnStylusMove(sender: Sender, position: Point)
      requires Valid()
      modifies this
      ensures Valid()
      ensures State() == Move(old(State()), sender, position).0
      ensures reports == old(reports) + Move(old(State()), sender, position).1
    {
      ghost var s := State();
      ghost var e := Move(s, sender, position).1;
      MoveFollowsProtocol(s, sender, position);
      AdvanceAllAppend(Idle, reports, e);
      if !sender.Other? && device.Some? && device.value.isActive
         && (stylusMoved || FarEnough(stylusDownPosition, position, sender.threshold))
      {
        device := Wrappers.Some(device.value.(position := position));
        reports := reports + [ReportedMove(device.value.id, position)];
        if sender.Element? && !stylusMoved {
          currentStylusUIElement := Wrappers.Some(sender.element);
          reports := reports + [Captured(sender.element)];
        }
        stylusMoved := true;
      }
      assert reports == old(reports) + e;
    }

    method OnStylusUp(position: Point)
      requires Valid()
      modifies this
      ensures Valid()
      ensures State() == Up(old(State()), position).0
      ensures reports == old(reports) + Up(old(State()), position).1
    {
      ghost var s := State();
      ghost var e := Up(s, position).1;
      UpFollowsProtocol(s, position);
      AdvanceAllAppend(Idle, reports, e);
      if device.Some? && device.value.isActive {
        var d := device.value;
        device := Wrappers.None;
        reports := reports + [ReportedUp(d.id, position), Deactivated(d.id)];
        if currentStylusUIElement.Some? {
          reports := reports + [CaptureReleased];
        }
      }
      assert reports == old(reports) + e;
    }
  }
}
